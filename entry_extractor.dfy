/**
 * Entry extraction: `parseRowEntry` turns a user row into the record the
 * match engine and the user map work on (the row's id, its lines, their
 * normalised forms and the set of tokens a query may hit exactly), and
 * memoises the record per DOM node under a fingerprint of the row's text,
 * child count and identity attribute.
 */
module EntryExtractor {
  import opened Text
  import opened UserIds
  import opened RowClassifier
  import opened Wrappers
  import opened Seqs

  /** What `parseRowEntry` returns. The token set is only ever asked for membership. */
  datatype Entry = Entry(
    signature: String,
    displayName: String,
    username: String,
    userId: String,
    lines: seq<String>,
    normalizedLines: seq<String>,
    matchTokens: set<String>)

  /** The `' | '` between the normalised lines of an id-less signature. */
  const SIGNATURE_SEPARATOR: String := " | "
  const SIGNATURE_LINES := 3

  // ---------------------------------------------------------- normalised lines

  /** `lines.map(f).filter(Boolean)`. */
  function MapNonEmpty(lines: seq<String>, f: String -> String): (r: seq<String>)
    ensures |r| <= |lines|
  {
    if lines == [] then []
    else
      var n := f(lines[0]);
      (if n == [] then [] else [n]) + MapNonEmpty(lines[1..], f)
  }

  ghost predicate NoEmptyLine(lines: seq<String>)
  {
    forall k :: 0 <= k < |lines| ==> lines[k] != []
  }

  /** What `.filter(Boolean)` keeps is never empty. */
  lemma {:induction false} MapNonEmptyAreNonEmpty(lines: seq<String>, f: String -> String)
    ensures NoEmptyLine(MapNonEmpty(lines, f))
  {
    if lines != [] {
      var n := f(lines[0]);
      var rest := MapNonEmpty(lines[1..], f);
      MapNonEmptyAreNonEmpty(lines[1..], f);
      if n != [] {
        var r := [n] + rest;
        assert MapNonEmpty(lines, f) == r;
        forall k | 0 <= k < |r| ensures r[k] != [] {
          if k > 0 {
            assert r[k] == rest[k - 1];
          }
        }
      } else {
        assert MapNonEmpty(lines, f) == rest;
      }
    }
  }

  /** `lines.map(normalizeForMatch).filter(Boolean)`. */
  function NormalizeLines(lines: seq<String>): (r: seq<String>)
  {
    MapNonEmpty(lines, NormalizeForMatch)
  }

  // ------------------------------------------------------------------ tokens

  /** The tokens a line with the given `@`-stripped and compact forms adds: each form when non-empty, the line always. */
  function TokenForms(line: String, noAt: String, compact: String): (r: set<String>)
    ensures line in r
  {
    {line} + (if noAt != [] then {noAt} else {}) + (if compact != [] then {compact} else {})
  }

  /** The tokens one normalised line adds: itself, without leading `@`s, and compacted, each when non-empty. */
  function LineTokens(line: String): (r: set<String>)
    ensures line in r
  {
    TokenForms(line, StripLeadingAts(line), CompactIdentityToken(line))
  }

  /** The three `add` calls of one round, in the order the loop makes them. */
  function AddRound(tokens: set<String>, line: String, noAt: String, compact: String): set<String>
  {
    var withLine := tokens + {line};
    var withNoAt := if noAt != [] then withLine + {noAt} else withLine;
    if compact != [] then withNoAt + {compact} else withNoAt
  }

  lemma AddRoundAddsForms(tokens: set<String>, line: String, noAt: String, compact: String)
    ensures AddRound(tokens, line, noAt, compact) == tokens + TokenForms(line, noAt, compact)
  {
  }

  /** The union of `forms(line)` over the lines, added in order. */
  function UnionOf(lines: seq<String>, forms: String -> set<String>): set<String>
  {
    if lines == [] then {} else UnionOf(lines[..|lines| - 1], forms) + forms(lines[|lines| - 1])
  }

  /** An element of the union comes from some line, and every line contributes all of its forms. */
  lemma {:induction false} UnionOfCharacterisation(lines: seq<String>, forms: String -> set<String>, t: String)
    ensures t in UnionOf(lines, forms) <==> exists k :: 0 <= k < |lines| && t in forms(lines[k])
  {
    if lines != [] {
      var init := lines[..|lines| - 1];
      UnionOfCharacterisation(init, forms, t);
      if t in UnionOf(init, forms) {
        var k :| 0 <= k < |init| && t in forms(init[k]);
        assert init[k] == lines[k];
      } else if t !in forms(lines[|lines| - 1]) {
        forall k | 0 <= k < |lines| ensures t !in forms(lines[k]) {
          if k < |init| {
            assert lines[k] == init[k];
          }
        }
      }
    }
  }

  /** Extending the prefix by one line adds that line's forms. */
  lemma UnionOfPrefix(lines: seq<String>, forms: String -> set<String>, i: nat)
    requires i < |lines|
    ensures UnionOf(lines[..i + 1], forms) == UnionOf(lines[..i], forms) + forms(lines[i])
  {
    assert lines[..i + 1][..i] == lines[..i];
  }

  /** The tokens the loop of `parseRowEntry` has added after the given lines. */
  function TokensOf(lines: seq<String>): set<String>
  {
    UnionOf(lines, LineTokens)
  }

  /** The complete token set: the lines' tokens and the user id when there is one. */
  function MatchTokens(lines: seq<String>, userId: String): set<String>
  {
    TokensOf(lines) + (if userId != [] then {userId} else {})
  }

  /** One more line adds its tokens. */
  lemma TokensOfPrefix(lines: seq<String>, i: nat)
    requires i < |lines|
    ensures TokensOf(lines[..i + 1]) == TokensOf(lines[..i]) + LineTokens(lines[i])
  {
    UnionOfPrefix(lines, LineTokens, i);
  }

  /** A token comes from some line, and every line contributes all of its tokens. */
  lemma TokensOfCharacterisation(lines: seq<String>, t: String)
    ensures t in TokensOf(lines) <==> exists k :: 0 <= k < |lines| && t in LineTokens(lines[k])
  {
    UnionOfCharacterisation(lines, LineTokens, t);
  }

  /** The body of the `for` loop of `parseRowEntry`: add one normalised line's tokens. */
  method AddLineTokens(tokens: set<String>, line: String) returns (r: set<String>)
    ensures r == tokens + LineTokens(line)
  {
    var noAt := StripLeadingAts(line);
    r := tokens + {line};
    if noAt != [] {
      r := r + {noAt};
    }
    var compact := CompactIdentityToken(line);
    if compact != [] {
      r := r + {compact};
    }
    AddRoundAddsForms(tokens, line, noAt, compact);
  }

  /** The `for` loop of `parseRowEntry` and the user-id addition after it. */
  method CollectMatchTokens(lines: seq<String>, userId: String) returns (tokens: set<String>)
    ensures tokens == MatchTokens(lines, userId)
  {
    tokens := {};
    var i := 0;
    while i < |lines|
      invariant 0 <= i <= |lines|
      invariant tokens == TokensOf(lines[..i])
    {
      TokensOfPrefix(lines, i);
      tokens := AddLineTokens(tokens, lines[i]);
      i := i + 1;
    }
    assert lines[..|lines|] == lines;
    if userId != [] {
      tokens := tokens + {userId};
    }
  }

  // ---------------------------------------------------------- entry fields

  predicate StartsWithAt(s: String)
  {
    s != [] && s[0] == '@'
  }

  /** `line.trim().startsWith('@')`. */
  predicate IsHandleLine(line: String)
  {
    StartsWithAt(Trim(line))
  }

  /** `lines.find((line) => line.trim().startsWith('@'))`. */
  function FindHandleLine(lines: seq<String>): (r: Option<String>)
  {
    FindFirst(lines, IsHandleLine)
  }

  /** `lines.find(...) || lines[1] || ''`. */
  function Username(lines: seq<String>): (r: String)
  {
    var found := FindHandleLine(lines);
    if found.Some? && found.value != [] then found.value
    else if |lines| > 1 then lines[1]
    else []
  }

  /** `lines[0] || ''`. */
  function DisplayName(lines: seq<String>): (r: String)
  {
    if lines != [] then lines[0] else []
  }

  /** `userId || normalizedLines.slice(0, 3).join(' | ')`. */
  function Signature(userId: String, normalizedLines: seq<String>): (r: String)
  {
    if userId != [] then userId
    else
      var n := if |normalizedLines| < SIGNATURE_LINES then |normalizedLines| else SIGNATURE_LINES;
      Join(normalizedLines[..n], SIGNATURE_SEPARATOR)
  }

  /** The record `parseRowEntry` builds from a row's id and its lines. */
  function BuildEntry(userId: String, lines: seq<String>): (e: Entry)
  {
    var normalized := NormalizeLines(lines);
    Entry(Signature(userId, normalized), DisplayName(lines), Username(lines), userId,
          lines, normalized, MatchTokens(normalized, userId))
  }

  /** The record `parseRowEntry` builds for a row when its memo does not apply. */
  function EntryOf(row: RowView): (e: Entry)
  {
    BuildEntry(ExtractUserId(row.idCandidates), RowLines(row))
  }

  /** Lines 227 to 254 of `parseRowEntry`: the id, the lines, the tokens and the record. */
  method BuildRowEntry(row: RowView) returns (e: Entry)
    ensures e == EntryOf(row)
  {
    var userId := ExtractUserId(row.idCandidates);
    var lines := RowLines(row);
    var normalized := NormalizeLines(lines);
    var tokens := CollectMatchTokens(normalized, userId);
    e := Entry(Signature(userId, normalized), DisplayName(lines), Username(lines), userId,
               lines, normalized, tokens);
  }

  // ------------------------------------------------------------- the memo

  /** `row.getAttribute('data-list-item-id') || row.getAttribute('data-user-id') || ''`. */
  function IdentityAttr(row: RowView): String
  {
    if row.listItemIdAttr != [] then row.listItemIdAttr else row.userIdAttr
  }

  /** The memo key `${quickText}|${childElementCount}|${rowIdentityAttr}`. */
  function Fingerprint(row: RowView): String
  {
    NormalizeForMatch(row.textContent) + "|" + Decimal(row.childCount) + "|" + IdentityAttr(row)
  }

  datatype CacheSlot = CacheSlot(fingerprint: String, entry: Entry)

  /** What the memo stores for a row: its fingerprint and its entry. */
  function SlotOf(row: RowView): (s: CacheSlot)
  {
    CacheSlot(Fingerprint(row), EntryOf(row))
  }

  /**
   * Every slot holds the fingerprint and the entry of the row state it was
   * built from, kept under that row's node. The second quantifier fires
   * only where `SlotOf` of a source is mentioned, so that the entry of every
   * slot is not rebuilt at every step of a proof.
   */
  ghost predicate Consistent(slots: map<NodeId, CacheSlot>, sources: map<NodeId, RowView>)
  {
    && (forall n :: n in slots ==> n in sources && sources[n].node == n)
    && (forall n {:trigger SlotOf(sources[n])} :: n in slots ==> slots[n] == SlotOf(sources[n]))
  }

  /**
   * `rowEntryCache`, the WeakMap from a row's DOM node to the fingerprint and
   * the entry last built for it. The ghost `sources` remembers the state of
   * the row each slot was built from.
   */
  class RowEntryCache {
    var slots: map<NodeId, CacheSlot>
    ghost var sources: map<NodeId, RowView>

    ghost predicate Valid()
      reads this
    {
      Consistent(slots, sources)
    }

    /** In a valid memo, each slot holds the fingerprint and the entry of some state of its own node. */
    lemma SlotIsBuiltFromItsNode(n: NodeId)
      requires Valid() && n in slots
      ensures n in sources && sources[n].node == n
      ensures slots[n].fingerprint == Fingerprint(sources[n]) && slots[n].entry == EntryOf(sources[n])
    {
      assert slots[n] == SlotOf(sources[n]);
    }

    /** The memo applies: the node has a slot whose fingerprint is the row's current one. */
    predicate Hit(row: RowView)
      reads this
    {
      row.node in slots && slots[row.node].fingerprint == Fingerprint(row)
    }

    constructor()
      ensures Valid() && slots == map[]
    {
      slots := map[];
      sources := map[];
    }

    /**
     * `parseRowEntry`. On a hit the cached entry comes back and the memo is
     * left alone; otherwise the entry is built afresh and stored under the
     * new fingerprint. Either way the node's slot now holds the row's
     * fingerprint and the entry returned, so by `SlotIsBuiltFromItsNode` the
     * entry is that of a state of the same node with the same fingerprint.
     */
    method ParseRowEntry(row: RowView) returns (e: Entry)
      requires Valid()
      modifies this
      ensures Valid()
      ensures row.node in slots && slots[row.node] == CacheSlot(Fingerprint(row), e)
      ensures old(Hit(row)) ==> e == old(slots)[row.node].entry && slots == old(slots) && sources == old(sources)
      ensures !old(Hit(row)) ==> e == EntryOf(row)
      ensures !old(Hit(row)) ==> slots == old(slots)[row.node := CacheSlot(Fingerprint(row), e)]
    {
      var fingerprint := Fingerprint(row);
      if row.node in slots && slots[row.node].fingerprint == fingerprint {
        assert Hit(row);
        return slots[row.node].entry;
      }
      e := BuildRowEntry(row);
      slots := slots[row.node := CacheSlot(fingerprint, e)];
      sources := sources[row.node := row];
    }
  }

  // ----------------------------------------------------------------- lemmas

  /**
   * The token set of an entry: every normalised line is a token, and so are
   * its `@`-stripped and compact forms when they are non-empty; the user id
   * is a token when there is one; and there are no other tokens.
   */
  lemma EntryTokens(userId: String, lines: seq<String>)
    ensures var e := BuildEntry(userId, lines);
      forall k :: 0 <= k < |e.normalizedLines| ==> LineTokens(e.normalizedLines[k]) <= e.matchTokens
    ensures var e := BuildEntry(userId, lines);
      e.userId != [] ==> e.userId in e.matchTokens
    ensures var e := BuildEntry(userId, lines);
      forall t :: t in e.matchTokens ==>
        t == e.userId || exists k :: 0 <= k < |e.normalizedLines| && t in LineTokens(e.normalizedLines[k])
  {
    var normalized := NormalizeLines(lines);
    forall k | 0 <= k < |normalized| ensures LineTokens(normalized[k]) <= TokensOf(normalized) {
      forall t | t in LineTokens(normalized[k]) ensures t in TokensOf(normalized) {
        TokensOfCharacterisation(normalized, t);
      }
    }
    forall t | t in TokensOf(normalized)
      ensures exists k :: 0 <= k < |normalized| && t in LineTokens(normalized[k])
    {
      TokensOfCharacterisation(normalized, t);
    }
  }

  /**
   * The signature is the user id when there is one; it is empty exactly when
   * there is neither an id nor a normalised line; and without an id it starts
   * with the first normalised line.
   */
  lemma EntrySignature(userId: String, lines: seq<String>)
    ensures var e := BuildEntry(userId, lines);
      e.userId != [] ==> e.signature == e.userId
    ensures var e := BuildEntry(userId, lines);
      e.signature == [] <==> e.userId == [] && e.normalizedLines == []
    ensures var e := BuildEntry(userId, lines);
      e.userId == [] && e.normalizedLines != [] ==> e.normalizedLines[0] <= e.signature
  {
    var normalized := NormalizeLines(lines);
    MapNonEmptyAreNonEmpty(lines, NormalizeForMatch);
    if userId == [] && normalized != [] {
      var n := if |normalized| < SIGNATURE_LINES then |normalized| else SIGNATURE_LINES;
      var head := normalized[..n];
      assert head[0] == normalized[0];
      JoinStartsWithHead(head, SIGNATURE_SEPARATOR);
    }
  }

  /** For trimmed, non-empty lines the display name is the first line, and empty exactly when there is none. */
  lemma EntryDisplayName(userId: String, lines: seq<String>)
    requires SolidLines(lines)
    ensures var e := BuildEntry(userId, lines);
      (e.displayName == [] <==> lines == []) && (lines != [] ==> e.displayName == lines[0])
  {
    assert BuildEntry(userId, lines).displayName == DisplayName(lines);
    if lines != [] {
      assert lines[0] != [];
    }
  }

  /**
   * For trimmed, non-empty lines (a row's lines always are) the username is
   * the first line that starts with `@`, else the second line, else empty,
   * so it is always one of the lines or empty.
   */
  lemma EntryUsername(userId: String, lines: seq<String>)
    requires SolidLines(lines)
    ensures forall k :: (0 <= k < |lines| && StartsWithAt(lines[k])
      && (forall j :: 0 <= j < k ==> !StartsWithAt(lines[j]))) ==> BuildEntry(userId, lines).username == lines[k]
    ensures (forall k :: 0 <= k < |lines| ==> !StartsWithAt(lines[k])) ==>
      BuildEntry(userId, lines).username == if |lines| > 1 then lines[1] else []
    ensures BuildEntry(userId, lines).username == [] || BuildEntry(userId, lines).username in lines
  {
    assert BuildEntry(userId, lines).username == Username(lines);
    UsernameOfSolidLines(lines);
  }

  /** The username rule on trimmed, non-empty lines. */
  lemma UsernameOfSolidLines(lines: seq<String>)
    requires SolidLines(lines)
    ensures forall k :: (0 <= k < |lines| && StartsWithAt(lines[k])
      && (forall j :: 0 <= j < k ==> !StartsWithAt(lines[j]))) ==> Username(lines) == lines[k]
    ensures (forall k :: 0 <= k < |lines| ==> !StartsWithAt(lines[k])) ==>
      Username(lines) == if |lines| > 1 then lines[1] else []
    ensures Username(lines) == [] || Username(lines) in lines
  {
    HandleLineOfSolidLines(lines);
    forall k | 0 <= k < |lines| && StartsWithAt(lines[k]) && (forall j :: 0 <= j < k ==> !StartsWithAt(lines[j]))
      ensures FindFirst(lines, StartsWithAt) == Some(lines[k])
    {
      FindFirstAt(lines, StartsWithAt, k);
    }
    FindFirstNone(lines, StartsWithAt);
    FindFirstIsAnElement(lines, StartsWithAt);
  }

  /** On trimmed lines, looking for a line whose trimmed form starts with `@` is looking for one that does. */
  lemma HandleLineOfSolidLines(lines: seq<String>)
    requires SolidLines(lines)
    ensures FindHandleLine(lines) == FindFirst(lines, StartsWithAt)
  {
    forall k | 0 <= k < |lines| ensures IsHandleLine(lines[k]) == StartsWithAt(lines[k]) {
      TrimOfSolid(lines[k]);
    }
    FindFirstAgree(lines, IsHandleLine, StartsWithAt);
  }

  /** The lines of an entry built for a row are that row's trimmed, non-empty lines. */
  lemma EntryOfRow(row: RowView)
    ensures EntryOf(row).lines == RowLines(row) && SolidLines(EntryOf(row).lines)
    ensures EntryOf(row).userId == ExtractUserId(row.idCandidates)
  {
    RowLinesAreTrimmed(row);
  }

  /** Normalised lines are non-empty, and there are at most as many as lines. */
  lemma EntryNormalizedLines(userId: String, lines: seq<String>)
    ensures var e := BuildEntry(userId, lines);
      NoEmptyLine(e.normalizedLines) && |e.normalizedLines| <= |lines|
  {
    MapNonEmptyAreNonEmpty(lines, NormalizeForMatch);
  }
}
