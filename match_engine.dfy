/**
 * Matching a query against an entry (`rowMatchesEntry`), searching the user
 * map for the first matching entry (`findEntryInMap`) and numbering the
 * collected entries for display (`formatUserList`).
 *
 * The match is graduated: a query that holds a 16 to 21 digit user id is
 * decided by the id alone; otherwise any exact token hit wins; otherwise a
 * query whose `@`-stripped and compact forms are both shorter than three
 * UTF-16 units is refused; otherwise a substring test on the entry's
 * normalised lines decides.
 */
module MatchEngine {
  import opened Text
  import opened UserIds
  import opened RowClassifier
  import opened Wrappers
  import opened Seqs
  import opened EntryExtractor
  import opened UserMaps

  /** The forms of a query `rowMatchesEntry` compares: normalised, `@`-stripped, compact, and the id it holds. */
  datatype Query = Query(target: String, noAt: String, compact: String, id: String)

  function QueryOf(keyword: String): (q: Query)
  {
    var target := NormalizeForMatch(keyword);
    var noAt := StripLeadingAts(target);
    Query(target, noAt, CompactIdentityToken(target), ExtractUserIdFromText(noAt))
  }

  /** One of the three query forms is a token of the entry (an empty form does not count). */
  predicate ExactHit(e: Entry, q: Query)
  {
    q.target in e.matchTokens
    || (q.noAt != [] && q.noAt in e.matchTokens)
    || (q.compact != [] && q.compact in e.matchTokens)
  }

  /** Both the stripped and the compact query are shorter than three UTF-16 units. */
  predicate TooShort(q: Query)
  {
    Utf16Length(q.noAt) < 3 && Utf16Length(q.compact) < 3
  }

  /** The callback of `normalizedLines.some(...)`. */
  predicate LineHit(line: String, q: Query)
  {
    Contains(line, q.target)
    || (q.noAt != [] && Contains(StripLeadingAts(line), q.noAt))
    || (q.compact != [] && Contains(CompactIdentityToken(line), q.compact))
  }

  /** `normalizedLines.some(...)`: the lines are tried from the first on. */
  predicate SomeLineHits(lines: seq<String>, q: Query)
  {
    lines != [] && (LineHit(lines[0], q) || SomeLineHits(lines[1..], q))
  }

  /** `some` holds exactly when one of the lines passes the callback. */
  lemma {:induction false} SomeLineHitsMeans(lines: seq<String>, q: Query)
    ensures SomeLineHits(lines, q) <==> exists k :: 0 <= k < |lines| && LineHit(lines[k], q)
  {
    if lines != [] {
      SomeLineHitsMeans(lines[1..], q);
      if exists k :: 0 <= k < |lines| && LineHit(lines[k], q) {
        var k :| 0 <= k < |lines| && LineHit(lines[k], q);
        if k > 0 {
          assert lines[1..][k - 1] == lines[k];
        }
      }
      if SomeLineHits(lines[1..], q) && !LineHit(lines[0], q) {
        var k :| 0 <= k < |lines[1..]| && LineHit(lines[1..][k], q);
        assert LineHit(lines[k + 1], q);
      }
    }
  }

  /** The decision of `rowMatchesEntry` on the query's forms. */
  predicate MatchesQuery(e: Entry, q: Query)
  {
    if q.target == [] then false
    else if q.id != [] then e.userId == q.id || q.id in e.matchTokens
    else if ExactHit(e, q) then true
    else if TooShort(q) then false
    else SomeLineHits(e.normalizedLines, q)
  }

  /** `rowMatchesEntry(entry, keyword)`. */
  predicate RowMatchesEntry(e: Entry, keyword: String)
  {
    MatchesQuery(e, QueryOf(keyword))
  }

  // ------------------------------------------------------ match precedence

  /** A query that normalises to the empty string matches no entry. */
  lemma BlankQueryNeverMatches(e: Entry, keyword: String)
    requires NormalizeForMatch(keyword) == []
    ensures !RowMatchesEntry(e, keyword)
  {
  }

  /** In particular a query of white space only matches no entry. */
  lemma WhiteSpaceQueryNeverMatches(e: Entry, keyword: String)
    requires AllSpace(keyword)
    ensures !RowMatchesEntry(e, keyword)
  {
    NormalizeForMatchOfBlank(keyword);
    BlankQueryNeverMatches(e, keyword);
  }

  /**
   * When the `@`-stripped query holds a user id, the answer is exactly whether
   * the entry has that id or that id as a token; no substring test is made.
   */
  lemma IdQueryDecidesById(e: Entry, keyword: String)
    requires QueryOf(keyword).id != []
    ensures RowMatchesEntry(e, keyword) <==>
      e.userId == QueryOf(keyword).id || QueryOf(keyword).id in e.matchTokens
  {
    var q := QueryOf(keyword);
    ExtractUserIdFromTextIsLeftmostRun(q.noAt);
    assert q.noAt != [];
    assert q.target != [] by {
      StripLeadingAtsShape(q.target);
    }
  }

  /**
   * A query of 16 to 21 digits matches an entry exactly when it is the entry's
   * id or one of its tokens: in particular it never matches merely by
   * occurring inside a longer number or a line of the entry.
   */
  lemma BareIdQuery(e: Entry, keyword: String)
    requires MIN_ID_DIGITS <= |keyword| <= MAX_ID_DIGITS
    requires forall i :: 0 <= i < |keyword| ==> IsDigit(keyword[i])
    ensures QueryOf(keyword).id == keyword
    ensures RowMatchesEntry(e, keyword) <==> e.userId == keyword || keyword in e.matchTokens
  {
    DigitsAreFixed(keyword);
    LeadingIdRunIsFound(keyword, |keyword|);
    assert keyword[..|keyword|] == keyword;
  }

  /** Without an id in the query, an exact token hit on any of its forms is a match. */
  lemma ExactHitMatches(e: Entry, keyword: String)
    requires QueryOf(keyword).target != [] && QueryOf(keyword).id == []
    requires ExactHit(e, QueryOf(keyword))
    ensures RowMatchesEntry(e, keyword)
  {
  }

  /**
   * Without an exact token hit, a query whose `@`-stripped and compact forms
   * are both shorter than three UTF-16 units matches nothing (such a query
   * cannot hold an id either).
   */
  lemma ShortQueryIsRefused(e: Entry, keyword: String)
    requires !ExactHit(e, QueryOf(keyword))
    requires TooShort(QueryOf(keyword))
    ensures !RowMatchesEntry(e, keyword)
  {
    assert QueryOf(keyword).id == [];
  }

  /**
   * Past the id and exact-token stages and the short-query refusal, the
   * answer is whether some normalised line of the entry contains one of the
   * query's forms.
   */
  lemma FallbackIsSubstringSearch(e: Entry, keyword: String)
    requires QueryOf(keyword).target != [] && QueryOf(keyword).id == []
    requires !ExactHit(e, QueryOf(keyword)) && !TooShort(QueryOf(keyword))
    ensures RowMatchesEntry(e, keyword) <==>
      exists k :: 0 <= k < |e.normalizedLines| && LineHit(e.normalizedLines[k], QueryOf(keyword))
  {
    SomeLineHitsMeans(e.normalizedLines, QueryOf(keyword));
  }

  /** Matching ignores the case of the query's ASCII letters. */
  lemma MatchIgnoresCase(e: Entry, keyword: String)
    ensures RowMatchesEntry(e, Upper(keyword)) == RowMatchesEntry(e, keyword)
  {
    NormalizeForMatchIgnoresCase(keyword);
  }

  /** An entry with a user id is found by searching for that id. */
  lemma EntryIsFoundByItsId(userId: String, lines: seq<String>)
    requires MIN_ID_DIGITS <= |userId| <= MAX_ID_DIGITS
    requires forall i :: 0 <= i < |userId| ==> IsDigit(userId[i])
    ensures RowMatchesEntry(BuildEntry(userId, lines), userId)
  {
    BareIdQuery(BuildEntry(userId, lines), userId);
  }

  /** Every user id `extractUserId` reports is made of digits, so the entry carrying it is found by it. */
  lemma RowEntryIsFoundByItsId(row: RowView)
    requires EntryOf(row).userId != []
    ensures RowMatchesEntry(EntryOf(row), EntryOf(row).userId)
  {
    var candidates := row.idCandidates;
    var id := ExtractUserId(candidates);
    ExtractUserIdIsFirstFound(candidates);
    var k :| 0 <= k < |candidates| && id == ExtractUserIdFromText(candidates[k]);
    ExtractUserIdFromTextIsLeftmostRun(candidates[k]);
    EntryIsFoundByItsId(id, RowLines(row));
  }

  // ------------------------------------------------------- findEntryInMap

  /** The test `findEntryInMap` applies to each entry. */
  function Matcher(keyword: String): Entry -> bool
  {
    e => RowMatchesEntry(e, keyword)
  }

  /** The first entry, in order, that matches the keyword. */
  function FirstMatch(entries: seq<Entry>, keyword: String): Option<Entry>
  {
    FindFirst(entries, Matcher(keyword))
  }

  /**
   * The search returns the matching entry with the smallest position, and
   * none exactly when no entry matches.
   */
  lemma FirstMatchIsFirst(entries: seq<Entry>, keyword: String)
    ensures FirstMatch(entries, keyword).None? <==>
      forall i :: 0 <= i < |entries| ==> !RowMatchesEntry(entries[i], keyword)
    ensures FirstMatch(entries, keyword).Some? ==>
      exists i :: 0 <= i < |entries|
        && FirstMatch(entries, keyword).value == entries[i] && RowMatchesEntry(entries[i], keyword)
        && forall j :: 0 <= j < i ==> !RowMatchesEntry(entries[j], keyword)
  {
    FindFirstNone(entries, Matcher(keyword));
    FindFirstIsFirst(entries, Matcher(keyword));
  }

  /** The search from position `i` takes the entry there if it matches, and otherwise searches on from `i + 1`. */
  lemma FirstMatchStep(entries: seq<Entry>, keyword: String, i: nat)
    requires i < |entries|
    ensures FirstMatch(entries[i..], keyword) ==
      if RowMatchesEntry(entries[i], keyword) then Some(entries[i]) else FirstMatch(entries[i + 1..], keyword)
  {
    assert entries[i..][0] == entries[i];
    assert entries[i..][1..] == entries[i + 1..];
  }

  /**
   * `findEntryInMap(userMap, keyword)`: no map, or an empty one, gives none;
   * otherwise the entries are tried in insertion order and the first match
   * is returned.
   */
  method FindEntryInMap(userMap: UserMap?, keyword: String) returns (r: Option<Entry>)
    requires userMap != null ==> userMap.Valid()
    ensures userMap == null ==> r == None
    ensures userMap != null ==> r == FirstMatch(userMap.Values(), keyword)
  {
    if userMap == null || userMap.Size() == 0 {
      return None;
    }
    var entries := userMap.Values();
    var i := 0;
    while i < |entries|
      invariant 0 <= i <= |entries|
      invariant FirstMatch(entries, keyword) == FirstMatch(entries[i..], keyword)
    {
      FirstMatchStep(entries, keyword, i);
      if RowMatchesEntry(entries[i], keyword) {
        return Some(entries[i]);
      }
      i := i + 1;
    }
    return None;
  }

  // ------------------------------------------------------- formatUserList

  const NO_NICKNAME: String := "(无昵称)"

  /** `username.replace(/^@/, '')`: one leading `@` at most is removed. */
  function DropOneAt(s: String): (r: String)
  {
    if s != [] && s[0] == '@' then s[1..] else s
  }

  /** `${displayName || '(无昵称)'}${username ? ' @' + … : ''}`. */
  function Label(e: Entry): String
  {
    var left := if e.displayName != [] then e.displayName else NO_NICKNAME;
    var right := if e.username != [] then " @" + DropOneAt(e.username) else [];
    left + right
  }

  /** `${idx + 1}. ${label}`. */
  function FormatLine(idx: nat, e: Entry): String
  {
    Decimal(idx + 1) + ". " + Label(e)
  }

  /** `formatUserList`: one line per entry, in order. */
  function FormatUserList(entries: seq<Entry>): (r: seq<String>)
  {
    seq(|entries|, i requires 0 <= i < |entries| => FormatLine(i, entries[i]))
  }

  /** `line` is `n` in decimal digits, then `". "`, then a non-empty label. */
  ghost predicate NumberedLine(line: String, n: nat)
  {
    exists digits: String, rest: String ::
      && line == digits + ". " + rest
      && (forall m :: 0 <= m < |digits| ==> IsDigit(digits[m]))
      && DecimalValue(digits) == n
      && rest != []
  }

  /**
   * One line per entry; line `i` starts with the decimal digits of `i + 1`
   * (read back as `i + 1`) followed by `". "`, and the name shown after it is
   * never empty: the display name, or the placeholder when there is none.
   */
  lemma FormatUserListNumbersFromOne(entries: seq<Entry>)
    ensures |FormatUserList(entries)| == |entries|
    ensures forall i :: 0 <= i < |entries| ==> NumberedLine(FormatUserList(entries)[i], i + 1)
  {
    forall i | 0 <= i < |entries|
      ensures NumberedLine(FormatUserList(entries)[i], i + 1)
    {
      FormatLineIsNumbered(i, entries[i]);
    }
  }

  lemma FormatLineIsNumbered(idx: nat, e: Entry)
    ensures NumberedLine(FormatLine(idx, e), idx + 1)
  {
    var digits, rest := Decimal(idx + 1), Label(e);
    DecimalRoundTrip(idx + 1);
    assert rest != [] by {
      assert |NO_NICKNAME| == 5;
    }
    assert FormatLine(idx, e) == digits + ". " + rest;
  }

  /**
   * A username written with one leading `@` is shown with exactly one `@`,
   * and a username without it gains one.
   */
  lemma FormatLineShowsOneAt(idx: nat, e: Entry, handle: String)
    requires handle == [] || handle[0] != '@'
    requires e.username == "@" + handle || (e.username == handle && handle != [])
    ensures var line := FormatLine(idx, e);
      |line| >= |handle| + 2 && line[|line| - |handle| - 2..] == " @" + handle
  {
    assert DropOneAt(e.username) == handle;
    var left := if e.displayName != [] then e.displayName else NO_NICKNAME;
    assert FormatLine(idx, e) == (Decimal(idx + 1) + ". " + left) + (" @" + handle);
  }
}
