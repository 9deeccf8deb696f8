/**
 * The row classifier: decides from geometry and text alone whether a rendered
 * node of the Reactions dialog is a user row, and not one of the emoji/count
 * rows of the dialog's left column. Two tiers: `looksLikeUserRow` (strict) and
 * `looksLikeUserRowRelaxed`, plus the scope fallback of `getRows`.
 *
 * DOM access is abstracted into a `RowView` record: the selector-based avatar
 * probe is the `hasAvatar` flag, `offsetParent` is `laidOut`, `closest(...)` on
 * the script's own controls is `insideControls`, and the attribute values that
 * `extractUserId` reads are `idCandidates`, in the order it reads them.
 */
module RowClassifier {
  import opened Text
  import opened UserIds
  import opened Arith

  /** The identity of a DOM node (what a WeakMap is keyed by). */
  type NodeId = nat

  datatype RowView = RowView(
    node: NodeId,
    laidOut: bool,
    insideControls: bool,
    height: real,
    width: real,
    innerText: String,
    textContent: String,
    childCount: nat,
    listItemIdAttr: String,
    userIdAttr: String,
    idCandidates: seq<String>,
    hasAvatar: bool)

  const MAX_ROW_LINES := 6
  const STRICT_MAX_LINES := 8
  const RELAXED_MAX_LINES := 10
  const STRICT_MAX_TEXT := 180
  const RELAXED_MAX_TEXT := 220
  const COUNTER_MAX_DIGITS := 8

  // ------------------------------------------------------------- row lines

  /** `innerText || textContent || ''`. */
  function RowText(row: RowView): String
  {
    if row.innerText != [] then row.innerText else row.textContent
  }

  /** `.map((s) => s.trim()).filter(Boolean)`. */
  function TrimmedNonEmpty(pieces: seq<String>): (lines: seq<String>)
    ensures |lines| <= |pieces|
  {
    if pieces == [] then []
    else
      var t := Trim(pieces[0]);
      (if t == [] then [] else [t]) + TrimmedNonEmpty(pieces[1..])
  }

  /**
   * `getRowLines`: the trimmed, non-empty lines of the row's text, at most six.
   * Because of the cap, the "more than 8" and "more than 10" line checks of the
   * two classifier tiers can never fire.
   */
  function RowLines(row: RowView): (lines: seq<String>)
    ensures |lines| <= MAX_ROW_LINES < STRICT_MAX_LINES < RELAXED_MAX_LINES
  {
    var all := TrimmedNonEmpty(Split(RowText(row), '\n'));
    if |all| <= MAX_ROW_LINES then all else all[..MAX_ROW_LINES]
  }

  /** Every line is non-empty and has no white space at either end. */
  ghost predicate SolidLines(lines: seq<String>)
  {
    forall k :: 0 <= k < |lines| ==> lines[k] != [] && Trimmed(lines[k])
  }

  lemma {:induction false} TrimmedNonEmptyAreTrimmed(pieces: seq<String>)
    ensures SolidLines(TrimmedNonEmpty(pieces))
  {
    if pieces != [] {
      TrimmedNonEmptyAreTrimmed(pieces[1..]);
      var t := Trim(pieces[0]);
      if t != [] {
        SolidLinesCons(t, TrimmedNonEmpty(pieces[1..]));
      }
    }
  }

  /** A non-empty trimmed line in front of solid lines keeps them solid. */
  lemma SolidLinesCons(t: String, rest: seq<String>)
    requires t != [] && Trimmed(t) && SolidLines(rest)
    ensures SolidLines([t] + rest)
  {
    var lines := [t] + rest;
    forall k | 0 <= k < |lines| ensures lines[k] != [] && Trimmed(lines[k]) {
      if k > 0 {
        assert lines[k] == rest[k - 1];
      }
    }
  }

  /** Every line of a row is non-empty and has no white space at either end. */
  lemma RowLinesAreTrimmed(row: RowView)
    ensures SolidLines(RowLines(row))
  {
    var all := TrimmedNonEmpty(Split(RowText(row), '\n'));
    TrimmedNonEmptyAreTrimmed(Split(RowText(row), '\n'));
    if |all| > MAX_ROW_LINES {
      SolidLinesPrefix(all, MAX_ROW_LINES);
    }
  }

  /** The first `n` of some solid lines are solid. */
  lemma SolidLinesPrefix(lines: seq<String>, n: nat)
    requires SolidLines(lines) && n <= |lines|
    ensures SolidLines(lines[..n])
  {
    assert forall k :: 0 <= k < n ==> lines[..n][k] == lines[k];
  }

  // ------------------------------------------------------- text predicates

  /** The class `[a-zA-Z0-9\u4e00-\u9fff@._-]`: ASCII letters and digits, CJK ideographs, `@._-`. */
  predicate IsWordLikeChar(c: char)
  {
    ('a' <= c <= 'z') || ('A' <= c <= 'Z') || IsDigit(c) || ('\U{4E00}' <= c <= '\U{9FFF}')
    || c == '@' || c == '.' || c == '_' || c == '-'
  }

  /** `hasWordLikeChars`. */
  predicate HasWordLikeChars(text: String)
  {
    exists i :: 0 <= i < |text| && IsWordLikeChar(text[i])
  }

  /** The class `[\s,.，]` deleted before the digit test of `isLikelyCounterLine`. */
  predicate IsCounterSeparator(c: char)
  {
    IsSpace(c) || c == ',' || c == '.' || c == '\U{FF0C}'
  }

  ghost predicate AllDigits(s: String)
  {
    forall i :: 0 <= i < |s| ==> IsDigit(s[i])
  }

  /** `isLikelyCounterLine`: blank, or 1 to 8 digits once separators are deleted. */
  predicate IsLikelyCounterLine(line: String)
  {
    var text := Trim(line);
    text == [] ||
      var pure := Without(text, IsCounterSeparator);
      1 <= |pure| <= COUNTER_MAX_DIGITS && forall i :: 0 <= i < |pure| ==> IsDigit(pure[i])
  }

  /** `isLikelyReactionCounterLines`. */
  predicate IsLikelyReactionCounterLines(lines: seq<String>)
  {
    |lines| == 0 ||
      (|lines| <= 2
       && (exists k :: 0 <= k < |lines| && IsLikelyCounterLine(lines[k]))
       && (forall k :: 0 <= k < |lines| ==> IsLikelyCounterLine(lines[k]) || !HasWordLikeChars(lines[k])))
  }

  /** The class `[\w._-]`. */
  predicate IsHandleChar(c: char)
  {
    ('a' <= c <= 'z') || ('A' <= c <= 'Z') || IsDigit(c) || c == '_' || c == '.' || c == '-'
  }

  /** `/(^|\s)@[\w._-]{2,}/`: an `@handle` of at least two characters, at the start or after white space. */
  predicate HasHandleAt(line: String, i: nat)
  {
    i + 2 < |line| && (i == 0 || IsSpace(line[i - 1])) && line[i] == '@'
    && IsHandleChar(line[i + 1]) && IsHandleChar(line[i + 2])
  }

  predicate HasHandle(line: String)
  {
    exists i: nat :: i < |line| && HasHandleAt(line, i)
  }

  predicate IsMeaningfulLine(line: String)
  {
    !IsLikelyCounterLine(line) && HasWordLikeChars(line)
  }

  /** `lines.filter(line => !isLikelyCounterLine(line) && hasWordLikeChars(line)).length`. */
  function CountMeaningful(lines: seq<String>): (n: nat)
    ensures n <= |lines|
  {
    if lines == [] then 0
    else (if IsMeaningfulLine(lines[0]) then 1 else 0) + CountMeaningful(lines[1..])
  }

  /** `hasUserIdentityLike`: an id in the attributes or the text, an `@handle`, or two meaningful lines. */
  predicate HasUserIdentityLike(row: RowView, lines: seq<String>)
  {
    ExtractUserId(row.idCandidates) != []
    || ExtractUserIdFromText(Join(lines, " ")) != []
    || (exists k :: 0 <= k < |lines| && HasHandle(lines[k]))
    || CountMeaningful(lines) >= 2
  }

  // ------------------------------------------------------------ classifiers

  /**
   * The text checks both tiers share, with the tier's line and length caps:
   * some lines, not all of them counters, not an emoji/count pair, a joined
   * text within the cap, and an avatar or some identity.
   */
  predicate LinesLookLikeUser(row: RowView, lines: seq<String>, maxLines: nat, maxText: nat)
  {
    |lines| != 0 && |lines| <= maxLines
    && !(forall k :: 0 <= k < |lines| ==> IsLikelyCounterLine(lines[k]))
    && !IsLikelyReactionCounterLines(lines)
    && var txt := Join(lines, " ");
    txt != [] && Utf16Length(txt) <= maxText
    && (row.hasAvatar || HasUserIdentityLike(row, lines))
  }

  /** `looksLikeUserRow`, the strict tier; `dialogWidth` is the dialog's bounding-box width. */
  predicate LooksLikeUserRow(row: RowView, dialogWidth: real)
  {
    row.laidOut
    && 24.0 <= row.height <= 160.0
    && row.width >= MaxReal(96.0, dialogWidth * 0.18)
    && LinesLookLikeUser(row, RowLines(row), STRICT_MAX_LINES, STRICT_MAX_TEXT)
  }

  /** `looksLikeUserRowRelaxed`, the fallback tier with looser bands. */
  predicate LooksLikeUserRowRelaxed(row: RowView, dialogWidth: real)
  {
    row.laidOut
    && !row.insideControls
    && 20.0 <= row.height <= 220.0
    && row.width >= MaxReal(72.0, dialogWidth * 0.1)
    && LinesLookLikeUser(row, RowLines(row), RELAXED_MAX_LINES, RELAXED_MAX_TEXT)
  }

  /** `rows.filter(accept)`. */
  function Keep(rows: seq<RowView>, accept: RowView -> bool): (r: seq<RowView>)
    ensures |r| <= |rows|
    ensures forall k :: 0 <= k < |r| ==> accept(r[k]) && r[k] in rows
    ensures r == [] <==> forall k :: 0 <= k < |rows| ==> !accept(rows[k])
  {
    if rows == [] then []
    else (if accept(rows[0]) then [rows[0]] else []) + Keep(rows[1..], accept)
  }

  /** The strict tier as a test on one row. */
  function StrictTest(dialogWidth: real): RowView -> bool
  {
    (row: RowView) => LooksLikeUserRow(row, dialogWidth)
  }

  /** The relaxed tier as a test on one row. */
  function RelaxedTest(dialogWidth: real): RowView -> bool
  {
    (row: RowView) => LooksLikeUserRowRelaxed(row, dialogWidth)
  }

  /** The rows of one selector scope that pass the strict tier. */
  function StrictRows(rows: seq<RowView>, dialogWidth: real): (r: seq<RowView>)
    ensures forall k :: 0 <= k < |r| ==> LooksLikeUserRow(r[k], dialogWidth) && r[k] in rows
    ensures r == [] <==> forall k :: 0 <= k < |rows| ==> !LooksLikeUserRow(rows[k], dialogWidth)
  {
    Keep(rows, StrictTest(dialogWidth))
  }

  /** The rows that pass the relaxed tier. */
  function RelaxedRows(rows: seq<RowView>, dialogWidth: real): (r: seq<RowView>)
    ensures forall k :: 0 <= k < |r| ==> LooksLikeUserRowRelaxed(r[k], dialogWidth) && r[k] in rows
    ensures r == [] <==> forall k :: 0 <= k < |rows| ==> !LooksLikeUserRowRelaxed(rows[k], dialogWidth)
  {
    Keep(rows, RelaxedTest(dialogWidth))
  }

  /** No row of a scope passes the strict tier. */
  predicate NoStrictRow(rows: seq<RowView>, dialogWidth: real)
  {
    forall k :: 0 <= k < |rows| ==> !LooksLikeUserRow(rows[k], dialogWidth)
  }

  /** The combined selector finds exactly the elements of the three scopes. */
  ghost predicate ScopeUnion(everything: seq<RowView>, listItems: seq<RowView>, secondary: seq<RowView>, divs: seq<RowView>)
  {
    forall x :: x in everything <==> x in listItems || x in secondary || x in divs
  }

  /**
   * `getRows`: the strict filter over list items, then over option/button
   * elements, then over every `div`; the first non-empty result wins. Only
   * when all three are empty is the relaxed filter applied to `everything`,
   * the result of the combined selector: the elements of the three scopes,
   * in document order.
   */
  function GetRows(listItems: seq<RowView>, secondary: seq<RowView>, divs: seq<RowView>,
                   everything: seq<RowView>, dialogWidth: real): (r: seq<RowView>)
    requires ScopeUnion(everything, listItems, secondary, divs)
    ensures forall k :: 0 <= k < |r| ==> r[k] in listItems || r[k] in secondary || r[k] in divs
    ensures (forall k :: 0 <= k < |r| ==> LooksLikeUserRow(r[k], dialogWidth))
         || (&& NoStrictRow(listItems, dialogWidth) && NoStrictRow(secondary, dialogWidth) && NoStrictRow(divs, dialogWidth)
             && forall k :: 0 <= k < |r| ==> LooksLikeUserRowRelaxed(r[k], dialogWidth))
    ensures !NoStrictRow(listItems, dialogWidth) ==> r == StrictRows(listItems, dialogWidth)
    ensures NoStrictRow(listItems, dialogWidth) && !NoStrictRow(secondary, dialogWidth) ==>
      r == StrictRows(secondary, dialogWidth)
    ensures NoStrictRow(listItems, dialogWidth) && NoStrictRow(secondary, dialogWidth) && !NoStrictRow(divs, dialogWidth) ==>
      r == StrictRows(divs, dialogWidth)
    ensures NoStrictRow(listItems, dialogWidth) && NoStrictRow(secondary, dialogWidth) && NoStrictRow(divs, dialogWidth) ==>
      r == RelaxedRows(everything, dialogWidth)
  {
    var first := StrictRows(listItems, dialogWidth);
    if first != [] then first
    else
      var second := StrictRows(secondary, dialogWidth);
      if second != [] then second
      else
        var third := StrictRows(divs, dialogWidth);
        if third != [] then third
        else RelaxedRows(everything, dialogWidth)
  }

  // ----------------------------------------------------------------- lemmas

  /**
   * A line is a counter line exactly when it is blank, or when deleting white
   * space, `,`, `.` and `，` leaves one to eight ASCII digits.
   */
  lemma CounterLineCharacterisation(line: String)
    ensures IsLikelyCounterLine(line) <==>
      AllSpace(line) ||
        var pure := Without(line, IsCounterSeparator);
        1 <= |pure| <= COUNTER_MAX_DIGITS && AllDigits(pure)
  {
    TrimEmptyIffBlank(line);
    WithoutIgnoresTrim(line, IsCounterSeparator);
  }

  /** Lines that are already trimmed and non-empty pass `.map(trim).filter(Boolean)` unchanged. */
  lemma {:induction false} TrimmedNonEmptyKeepsSolidLines(pieces: seq<String>)
    requires forall k :: 0 <= k < |pieces| ==> pieces[k] != [] && Trim(pieces[k]) == pieces[k]
    ensures TrimmedNonEmpty(pieces) == pieces
  {
    if pieces != [] {
      TrimmedNonEmptyKeepsSolidLines(pieces[1..]);
      assert [pieces[0]] + pieces[1..] == pieces;
    }
  }

  /** ASCII letters and digits survive the separator deletion. */
  lemma {:induction false} AlphanumericKept(s: String)
    requires forall i :: 0 <= i < |s| ==> IsHandleChar(s[i]) && s[i] != '.'
    ensures Without(s, IsCounterSeparator) == s
    decreases |s|
  {
    if s != [] {
      assert !IsCounterSeparator(s[0]);
      AlphanumericKept(s[1..]);
      assert [s[0]] + s[1..] == s;
    }
  }

  /** A count written with a thousands separator, such as `1,204`, is a counter line. */
  lemma GroupedCountIsCounterLine(high: String, low: String)
    requires high != [] && low != [] && AllDigits(high) && AllDigits(low)
    requires |high| + |low| <= COUNTER_MAX_DIGITS
    ensures IsLikelyCounterLine(high + [','] + low)
  {
    var line := high + [','] + low;
    CounterLineCharacterisation(line);
    GroupSeparatorDeleted(high, low);
    var pure := high + low;
    forall i | 0 <= i < |pure| ensures IsDigit(pure[i]) {
      if i < |high| { assert pure[i] == high[i]; } else { assert pure[i] == low[i - |high|]; }
    }
  }

  lemma GroupSeparatorDeleted(high: String, low: String)
    requires AllDigits(high) && AllDigits(low)
    ensures Without(high + [','] + low, IsCounterSeparator) == high + low
  {
    AlphanumericKept(high);
    AlphanumericKept(low);
    assert Without([','], IsCounterSeparator) == [] by {
      assert [','][1..] == [];
    }
    WithoutConcat(high + [','], low, IsCounterSeparator);
    WithoutConcat(high, [','], IsCounterSeparator);
  }

  /** A bare count of one to eight digits, such as `42`, is a counter line. */
  lemma ShortNumberIsCounterLine(s: String)
    requires AllDigits(s) && 1 <= |s| <= COUNTER_MAX_DIGITS
    ensures IsLikelyCounterLine(s)
  {
    CounterLineCharacterisation(s);
    AlphanumericKept(s);
  }

  /** A run of more than eight digits (a 9-digit number, or a user id) is not a counter line. */
  lemma LongNumberIsNotCounterLine(s: String)
    requires AllDigits(s) && |s| > COUNTER_MAX_DIGITS
    ensures !IsLikelyCounterLine(s)
  {
    CounterLineCharacterisation(s);
    AlphanumericKept(s);
  }

  /** A line holding any character other than digits and separators, such as a letter, is not a counter line. */
  lemma LineWithLetterIsNotCounterLine(line: String, i: nat)
    requires i < |line| && !IsDigit(line[i]) && !IsCounterSeparator(line[i])
    ensures !IsLikelyCounterLine(line)
  {
    CounterLineCharacterisation(line);
    var pure := Without(line, IsCounterSeparator);
    var n := |Without(line[..i], IsCounterSeparator)|;
    assert n < |pure| && pure[n] == line[i] by {
      WithoutKeepsAt(line, i, IsCounterSeparator);
    }
    assert !AllSpace(line) by {
      assert !IsSpace(line[i]);
    }
  }

  /** The lines of a two-line text whose lines are already trimmed and non-empty. */
  lemma TwoLineText(row: RowView, a: String, b: String)
    requires RowText(row) == a + ['\n'] + b
    requires '\n' !in a && '\n' !in b
    requires a != [] && Trim(a) == a && b != [] && Trim(b) == b
    ensures RowLines(row) == [a, b]
  {
    TwoLinesSplit(a, b);
    TwoSolidLinesKept(a, b);
  }

  lemma TwoLinesSplit(a: String, b: String)
    requires '\n' !in a && '\n' !in b
    ensures Split(a + ['\n'] + b, '\n') == [a, b]
  {
    SplitAtFirst(a, b, '\n');
    SplitWithout(b, '\n');
  }

  lemma TwoSolidLinesKept(a: String, b: String)
    requires a != [] && Trim(a) == a && b != [] && Trim(b) == b
    ensures TrimmedNonEmpty([a, b]) == [a, b]
  {
    var lines := [a, b];
    forall k | 0 <= k < |lines| ensures lines[k] != [] && Trim(lines[k]) == lines[k] {
      if k == 0 { assert lines[k] == a; } else { assert lines[k] == b; }
    }
    TrimmedNonEmptyKeepsSolidLines(lines);
  }

  lemma CounterLineIgnoresTrim(line: String)
    ensures IsLikelyCounterLine(Trim(line)) == IsLikelyCounterLine(line)
  {
    TrimIdempotent(line);
  }

  /** Lines that are all counter lines never pass the text checks, whatever the caps. */
  lemma CounterLinesAreRejected(row: RowView, lines: seq<String>, maxLines: nat, maxText: nat)
    requires forall k :: 0 <= k < |lines| ==> IsLikelyCounterLine(lines[k])
    ensures !LinesLookLikeUser(row, lines, maxLines, maxText)
  {
  }

  /** The lines of a text without line breaks: its trim, if that is not empty. */
  lemma SingleLineText(row: RowView)
    requires '\n' !in RowText(row)
    ensures RowLines(row) == if Trim(RowText(row)) == [] then [] else [Trim(RowText(row))]
  {
    SplitWithout(RowText(row), '\n');
  }

  /** The lines of a one-line counter text are all counter lines. */
  lemma SingleCounterLine(row: RowView)
    requires '\n' !in RowText(row)
    requires IsLikelyCounterLine(RowText(row))
    ensures forall k :: 0 <= k < |RowLines(row)| ==> IsLikelyCounterLine(RowLines(row)[k])
  {
    var text := RowText(row);
    SingleLineText(row);
    CounterLineIgnoresTrim(text);
    AllCounterLines(RowLines(row), Trim(text));
  }

  /** No line, or the one counter line, is a list of counter lines. */
  lemma AllCounterLines(lines: seq<String>, line: String)
    requires lines == [] || lines == [line]
    requires IsLikelyCounterLine(line)
    ensures forall k :: 0 <= k < |lines| ==> IsLikelyCounterLine(lines[k])
  {
  }

  /** A row whose whole text is one counter line is rejected by both tiers. */
  lemma CounterOnlyRowIsRejected(row: RowView, dialogWidth: real)
    requires '\n' !in RowText(row)
    requires IsLikelyCounterLine(RowText(row))
    ensures !LooksLikeUserRow(row, dialogWidth)
    ensures !LooksLikeUserRowRelaxed(row, dialogWidth)
  {
    SingleCounterLine(row);
    CounterLinesAreRejected(row, RowLines(row), STRICT_MAX_LINES, STRICT_MAX_TEXT);
    CounterLinesAreRejected(row, RowLines(row), RELAXED_MAX_LINES, RELAXED_MAX_TEXT);
  }

  /**
   * An emoji/count row of the left column (a line with no word-like character,
   * such as an emoji, above a count) is rejected by both tiers.
   */
  lemma SymbolAndCountAreCounterLines(symbol: String, count: String)
    requires !HasWordLikeChars(symbol) && IsLikelyCounterLine(count)
    ensures IsLikelyReactionCounterLines([symbol, count])
  {
    var lines := [symbol, count];
    assert IsLikelyCounterLine(lines[1]);
    forall k | 0 <= k < |lines| ensures IsLikelyCounterLine(lines[k]) || !HasWordLikeChars(lines[k]) {
      if k == 0 { assert lines[k] == symbol; } else { assert lines[k] == count; }
    }
  }

  lemma EmojiCountRowIsRejected(row: RowView, dialogWidth: real, symbol: String, count: String)
    requires RowText(row) == symbol + ['\n'] + count
    requires '\n' !in symbol && '\n' !in count
    requires symbol != [] && Trim(symbol) == symbol && count != [] && Trim(count) == count
    requires !HasWordLikeChars(symbol) && IsLikelyCounterLine(count)
    ensures !LooksLikeUserRow(row, dialogWidth)
    ensures !LooksLikeUserRowRelaxed(row, dialogWidth)
  {
    TwoLineText(row, symbol, count);
    SymbolAndCountAreCounterLines(symbol, count);
  }

  lemma NameAndHandleAreNotCounters(name: String, handle: String)
    requires HasWordLikeChars(name) && !IsLikelyCounterLine(name)
    ensures !(forall k :: 0 <= k < 2 ==> IsLikelyCounterLine([name, handle][k]))
    ensures !IsLikelyReactionCounterLines([name, handle])
  {
    var lines := [name, handle];
    assert !IsLikelyCounterLine(lines[0]);
  }

  lemma HandleIsIdentity(row: RowView, name: String, handle: String)
    requires HasHandleAt(handle, 0)
    ensures HasUserIdentityLike(row, [name, handle])
  {
    var lines := [name, handle];
    assert HasHandle(lines[1]);
  }

  lemma TwoLinesJoined(name: String, handle: String)
    requires Utf16Length(name) + Utf16Length(handle) < STRICT_MAX_TEXT
    ensures Join([name, handle], " ") != []
    ensures Utf16Length(Join([name, handle], " ")) <= STRICT_MAX_TEXT
  {
    var j := Join([name, handle], " ");
    JoinTwo(name, handle, " ");
    assert Utf16Length(" ") == 1 by {
      assert " "[1..] == [];
    }
    assert j == name + (" " + handle);
    calc {
      Utf16Length(j);
      { Utf16LengthConcat(name, " " + handle); }
      Utf16Length(name) + Utf16Length(" " + handle);
      { Utf16LengthConcat(" ", handle); }
      Utf16Length(name) + 1 + Utf16Length(handle);
    }
  }

  lemma NameAndHandleLookLikeUser(row: RowView, name: String, handle: String)
    requires name != [] && HasWordLikeChars(name) && !IsLikelyCounterLine(name)
    requires HasHandleAt(handle, 0)
    requires Utf16Length(name) + Utf16Length(handle) < STRICT_MAX_TEXT
    ensures LinesLookLikeUser(row, [name, handle], STRICT_MAX_LINES, STRICT_MAX_TEXT)
  {
    NameAndHandleAreNotCounters(name, handle);
    HandleIsIdentity(row, name, handle);
    TwoLinesJoined(name, handle);
  }

  /**
   * A laid-out row of ordinary size and width showing a display name (a
   * non-counter line with a word-like character) above an `@handle` passes
   * the strict tier, with or without an avatar.
   */
  lemma NameAndHandleRowIsUserRow(row: RowView, dialogWidth: real, name: String, handle: String)
    requires RowText(row) == name + ['\n'] + handle
    requires '\n' !in name && '\n' !in handle
    requires name != [] && Trim(name) == name && Trim(handle) == handle
    requires HasWordLikeChars(name) && !IsLikelyCounterLine(name)
    requires HasHandleAt(handle, 0)
    requires Utf16Length(name) + Utf16Length(handle) < STRICT_MAX_TEXT
    requires row.laidOut && 24.0 <= row.height <= 160.0 && row.width >= MaxReal(96.0, dialogWidth * 0.18)
    ensures LooksLikeUserRow(row, dialogWidth)
  {
    TwoLineText(row, name, handle);
    NameAndHandleLookLikeUser(row, name, handle);
  }

  /** Filtering a concatenation filters each part: the filter neither drops nor reorders across a split. */
  lemma {:induction false} KeepConcat(a: seq<RowView>, b: seq<RowView>, accept: RowView -> bool)
    ensures Keep(a + b, accept) == Keep(a, accept) + Keep(b, accept)
    decreases |a|
  {
    if a == [] {
      assert a + b == b;
    } else {
      assert (a + b)[1..] == a[1..] + b;
      KeepConcat(a[1..], b, accept);
    }
  }

  /**
   * Every accepted row is kept, at the position given by the number of
   * accepted rows before it.
   */
  lemma KeepPlacesEachAccepted(rows: seq<RowView>, accept: RowView -> bool, k: nat)
    requires k < |rows| && accept(rows[k])
    ensures |Keep(rows[..k], accept)| < |Keep(rows, accept)|
    ensures Keep(rows, accept)[|Keep(rows[..k], accept)|] == rows[k]
  {
    assert rows == rows[..k] + ([rows[k]] + rows[k + 1..]);
    KeepConcat(rows[..k], [rows[k]] + rows[k + 1..], accept);
    KeepConcat([rows[k]], rows[k + 1..], accept);
    assert [rows[k]][1..] == [];
  }

  /** Accepted rows keep their input order: an earlier accepted row lands at an earlier position. */
  lemma KeepKeepsOrder(rows: seq<RowView>, accept: RowView -> bool, i: nat, j: nat)
    requires i < j <= |rows| && accept(rows[i])
    ensures |Keep(rows[..i], accept)| < |Keep(rows[..j], accept)|
  {
    assert rows[..j] == rows[..i] + ([rows[i]] + rows[i + 1..j]);
    KeepConcat(rows[..i], [rows[i]] + rows[i + 1..j], accept);
    KeepConcat([rows[i]], rows[i + 1..j], accept);
    assert [rows[i]][1..] == [];
  }

  /** The strict tier keeps every row that passes it, in input order. */
  lemma StrictRowsKeepEveryPassingRow(rows: seq<RowView>, dialogWidth: real, i: nat, j: nat)
    requires i < j < |rows| && LooksLikeUserRow(rows[i], dialogWidth) && LooksLikeUserRow(rows[j], dialogWidth)
    ensures var p, q := |StrictRows(rows[..i], dialogWidth)|, |StrictRows(rows[..j], dialogWidth)|;
      p < q < |StrictRows(rows, dialogWidth)|
      && StrictRows(rows, dialogWidth)[p] == rows[i] && StrictRows(rows, dialogWidth)[q] == rows[j]
  {
    KeepPlacesEachAccepted(rows, StrictTest(dialogWidth), i);
    KeepPlacesEachAccepted(rows, StrictTest(dialogWidth), j);
    KeepKeepsOrder(rows, StrictTest(dialogWidth), i, j);
  }

  /** The relaxed tier keeps every row that passes it, in input order. */
  lemma RelaxedRowsKeepEveryPassingRow(rows: seq<RowView>, dialogWidth: real, i: nat, j: nat)
    requires i < j < |rows| && LooksLikeUserRowRelaxed(rows[i], dialogWidth) && LooksLikeUserRowRelaxed(rows[j], dialogWidth)
    ensures var p, q := |RelaxedRows(rows[..i], dialogWidth)|, |RelaxedRows(rows[..j], dialogWidth)|;
      p < q < |RelaxedRows(rows, dialogWidth)|
      && RelaxedRows(rows, dialogWidth)[p] == rows[i] && RelaxedRows(rows, dialogWidth)[q] == rows[j]
  {
    KeepPlacesEachAccepted(rows, RelaxedTest(dialogWidth), i);
    KeepPlacesEachAccepted(rows, RelaxedTest(dialogWidth), j);
    KeepKeepsOrder(rows, RelaxedTest(dialogWidth), i, j);
  }

  /**
   * In the relaxed tier of `getRows`, every row of any of the three scopes
   * that passes the relaxed test is returned.
   */
  lemma RelaxedTierCoversEveryScope(listItems: seq<RowView>, secondary: seq<RowView>, divs: seq<RowView>,
                                    everything: seq<RowView>, dialogWidth: real, x: RowView)
    requires ScopeUnion(everything, listItems, secondary, divs)
    requires NoStrictRow(listItems, dialogWidth) && NoStrictRow(secondary, dialogWidth) && NoStrictRow(divs, dialogWidth)
    requires (x in listItems || x in secondary || x in divs) && LooksLikeUserRowRelaxed(x, dialogWidth)
    ensures x in GetRows(listItems, secondary, divs, everything, dialogWidth)
  {
    assert x in everything;
    RelaxedRowsHoldEveryPassingRow(everything, dialogWidth, x);
  }

  /** Every row of the list that passes the relaxed tier is among the relaxed rows. */
  lemma RelaxedRowsHoldEveryPassingRow(rows: seq<RowView>, dialogWidth: real, x: RowView)
    requires x in rows && LooksLikeUserRowRelaxed(x, dialogWidth)
    ensures x in RelaxedRows(rows, dialogWidth)
  {
    var k :| 0 <= k < |rows| && rows[k] == x;
    KeepPlacesEachAccepted(rows, RelaxedTest(dialogWidth), k);
  }

  /** Every row the strict tier accepts, the relaxed tier accepts too, unless it sits in the script's own controls. */
  lemma StrictRowPassesRelaxedTier(row: RowView, dialogWidth: real)
    requires LooksLikeUserRow(row, dialogWidth)
    requires !row.insideControls
    ensures LooksLikeUserRowRelaxed(row, dialogWidth)
  {
    LooserCapsAcceptMore(row, RowLines(row), STRICT_MAX_LINES, STRICT_MAX_TEXT, RELAXED_MAX_LINES, RELAXED_MAX_TEXT);
    assert row.width >= MaxReal(72.0, dialogWidth * 0.1);
  }

  lemma LooserCapsAcceptMore(row: RowView, lines: seq<String>, maxLines: nat, maxText: nat, maxLines': nat, maxText': nat)
    requires maxLines <= maxLines' && maxText <= maxText'
    requires LinesLookLikeUser(row, lines, maxLines, maxText)
    ensures LinesLookLikeUser(row, lines, maxLines', maxText')
  {
  }
}
