/**
 * Text normalisation shared by the row classifier, the entry extractor and the
 * match engine: JavaScript's `\s` and `trim`, the white-space collapse and
 * lower-casing of `normalize`, the zero-width stripping of `normalizeForMatch`,
 * the compaction of `compactIdentityToken`, and the string helpers the rest of
 * the model needs (`split`, `join`, `includes`, UTF-16 `length`, decimal
 * rendering of a count).
 *
 * Unicode NFKC normalisation is the identity here and lower-casing only
 * touches ASCII letters; both are exact for ASCII text.
 */
module Text {

  type String = seq<char>

  // ------------------------------------------------------------ characters

  /** ECMAScript `\s`, which is also the set `trim` strips: WhiteSpace plus LineTerminator. */
  predicate IsSpace(c: char)
  {
    c == '\t' || c == '\n' || c == '\U{B}' || c == '\U{C}' || c == '\r' || c == ' '
    || c == '\U{A0}' || c == '\U{1680}' || ('\U{2000}' <= c <= '\U{200A}')
    || c == '\U{2028}' || c == '\U{2029}' || c == '\U{202F}' || c == '\U{205F}'
    || c == '\U{3000}' || c == '\U{FEFF}'
  }

  /** The class U+200B to U+200D plus U+FEFF, deleted by `normalizeForMatch`. */
  predicate IsZeroWidth(c: char)
  {
    ('\U{200B}' <= c <= '\U{200D}') || c == '\U{FEFF}'
  }

  predicate IsAsciiUpper(c: char) { 'A' <= c <= 'Z' }

  /** `\d`: an ASCII digit. */
  predicate IsDigit(c: char) { '0' <= c <= '9' }

  function LowerChar(c: char): (d: char)
    ensures !IsAsciiUpper(d)
    ensures !IsAsciiUpper(c) ==> d == c
    ensures IsAsciiUpper(c) ==> 'a' <= d <= 'z'
  {
    if IsAsciiUpper(c) then (c as int + 32) as char else c
  }

  /** Lower-casing an ASCII letter neither creates nor removes white space or zero-width characters. */
  lemma LowerCharKeepsClasses(c: char)
    ensures IsSpace(LowerChar(c)) == IsSpace(c) && IsZeroWidth(LowerChar(c)) == IsZeroWidth(c)
  {
  }

  function UpperChar(c: char): (d: char)
    ensures LowerChar(d) == LowerChar(c)
  {
    if 'a' <= c <= 'z' then (c as int - 32) as char else c
  }

  /** `toLowerCase`, restricted to ASCII letters. */
  function Lower(s: String): (r: String)
    ensures |r| == |s|
  {
    seq(|s|, i requires 0 <= i < |s| => LowerChar(s[i]))
  }

  /** `toUpperCase`, restricted to ASCII letters (used only to state case-insensitivity). */
  function Upper(s: String): (r: String)
    ensures |r| == |s|
  {
    seq(|s|, i requires 0 <= i < |s| => UpperChar(s[i]))
  }

  /** `s.replace(/[…]/g, '')` for a character class `drop`. */
  function Without(s: String, drop: char -> bool): (r: String)
    ensures |r| <= |s|
  {
    if s == [] then []
    else (if drop(s[0]) then [] else [s[0]]) + Without(s[1..], drop)
  }

  /** A kept character stays in place between what survives before it and what survives after it. */
  lemma WithoutKeepsAt(s: String, i: nat, drop: char -> bool)
    requires i < |s| && !drop(s[i])
    ensures Without(s, drop) == Without(s[..i], drop) + [s[i]] + Without(s[i + 1..], drop)
  {
    assert s == s[..i] + [s[i]] + s[i + 1..];
    WithoutKeepsMiddle(s[..i], s[i], s[i + 1..], drop);
  }

  lemma WithoutKeepsMiddle(a: String, c: char, b: String, drop: char -> bool)
    requires !drop(c)
    ensures Without(a + [c] + b, drop) == Without(a, drop) + [c] + Without(b, drop)
  {
    WithoutConcat(a + [c], b, drop);
    WithoutConcat(a, [c], drop);
    WithoutKeepsSingle(c, drop);
  }

  lemma WithoutKeepsSingle(c: char, drop: char -> bool)
    requires !drop(c)
    ensures Without([c], drop) == [c]
  {
    assert [c][1..] == [];
  }

  /** When nothing in `s` is in the class, `Without` returns `s` itself. */
  lemma {:induction false} WithoutNothingDropped(s: String, drop: char -> bool)
    requires forall i :: 0 <= i < |s| ==> !drop(s[i])
    ensures Without(s, drop) == s
    decreases |s|
  {
    if s != [] {
      WithoutNothingDropped(s[1..], drop);
      assert [s[0]] + s[1..] == s;
    }
  }

  /** What survives `Without` is never dropped, and keeps every class the input's characters share. */
  lemma {:induction false} WithoutKeeps(s: String, drop: char -> bool, keep: char -> bool)
    requires forall i :: 0 <= i < |s| ==> keep(s[i])
    ensures forall i :: 0 <= i < |Without(s, drop)| ==> !drop(Without(s, drop)[i]) && keep(Without(s, drop)[i])
    decreases |s|
  {
    if s != [] {
      WithoutKeeps(s[1..], drop, keep);
    }
  }

  // ------------------------------------------------------- shape predicates

  ghost predicate OnlyPlainSpaces(s: String)
  {
    forall i :: 0 <= i < |s| && IsSpace(s[i]) ==> s[i] == ' '
  }

  ghost predicate NoDoubleSpace(s: String)
  {
    forall i, j :: 0 <= i && j == i + 1 && j < |s| ==> s[i] != ' ' || s[j] != ' '
  }

  ghost predicate Trimmed(s: String)
  {
    s == [] || (!IsSpace(s[0]) && !IsSpace(s[|s| - 1]))
  }

  ghost predicate NoAsciiUpper(s: String)
  {
    forall i :: 0 <= i < |s| ==> !IsAsciiUpper(s[i])
  }

  ghost predicate NoZeroWidth(s: String)
  {
    forall i :: 0 <= i < |s| ==> !IsZeroWidth(s[i])
  }

  ghost predicate AllSpace(s: String)
  {
    forall i :: 0 <= i < |s| ==> IsSpace(s[i])
  }

  /** What `normalize` produces: single plain spaces only between words, no upper case. */
  ghost predicate IsNormalized(s: String)
  {
    OnlyPlainSpaces(s) && NoDoubleSpace(s) && Trimmed(s) && NoAsciiUpper(s)
  }

  // ------------------------------------------------------------- trimming

  /** `trimStart`. */
  function TrimStart(s: String): (r: String)
    ensures |r| <= |s| && r == s[|s| - |r|..]
    ensures r == [] || !IsSpace(r[0])
  {
    if s != [] && IsSpace(s[0]) then TrimStart(s[1..]) else s
  }

  /** What `trimStart` removes is white space. */
  lemma {:induction false} TrimStartDropsSpaces(s: String)
    ensures forall i :: 0 <= i < |s| - |TrimStart(s)| ==> IsSpace(s[i])
    decreases |s|
  {
    if s != [] && IsSpace(s[0]) {
      TrimStartDropsSpaces(s[1..]);
    }
  }

  /** `trimEnd`. */
  function TrimEnd(s: String): (r: String)
    ensures |r| <= |s| && r == s[..|r|]
    ensures r == [] || !IsSpace(r[|r| - 1])
  {
    if s != [] && IsSpace(s[|s| - 1]) then TrimEnd(s[..|s| - 1]) else s
  }

  /** What `trimEnd` removes is white space. */
  lemma {:induction false} TrimEndDropsSpaces(s: String)
    ensures forall i :: |TrimEnd(s)| <= i < |s| ==> IsSpace(s[i])
    decreases |s|
  {
    if s != [] && IsSpace(s[|s| - 1]) {
      TrimEndDropsSpaces(s[..|s| - 1]);
    }
  }

  /** `String.prototype.trim`. */
  function Trim(s: String): (r: String)
    ensures |r| <= |s| && Trimmed(r)
  {
    TrimEnd(TrimStart(s))
  }

  /** `trim` gives the empty string exactly for a blank input. */
  lemma TrimEmptyIffBlank(s: String)
    ensures Trim(s) == [] <==> AllSpace(s)
  {
    TrimStartDropsSpaces(s);
    TrimEndDropsSpaces(TrimStart(s));
    var t := TrimStart(s);
    assert t != [] ==> s[|s| - |t|] == t[0];
  }

  /** Trimming cuts a slice out of the string, so it keeps single plain spaces single and plain. */
  lemma TrimKeepsShape(s: String)
    requires OnlyPlainSpaces(s) && NoDoubleSpace(s)
    ensures OnlyPlainSpaces(Trim(s)) && NoDoubleSpace(Trim(s))
  {
    var t := TrimStart(s);
    var r := TrimEnd(t);
    var a := |s| - |t|;
    assert r == s[a..a + |r|];
    SliceKeepsShape(s, a, a + |r|);
  }

  /** A slice of a string whose spaces are single and plain has single, plain spaces. */
  lemma SliceKeepsShape(s: String, a: nat, b: nat)
    requires a <= b <= |s|
    requires OnlyPlainSpaces(s) && NoDoubleSpace(s)
    ensures OnlyPlainSpaces(s[a..b]) && NoDoubleSpace(s[a..b])
  {
    var r := s[a..b];
    forall i | 0 <= i < |r| ensures IsSpace(r[i]) ==> r[i] == ' ' {
      assert r[i] == s[a + i];
    }
    forall i, j | 0 <= i && j == i + 1 && j < |r| ensures r[i] != ' ' || r[j] != ' ' {
      assert r[i] == s[a + i] && r[j] == s[a + j];
    }
  }

  // ---------------------------------------------------------- normalisation

  /** `s.replace(/\s+/g, ' ')`: each maximal run of white space becomes one space. */
  function CollapseSpaces(s: String): (r: String)
    ensures |r| <= |s| && (r == [] <==> s == [])
    decreases |s|
  {
    if s == [] then []
    else if IsSpace(s[0]) then
      [' '] + CollapseSpaces(TrimStart(s[1..]))
    else
      [s[0]] + CollapseSpaces(s[1..])
  }

  /** After collapsing, the only white space left is single plain spaces. */
  lemma {:induction false} CollapseSpacesShape(s: String)
    ensures OnlyPlainSpaces(CollapseSpaces(s)) && NoDoubleSpace(CollapseSpaces(s))
    decreases |s|
  {
    if s != [] {
      var rest := if IsSpace(s[0]) then TrimStart(s[1..]) else s[1..];
      CollapseSpacesShape(rest);
      var c := CollapseSpaces(rest);
      var r := CollapseSpaces(s);
      assert r == [if IsSpace(s[0]) then ' ' else s[0]] + c;
      forall i | 0 <= i < |r| ensures IsSpace(r[i]) ==> r[i] == ' ' {
        if i > 0 { assert r[i] == c[i - 1]; }
      }
      forall i, j | 0 <= i && j == i + 1 && j < |r| ensures r[i] != ' ' || r[j] != ' ' {
        if i > 0 {
          assert r[i] == c[i - 1] && r[j] == c[j - 1];
        } else {
          assert r[j] == c[0];
        }
      }
    }
  }

  /** `normalize`: collapse white space, trim, lower-case. */
  function Normalize(s: String): (r: String)
    ensures |r| <= |s|
  {
    Lower(Trim(CollapseSpaces(s)))
  }

  /** What `normalize` returns has single plain spaces only between words and no upper case. */
  lemma NormalizeIsNormalized(s: String)
    ensures IsNormalized(Normalize(s))
  {
    var c := CollapseSpaces(s);
    CollapseSpacesShape(s);
    TrimKeepsShape(c);
    LowerKeepsShape(Trim(c));
  }

  /** `normalize` gives the empty string exactly for a blank input. */
  lemma NormalizeEmptyIffBlank(s: String)
    ensures Normalize(s) == [] <==> AllSpace(s)
  {
    var c := CollapseSpaces(s);
    CollapseKeepsBlankness(s);
    TrimEmptyIffBlank(c);
  }

  lemma {:induction false} CollapseKeepsBlankness(s: String)
    ensures AllSpace(CollapseSpaces(s)) <==> AllSpace(s)
    decreases |s|
  {
    if s != [] {
      if IsSpace(s[0]) {
        var u := s[1..];
        var t := TrimStart(u);
        CollapseKeepsBlankness(t);
        TrimStartDropsSpaces(u);
        if t != [] {
          assert u[|u| - |t|] == t[0];
          assert s[1 + |u| - |t|] == t[0];
          assert !AllSpace(s);
          var c := CollapseSpaces(s);
          assert c == [' '] + CollapseSpaces(t);
          assert CollapseSpaces(t)[0] == t[0];
          assert c[1] == t[0];
          assert !AllSpace(c);
        } else {
          assert forall i :: 0 <= i < |u| ==> IsSpace(u[i]);
          assert forall i :: 1 <= i < |s| ==> s[i] == u[i - 1];
          assert AllSpace(s);
        }
      } else {
        assert !AllSpace(s);
        assert !AllSpace(CollapseSpaces(s));
      }
    }
  }

  lemma LowerKeepsShape(t: String)
    requires OnlyPlainSpaces(t) && NoDoubleSpace(t) && Trimmed(t)
    ensures IsNormalized(Lower(t))
  {
    var r := Lower(t);
    forall i, j | 0 <= i && j == i + 1 && j < |r|
      ensures r[i] != ' ' || r[j] != ' '
    {
      assert r[i] == LowerChar(t[i]) && r[j] == LowerChar(t[j]);
    }
  }

  /** Normalising twice changes nothing: `normalize` is idempotent. */
  lemma NormalizeIdempotent(s: String)
    ensures Normalize(Normalize(s)) == Normalize(s)
  {
    NormalizeIsNormalized(s);
    NormalizedIsFixpoint(Normalize(s));
  }

  lemma NormalizedIsFixpoint(t: String)
    requires IsNormalized(t)
    ensures Normalize(t) == t
  {
    CollapseFixpoint(t);
    assert TrimStart(t) == t;
    assert TrimEnd(t) == t;
    assert Lower(t) == t;
  }

  lemma {:induction false} CollapseFixpoint(t: String)
    requires OnlyPlainSpaces(t) && NoDoubleSpace(t)
    ensures CollapseSpaces(t) == t
    decreases |t|
  {
    if t != [] {
      var u := t[1..];
      forall i | 0 <= i < |u| ensures IsSpace(u[i]) ==> u[i] == ' ' {
        assert u[i] == t[i + 1];
      }
      forall i, j | 0 <= i && j == i + 1 && j < |u| ensures u[i] != ' ' || u[j] != ' ' {
        assert u[i] == t[i + 1] && u[j] == t[j + 1];
      }
      CollapseFixpoint(u);
      if IsSpace(t[0]) {
        if u != [] {
          assert t[1] == u[0];
          assert !IsSpace(u[0]);
        }
        assert TrimStart(u) == u;
      }
    }
  }

  /** `normalize` only sees a string through its lower-case form. */
  lemma NormalizeIgnoresCase(s: String, t: String)
    requires Lower(s) == Lower(t)
    ensures Normalize(s) == Normalize(t)
  {
    NormalizeViaLower(s);
    NormalizeViaLower(t);
  }

  /** Case-insensitivity of `normalizeForMatch` for ASCII letters. */
  lemma NormalizeForMatchIgnoresCase(s: String)
    ensures NormalizeForMatch(Upper(s)) == NormalizeForMatch(s)
  {
    assert Lower(Upper(s)) == Lower(s);
    NormalizeIgnoresCase(Upper(s), s);
  }

  lemma NormalizeViaLower(s: String)
    ensures Normalize(s) == Trim(CollapseSpaces(Lower(s)))
  {
    var c := CollapseSpaces(s);
    CollapseCommutesWithLower(s);
    TrimStartCommutesWithLower(c);
    TrimEndCommutesWithLower(TrimStart(c));
  }

  lemma {:induction false} CollapseCommutesWithLower(s: String)
    ensures CollapseSpaces(Lower(s)) == Lower(CollapseSpaces(s))
    decreases |s|, 1
  {
    if s != [] {
      if IsSpace(s[0]) {
        CollapseCommutesAtSpace(s);
      } else {
        CollapseCommutesAtWord(s);
      }
    }
  }

  lemma {:induction false} CollapseCommutesAtSpace(s: String)
    requires s != [] && IsSpace(s[0])
    ensures CollapseSpaces(Lower(s)) == Lower(CollapseSpaces(s))
    decreases |s|, 0
  {
    var t := TrimStart(s[1..]);
    LowerStartsWithSpace(s);
    CollapseCommutesWithLower(t);
    LowerConcat([' '], CollapseSpaces(t));
    LowerOfSpace();
  }

  /** Lowering keeps a leading space, and trimming the rest commutes with lowering. */
  lemma LowerStartsWithSpace(s: String)
    requires s != [] && IsSpace(s[0])
    ensures CollapseSpaces(Lower(s)) == [' '] + CollapseSpaces(Lower(TrimStart(s[1..])))
  {
    var l := Lower(s);
    assert TrimStart(l[1..]) == Lower(TrimStart(s[1..])) by {
      assert l[1..] == Lower(s[1..]);
      TrimStartCommutesWithLower(s[1..]);
    }
    LowerCharKeepsClasses(s[0]);
    assert IsSpace(l[0]);
  }

  lemma LowerOfSpace()
    ensures Lower([' ']) == [' ']
  {
    assert !IsAsciiUpper(' ');
    assert Lower([' '])[0] == ' ';
  }

  lemma {:induction false} CollapseCommutesAtWord(s: String)
    requires s != [] && !IsSpace(s[0])
    ensures CollapseSpaces(Lower(s)) == Lower(CollapseSpaces(s))
    decreases |s|, 0
  {
    var l := Lower(s);
    assert l[1..] == Lower(s[1..]);
    LowerCharKeepsClasses(s[0]);
    CollapseCommutesWithLower(s[1..]);
    LowerConcat([s[0]], CollapseSpaces(s[1..]));
    calc {
      CollapseSpaces(l);
      [LowerChar(s[0])] + CollapseSpaces(l[1..]);
      [LowerChar(s[0])] + Lower(CollapseSpaces(s[1..]));
      Lower([s[0]] + CollapseSpaces(s[1..]));
    }
  }

  lemma LowerConcat(a: String, b: String)
    ensures Lower(a + b) == Lower(a) + Lower(b)
  {
  }

  lemma {:induction false} TrimStartCommutesWithLower(s: String)
    ensures TrimStart(Lower(s)) == Lower(TrimStart(s))
    decreases |s|
  {
    if s != [] {
      assert Lower(s)[0] == LowerChar(s[0]);
      assert Lower(s)[1..] == Lower(s[1..]);
      LowerCharKeepsClasses(s[0]);
      if IsSpace(s[0]) {
        TrimStartCommutesWithLower(s[1..]);
      }
    }
  }

  lemma {:induction false} TrimEndCommutesWithLower(s: String)
    ensures TrimEnd(Lower(s)) == Lower(TrimEnd(s))
    decreases |s|
  {
    if s != [] {
      var n := |s| - 1;
      assert Lower(s)[n] == LowerChar(s[n]);
      assert Lower(s)[..n] == Lower(s[..n]);
      LowerCharKeepsClasses(s[n]);
      if IsSpace(s[n]) {
        TrimEndCommutesWithLower(s[..n]);
      }
    }
  }

  /** `normalizeForMatch`: `normalize`, then delete zero-width characters. */
  function NormalizeForMatch(s: String): (r: String)
    ensures |r| <= |s|
  {
    Without(Normalize(s), IsZeroWidth)
  }

  /** What `normalizeForMatch` returns has no zero-width character, no upper case and only plain spaces. */
  lemma NormalizeForMatchShape(s: String)
    ensures var r := NormalizeForMatch(s);
      NoZeroWidth(r) && NoAsciiUpper(r) && OnlyPlainSpaces(r)
  {
    NormalizeIsNormalized(s);
    WithoutKeeps(Normalize(s), IsZeroWidth, c => !IsAsciiUpper(c) && (IsSpace(c) ==> c == ' '));
  }

  /** A blank input normalises to the empty string. */
  lemma NormalizeForMatchOfBlank(s: String)
    requires AllSpace(s)
    ensures NormalizeForMatch(s) == []
  {
    NormalizeEmptyIffBlank(s);
  }

  /** `s.replace(/^@+/, '')`. */
  function StripLeadingAts(s: String): (r: String)
    ensures |r| <= |s|
  {
    if s != [] && s[0] == '@' then StripLeadingAts(s[1..]) else s
  }

  /** What is left is a suffix that does not start with `@`, and what was cut is all `@`. */
  lemma {:induction false} StripLeadingAtsShape(s: String)
    ensures var r := StripLeadingAts(s);
      && r == s[|s| - |r|..]
      && (r == [] || r[0] != '@')
      && forall i :: 0 <= i < |s| - |r| ==> s[i] == '@'
  {
    if s != [] && s[0] == '@' {
      StripLeadingAtsShape(s[1..]);
    }
  }

  /** The class `[._\-\s]` removed by `compactIdentityToken`. */
  predicate IsIdentitySeparator(c: char)
  {
    c == '.' || c == '_' || c == '-' || IsSpace(c)
  }

  /** `compactIdentityToken`: normalise for matching, drop leading `@`s, drop separators. */
  function CompactIdentityToken(s: String): (r: String)
    ensures |r| <= |s|
  {
    Without(StripLeadingAts(NormalizeForMatch(s)), IsIdentitySeparator)
  }

  /** The compact token holds no `.`, `_`, `-` or white space. */
  lemma CompactIdentityTokenHasNoSeparator(s: String)
    ensures var r := CompactIdentityToken(s);
      forall i :: 0 <= i < |r| ==> !IsIdentitySeparator(r[i])
  {
    WithoutKeeps(StripLeadingAts(NormalizeForMatch(s)), IsIdentitySeparator, c => true);
  }

  /** A string of ASCII digits is its own normalised, `@`-stripped and compact form. */
  lemma DigitsAreFixed(s: String)
    requires forall i :: 0 <= i < |s| ==> IsDigit(s[i])
    ensures NormalizeForMatch(s) == s && StripLeadingAts(s) == s && CompactIdentityToken(s) == s
  {
    DigitsNormalizeToThemselves(s);
    DigitsKeepTheirStart(s);
    DigitsAreCompact(s);
  }

  lemma DigitsKeepTheirStart(s: String)
    requires forall i :: 0 <= i < |s| ==> IsDigit(s[i])
    ensures StripLeadingAts(s) == s
  {
    if s != [] {
      assert IsDigit(s[0]);
    }
  }

  lemma DigitsAreCompact(s: String)
    requires forall i :: 0 <= i < |s| ==> IsDigit(s[i])
    ensures CompactIdentityToken(s) == s
  {
    DigitsNormalizeToThemselves(s);
    DigitsKeepTheirStart(s);
    DigitsHaveNoSeparator(s);
  }

  lemma DigitsNormalizeToThemselves(s: String)
    requires forall i :: 0 <= i < |s| ==> IsDigit(s[i])
    ensures NormalizeForMatch(s) == s
  {
    DigitsAreNormalized(s);
    NormalizedIsFixpoint(s);
    WithoutNothingDropped(s, IsZeroWidth);
  }

  lemma DigitsHaveNoSeparator(s: String)
    requires forall i :: 0 <= i < |s| ==> IsDigit(s[i])
    ensures Without(s, IsIdentitySeparator) == s
  {
    WithoutNothingDropped(s, IsIdentitySeparator);
  }

  lemma DigitsAreNormalized(s: String)
    requires forall i :: 0 <= i < |s| ==> IsDigit(s[i])
    ensures IsNormalized(s)
  {
    forall i | 0 <= i < |s| ensures !IsSpace(s[i]) && !IsAsciiUpper(s[i]) {
      assert IsDigit(s[i]);
    }
  }

  // --------------------------------------------------------------- helpers

  /** `s.split(d)`: the pieces between the occurrences of `d`. */
  function Split(s: String, d: char): (r: seq<String>)
    ensures |r| >= 1
  {
    if s == [] then [[]]
    else
      var rest := Split(s[1..], d);
      if s[0] == d then [[]] + rest
      else [[s[0]] + rest[0]] + rest[1..]
  }

  /** `parts.join(sep)`. */
  function Join(parts: seq<String>, sep: String): String
  {
    if |parts| == 0 then []
    else if |parts| == 1 then parts[0]
    else parts[0] + sep + Join(parts[1..], sep)
  }

  /** `hay.includes(needle)`. */
  predicate Contains(hay: String, needle: String)
  {
    exists i :: 0 <= i <= |hay| - |needle| && OccursAt(hay, needle, i)
  }

  predicate OccursAt(hay: String, needle: String, i: nat)
  {
    i + |needle| <= |hay| && hay[i..i + |needle|] == needle
  }

  /** `s.length`: UTF-16 code units, two for a character outside the Basic Multilingual Plane. */
  function Utf16Length(s: String): (n: nat)
    ensures |s| <= n <= 2 * |s|
  {
    if s == [] then 0 else (if s[0] as int > 0xFFFF then 2 else 1) + Utf16Length(s[1..])
  }

  function DigitChar(d: nat): (c: char)
    requires d < 10
    ensures IsDigit(c)
  {
    ('0' as int + d) as char
  }

  /** `${n}` for a natural number: its decimal digits, most significant first. */
  function Decimal(n: nat): (r: String)
    ensures r != [] && forall i :: 0 <= i < |r| ==> IsDigit(r[i])
  {
    if n < 10 then [DigitChar(n)] else Decimal(n / 10) + [DigitChar(n % 10)]
  }

  /** The number a string of decimal digits denotes. */
  function DecimalValue(s: String): nat
    requires forall i :: 0 <= i < |s| ==> IsDigit(s[i])
  {
    if s == [] then 0 else 10 * DecimalValue(s[..|s| - 1]) + DigitValue(s[|s| - 1])
  }

  function DigitValue(c: char): (d: nat)
    requires IsDigit(c)
    ensures d < 10
  {
    c as int - '0' as int
  }

  /** Splitting on `d` and joining with `d` gives the string back. */
  lemma {:induction false} JoinSplit(s: String, d: char)
    ensures Join(Split(s, d), [d]) == s
    decreases |s|
  {
    if s != [] {
      var rest := Split(s[1..], d);
      JoinSplit(s[1..], d);
      if s[0] == d {
        assert Split(s, d) == [[]] + rest;
        assert ([[]] + rest)[1..] == rest;
      } else if |rest| == 1 {
        assert Split(s, d) == [[s[0]] + rest[0]];
      } else {
        var parts := [[s[0]] + rest[0]] + rest[1..];
        assert parts[1..] == rest[1..];
        calc {
          Join(parts, [d]);
          [s[0]] + rest[0] + [d] + Join(rest[1..], [d]);
          [s[0]] + Join(rest, [d]);
        }
      }
    }
  }

  /** Reading back the digits of `${n}` gives `n`. */
  lemma {:induction false} DecimalRoundTrip(n: nat)
    ensures DecimalValue(Decimal(n)) == n
  {
    if n >= 10 {
      DecimalRoundTrip(n / 10);
      var r := Decimal(n);
      assert r[..|r| - 1] == Decimal(n / 10);
    }
  }

  lemma {:induction false} WithoutConcat(a: String, b: String, drop: char -> bool)
    ensures Without(a + b, drop) == Without(a, drop) + Without(b, drop)
    decreases |a|
  {
    if a == [] {
      assert a + b == b;
    } else {
      assert (a + b)[0] == a[0];
      assert (a + b)[1..] == a[1..] + b;
      WithoutConcat(a[1..], b, drop);
    }
  }

  lemma {:induction false} WithoutAllDropped(s: String, drop: char -> bool)
    requires forall i :: 0 <= i < |s| ==> drop(s[i])
    ensures Without(s, drop) == []
    decreases |s|
  {
    if s != [] {
      WithoutAllDropped(s[1..], drop);
    }
  }

  /** Deleting a class that contains every white-space character does not see trimming. */
  lemma WithoutIgnoresTrim(s: String, drop: char -> bool)
    requires forall c :: IsSpace(c) ==> drop(c)
    ensures Without(Trim(s), drop) == Without(s, drop)
  {
    WithoutIgnoresTrimStart(s, drop);
    WithoutIgnoresTrimEnd(TrimStart(s), drop);
  }

  lemma WithoutIgnoresTrimStart(s: String, drop: char -> bool)
    requires forall c :: IsSpace(c) ==> drop(c)
    ensures Without(TrimStart(s), drop) == Without(s, drop)
  {
    var t := TrimStart(s);
    var head := s[..|s| - |t|];
    assert s == head + t;
    TrimStartDropsSpaces(s);
    forall i | 0 <= i < |head| ensures drop(head[i]) {
      assert IsSpace(s[i]);
    }
    WithoutAllDropped(head, drop);
    WithoutConcat(head, t, drop);
  }

  lemma WithoutIgnoresTrimEnd(t: String, drop: char -> bool)
    requires forall c :: IsSpace(c) ==> drop(c)
    ensures Without(TrimEnd(t), drop) == Without(t, drop)
  {
    var r := TrimEnd(t);
    var tail := t[|r|..];
    assert t == r + tail;
    TrimEndDropsSpaces(t);
    forall i | 0 <= i < |tail| ensures drop(tail[i]) {
      assert IsSpace(t[|r| + i]);
    }
    WithoutAllDropped(tail, drop);
    WithoutConcat(r, tail, drop);
  }

  lemma TrimIdempotent(s: String)
    ensures Trim(Trim(s)) == Trim(s)
  {
    TrimOfSolid(Trim(s));
  }

  /** A string that neither starts nor ends with white space is its own trim. */
  lemma TrimOfSolid(s: String)
    requires s == [] || (!IsSpace(s[0]) && !IsSpace(s[|s| - 1]))
    ensures Trim(s) == s
  {
    assert TrimStart(s) == s;
    assert TrimEnd(s) == s;
  }

  /** Splitting a string without `d` gives the string alone. */
  lemma {:induction false} SplitWithout(s: String, d: char)
    requires d !in s
    ensures Split(s, d) == [s]
    decreases |s|
  {
    if s != [] {
      SplitWithout(s[1..], d);
      assert [s[0]] + s[1..] == s;
    }
  }

  /** Splitting at the first `d`: the piece before it, then the split of the rest. */
  lemma {:induction false} SplitAtFirst(a: String, b: String, d: char)
    requires d !in a
    ensures Split(a + [d] + b, d) == [a] + Split(b, d)
    decreases |a|
  {
    var s := a + [d] + b;
    if a == [] {
      assert s == [d] + b;
      assert s[1..] == b;
    } else {
      assert s[0] == a[0];
      assert s[1..] == a[1..] + [d] + b;
      SplitAtFirst(a[1..], b, d);
      assert [a[0]] + a[1..] == a;
    }
  }

  lemma {:induction false} Utf16LengthConcat(a: String, b: String)
    ensures Utf16Length(a + b) == Utf16Length(a) + Utf16Length(b)
    decreases |a|
  {
    if a != [] {
      assert (a + b)[1..] == a[1..] + b;
      Utf16LengthConcat(a[1..], b);
    } else {
      assert a + b == b;
    }
  }

  lemma JoinTwo(a: String, b: String, sep: String)
    ensures Join([a, b], sep) == a + sep + b
  {
    assert [a, b][1..] == [b];
  }

  /** The joined string starts with the first part. */
  lemma JoinStartsWithHead(parts: seq<String>, sep: String)
    requires parts != []
    ensures parts[0] <= Join(parts, sep)
  {
  }
}
