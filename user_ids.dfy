/**
 * Numeric user ids: `extractUserIdFromText`, the search for the first run of
 * 16 to 21 ASCII digits that is bounded on both sides by a non-digit or an end
 * of the string (the regular expression `(?:^|\D)(\d{16,21})(?:\D|$)`), and
 * `extractUserId`, which tries a row's attribute values in a fixed order.
 */
module UserIds {
  import opened Text
  import opened Wrappers

  const MIN_ID_DIGITS := 16
  const MAX_ID_DIGITS := 21

  /** `s[i..j]` is a whole digit run (nothing but digits, no digit on either side) of id length. */
  ghost predicate IdRunAt(s: String, i: int, j: int)
  {
    0 <= i && j <= |s| && MIN_ID_DIGITS <= j - i <= MAX_ID_DIGITS
    && (forall m :: i <= m < j ==> IsDigit(s[m]))
    && (i == 0 || !IsDigit(s[i - 1]))
    && (j == |s| || !IsDigit(s[j]))
  }

  /** The end of the digit run that starts at `k`. */
  function RunEnd(s: String, k: nat): (j: nat)
    requires k <= |s|
    ensures k <= j <= |s|
    ensures forall m :: k <= m < j ==> IsDigit(s[m])
    ensures j == |s| || !IsDigit(s[j])
    decreases |s| - k
  {
    if k < |s| && IsDigit(s[k]) then RunEnd(s, k + 1) else k
  }

  /** A whole digit run ends where `RunEnd` says: there is only one candidate end per start. */
  lemma RunEndIsUnique(s: String, i: nat, j: int)
    requires i <= j <= |s|
    requires forall m :: i <= m < j ==> IsDigit(s[m])
    requires j == |s| || !IsDigit(s[j])
    ensures j == RunEnd(s, i)
    decreases j - i
  {
    if i < j {
      RunEndIsUnique(s, i + 1, j);
    }
  }

  /**
   * The regular-expression search from position `k` on, where `k` is not in
   * the middle of a digit run: the start of the leftmost id run at or after `k`.
   */
  function FindIdRun(s: String, k: nat): (r: Option<nat>)
    requires k <= |s|
    ensures r.Some? ==> k <= r.value < |s|
    decreases |s| - k
  {
    if k == |s| then None
    else if !IsDigit(s[k]) then FindIdRun(s, k + 1)
    else
      var e := RunEnd(s, k);
      if MIN_ID_DIGITS <= e - k <= MAX_ID_DIGITS then Some(k) else FindIdRun(s, e)
  }

  /** The search finds the leftmost whole id run at or after `k`, and only reports none when there is none. */
  lemma {:induction false} FindIdRunIsLeftmost(s: String, k: nat)
    requires k <= |s|
    requires k == 0 || k == |s| || !IsDigit(s[k - 1]) || !IsDigit(s[k])
    ensures var r := FindIdRun(s, k);
      && (r.Some? ==> IdRunAt(s, r.value, RunEnd(s, r.value)))
      && (r.Some? ==> forall i, j :: k <= i < r.value ==> !IdRunAt(s, i, j))
      && (r.None? ==> forall i, j :: k <= i ==> !IdRunAt(s, i, j))
    decreases |s| - k
  {
    if k == |s| {
    } else if !IsDigit(s[k]) {
      FindIdRunIsLeftmost(s, k + 1);
      assert forall j :: !IdRunAt(s, k, j);
    } else {
      var e := RunEnd(s, k);
      if !(MIN_ID_DIGITS <= e - k <= MAX_ID_DIGITS) {
        FindIdRunIsLeftmost(s, e);
        forall i, j | k < i < e ensures !IdRunAt(s, i, j) {
          assert IsDigit(s[i - 1]);
        }
        forall j | k <= j <= |s| && (forall m :: k <= m < j ==> IsDigit(s[m])) && (j == |s| || !IsDigit(s[j]))
          ensures j == e
        {
          RunEndIsUnique(s, k, j);
        }
      }
    }
  }

  /**
   * `extractUserIdFromText`: the leftmost whole run of 16 to 21 digits, or the
   * empty string when the text holds none.
   */
  function ExtractUserIdFromText(s: String): (r: String)
    ensures r != [] ==> MIN_ID_DIGITS <= |r| <= MAX_ID_DIGITS && |r| <= |s|
  {
    match FindIdRun(s, 0)
    case None => []
    case Some(i) =>
      FindIdRunIsLeftmost(s, 0);
      s[i..RunEnd(s, i)]
  }

  /**
   * The id found is a whole run of 16 to 21 digits of the text, no such run
   * starts further left, and the result is empty exactly when the text holds
   * no such run.
   */
  lemma ExtractUserIdFromTextIsLeftmostRun(s: String)
    ensures var r := ExtractUserIdFromText(s);
      && (r == [] <==> forall i, j :: !IdRunAt(s, i, j))
      && (forall m :: 0 <= m < |r| ==> IsDigit(r[m]))
      && (r != [] ==> exists i, j ::
            IdRunAt(s, i, j) && r == s[i..j] && forall i', j' :: 0 <= i' < i ==> !IdRunAt(s, i', j'))
  {
    FindIdRunIsLeftmost(s, 0);
    var r := ExtractUserIdFromText(s);
    if r != [] {
      var i := FindIdRun(s, 0).value;
      assert IdRunAt(s, i, RunEnd(s, i)) && r == s[i..RunEnd(s, i)];
    }
  }

  /** A string made only of digits, longer than 21, holds no id: a 22-digit run yields nothing. */
  lemma {:induction false} OverlongDigitRunHasNoId(s: String)
    requires |s| > MAX_ID_DIGITS
    requires forall m :: 0 <= m < |s| ==> IsDigit(s[m])
    ensures ExtractUserIdFromText(s) == []
  {
    forall i, j | 0 <= i <= j <= |s| && j - i <= MAX_ID_DIGITS ensures !IdRunAt(s, i, j) {
      if i > 0 {
        assert IsDigit(s[i - 1]);
      } else {
        assert IsDigit(s[j]);
      }
    }
    ExtractUserIdFromTextIsLeftmostRun(s);
  }

  /** A whole run of 16 to 21 digits with nothing before it is the id found. */
  lemma LeadingIdRunIsFound(s: String, j: nat)
    requires IdRunAt(s, 0, j)
    ensures ExtractUserIdFromText(s) == s[..j]
  {
    RunEndIsUnique(s, 0, j);
  }

  /**
   * `extractUserId`: the id in the first of the row's candidate attribute
   * values (in the order the row offers them) that holds one, or empty.
   */
  function ExtractUserId(candidates: seq<String>): (r: String)
    ensures r != [] ==> MIN_ID_DIGITS <= |r| <= MAX_ID_DIGITS
  {
    if candidates == [] then []
    else
      var id := ExtractUserIdFromText(candidates[0]);
      if id != [] then id else ExtractUserId(candidates[1..])
  }

  /** The result is the id of the first candidate that holds one, and empty exactly when none does. */
  lemma {:induction false} ExtractUserIdIsFirstFound(candidates: seq<String>)
    ensures var r := ExtractUserId(candidates);
      && (r == [] <==> forall k :: 0 <= k < |candidates| ==> ExtractUserIdFromText(candidates[k]) == [])
      && (r != [] ==> exists k :: (0 <= k < |candidates| && r == ExtractUserIdFromText(candidates[k])
            && forall k' :: 0 <= k' < k ==> ExtractUserIdFromText(candidates[k']) == []))
  {
    if candidates != [] && ExtractUserIdFromText(candidates[0]) == [] {
      ExtractUserIdIsFirstFound(candidates[1..]);
      assert forall k :: 1 <= k < |candidates| ==> candidates[k] == candidates[1..][k - 1];
      var r := ExtractUserId(candidates);
      if r != [] {
        var k :| 0 <= k < |candidates[1..]| && r == ExtractUserIdFromText(candidates[1..][k])
            && forall k' :: 0 <= k' < k ==> ExtractUserIdFromText(candidates[1..][k']) == [];
        assert r == ExtractUserIdFromText(candidates[k + 1]);
      }
    }
  }
}
