/** `Array.prototype.find` over a sequence, and the facts the rest of the model uses about it. */
module Seqs {
  import opened Wrappers

  /** `xs.find(p)`: the first element satisfying `p`, or none. */
  function FindFirst<T>(xs: seq<T>, p: T -> bool): (r: Option<T>)
  {
    if xs == [] then None
    else if p(xs[0]) then Some(xs[0])
    else FindFirst(xs[1..], p)
  }

  /** The search finds nothing exactly when no element satisfies `p`. */
  lemma {:induction false} FindFirstNone<T>(xs: seq<T>, p: T -> bool)
    ensures FindFirst(xs, p).None? <==> forall k :: 0 <= k < |xs| ==> !p(xs[k])
  {
    if xs != [] && !p(xs[0]) {
      FindFirstNone(xs[1..], p);
      assert forall k :: 1 <= k < |xs| ==> xs[k] == xs[1..][k - 1];
    }
  }

  /** The search finds the element at the first index satisfying `p`. */
  lemma {:induction false} FindFirstAt<T>(xs: seq<T>, p: T -> bool, k: nat)
    requires k < |xs| && p(xs[k])
    requires forall j :: 0 <= j < k ==> !p(xs[j])
    ensures FindFirst(xs, p) == Some(xs[k])
  {
    if k > 0 {
      assert !p(xs[0]);
      forall j | 0 <= j < k - 1 ensures !p(xs[1..][j]) {
        assert xs[1..][j] == xs[j + 1];
      }
      FindFirstAt(xs[1..], p, k - 1);
    }
  }

  /** Whatever the search finds is an element satisfying `p`. */
  lemma {:induction false} FindFirstIsAnElement<T>(xs: seq<T>, p: T -> bool)
    ensures FindFirst(xs, p).Some? ==> FindFirst(xs, p).value in xs && p(FindFirst(xs, p).value)
  {
    if xs != [] && !p(xs[0]) {
      FindFirstIsAnElement(xs[1..], p);
    }
  }

  /**
   * What the search finds sits at an index where `p` holds and before which
   * it holds nowhere.
   */
  lemma {:induction false} FindFirstIsFirst<T>(xs: seq<T>, p: T -> bool)
    ensures FindFirst(xs, p).Some? ==>
      exists i :: 0 <= i < |xs| && FindFirst(xs, p).value == xs[i] && p(xs[i])
        && forall j :: 0 <= j < i ==> !p(xs[j])
  {
    if xs != [] && !p(xs[0]) {
      var rest := xs[1..];
      FindFirstIsFirst(rest, p);
      if FindFirst(rest, p).Some? {
        var i :| 0 <= i < |rest| && FindFirst(rest, p).value == rest[i] && p(rest[i])
          && forall j :: 0 <= j < i ==> !p(rest[j]);
        assert xs[i + 1] == rest[i];
        forall j | 0 <= j < i + 1 ensures !p(xs[j]) {
          if j > 0 {
            assert xs[j] == rest[j - 1];
          }
        }
      }
    } else if xs != [] {
      assert FindFirst(xs, p).value == xs[0];
    }
  }

  /** Two tests that agree on every element find the same element. */
  lemma {:induction false} FindFirstAgree<T>(xs: seq<T>, p: T -> bool, q: T -> bool)
    requires forall k :: 0 <= k < |xs| ==> p(xs[k]) == q(xs[k])
    ensures FindFirst(xs, p) == FindFirst(xs, q)
  {
    if xs != [] {
      assert forall k :: 0 <= k < |xs| - 1 ==> xs[1..][k] == xs[k + 1];
      FindFirstAgree(xs[1..], p, q);
    }
  }
}
