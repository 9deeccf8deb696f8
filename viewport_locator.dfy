/**
 * The viewport locator (`getScrollableContainer`): finds the element that
 * scrolls the user list of the Reactions dialog. Every ancestor of every user
 * row, up to the dialog, that is both potentially scrollable and scrollable by
 * code earns a score that falls with its distance from the row; the ancestor
 * with the highest score, ties broken by scroll distance, wins. When no
 * ancestor qualifies, every qualifying descendant of the dialog competes on
 * "rows contained, then scroll distance".
 *
 * Elements are snapshots: an `Element` holds the geometry the script reads
 * and whether the browser honours a write to `scrollTop` (the outcome of the
 * probe in `canScrollByCode`). The same element is the same value wherever it
 * appears, so JavaScript's element identity is value equality here.
 */
module ViewportLocator {
  import opened Text
  import opened Arith
  import opened Wrappers
  import opened RowClassifier

  /** `scrollHeight - clientHeight` must exceed this for an element to count as scrollable. */
  const SCROLLABLE_SLACK := 32
  /** How far the probe in `canScrollByCode` tries to move `scrollTop`. */
  const PROBE_STEP := 12
  /** The score of a qualifying parent; each step further up scores one less, down to 1. */
  const NEAREST_SCORE := 30
  /** Hit scores (and, in the fallback, contained rows) are weighted by this before the scroll distance is added. */
  const HIT_WEIGHT := 1_000_000

  datatype Element = Element(
    node: NodeId,
    scrollHeight: int,
    clientHeight: int,
    scrollTop: int,
    takesScrollWrites: bool)

  /** A row as the locator sees it: its node, and its ancestors from `row.parentElement` up to, not including, the dialog. */
  datatype ListedRow = ListedRow(node: NodeId, ancestors: seq<Element>)

  /** The largest `scrollTop` the element allows. */
  function ScrollRange(el: Element): int
  {
    el.scrollHeight - el.clientHeight
  }

  /** `Math.max(0, el.scrollHeight - el.clientHeight)`. */
  function ScrollDistance(el: Element): nat
  {
    if ScrollRange(el) > 0 then ScrollRange(el) else 0
  }

  /** `isPotentialScrollable`. */
  predicate IsPotentialScrollable(el: Element)
  {
    ScrollRange(el) > SCROLLABLE_SLACK
  }

  /** The value the probe writes: one step down, but not past the bottom. */
  function ProbeTarget(el: Element): int
  {
    Min(ScrollRange(el), el.scrollTop + PROBE_STEP)
  }

  /** Whether reading `scrollTop` back after the probe write shows a change. */
  predicate ProbeMoved(el: Element)
  {
    el.takesScrollWrites && Abs(ProbeTarget(el) - el.scrollTop) > 0
  }

  /**
   * `canScrollByCode`: false when there is at most one pixel to scroll;
   * otherwise true when the probe moved or the element is already scrolled.
   * The probe restores `scrollTop`, so the element is left as it was.
   */
  predicate CanScrollByCode(el: Element)
  {
    if ScrollRange(el) <= 1 then false else ProbeMoved(el) || el.scrollTop > 0
  }

  /** The test applied to every ancestor and every fallback candidate. */
  predicate Eligible(el: Element)
  {
    IsPotentialScrollable(el) && CanScrollByCode(el)
  }

  /**
   * For an element whose `scrollTop` lies in its range, qualifying means: more
   * than 32 pixels to scroll, and either writes to `scrollTop` take effect or
   * it is already scrolled away from the top.
   */
  lemma EligibleMeans(el: Element)
    requires 0 <= el.scrollTop <= ScrollRange(el)
    ensures Eligible(el) <==> ScrollRange(el) > SCROLLABLE_SLACK && (el.takesScrollWrites || el.scrollTop > 0)
  {
    if el.takesScrollWrites && el.scrollTop == 0 && ScrollRange(el) > SCROLLABLE_SLACK {
      assert ProbeTarget(el) == PROBE_STEP;
    }
  }

  /** `Math.max(1, 30 - depth)`: the score of an ancestor `depth` steps above the row's parent. */
  function HitScore(depth: nat): (s: nat)
    ensures 1 <= s <= NEAREST_SCORE
    ensures depth < NEAREST_SCORE ==> s == NEAREST_SCORE - depth
  {
    Max(1, NEAREST_SCORE - depth)
  }

  /** Nearer ancestors never score less than farther ones. */
  lemma HitScoreFalls(near: nat, far: nat)
    requires near <= far
    ensures HitScore(near) >= HitScore(far)
  {
  }

  /**
   * `scoreMap`: a JavaScript `Map` from element to score. `keys` lists the
   * elements in the order they were first set, which is the order
   * `scoreMap.entries()` visits them in.
   */
  datatype ScoreMap = ScoreMap(keys: seq<Element>, values: map<Element, nat>)

  const NO_SCORES := ScoreMap([], map[])

  /** Every key is listed exactly once, and the listed keys are the stored ones. */
  ghost predicate WellFormed(t: ScoreMap)
  {
    (forall i, j :: 0 <= i < j < |t.keys| ==> t.keys[i] != t.keys[j])
    && (forall el :: el in t.values <==> el in t.keys)
  }

  /** `scoreMap.get(el) || 0`. */
  function Score(t: ScoreMap, el: Element): nat
  {
    if el in t.values then t.values[el] else 0
  }

  /** `scoreMap.set(el, s)`: a new element goes to the end; an existing one keeps its place. */
  function SetScore(t: ScoreMap, el: Element, s: nat): ScoreMap
  {
    ScoreMap(if el in t.values then t.keys else t.keys + [el], t.values[el := s])
  }

  /** `set` keeps a well-formed map well-formed. */
  lemma SetScoreKeepsWellFormed(t: ScoreMap, el: Element, s: nat)
    requires WellFormed(t)
    ensures WellFormed(SetScore(t, el, s))
  {
    var r := SetScore(t, el, s);
    if el !in t.values {
      forall i, j | 0 <= i < j < |r.keys| ensures r.keys[i] != r.keys[j] {
        if j == |t.keys| {
          assert r.keys[i] == t.keys[i];
          assert r.keys[i] in t.values;
        }
      }
    }
  }

  /** One step of the inner loop: a qualifying ancestor at `depth` gets `HitScore(depth)` added to its score. */
  function Credit(t: ScoreMap, el: Element, depth: nat): ScoreMap
  {
    if Eligible(el) then SetScore(t, el, Score(t, el) + HitScore(depth)) else t
  }

  /** The inner loop over one row's ancestors, nearest first; the ancestor at index `d` is at depth `d`. */
  function CreditChain(t: ScoreMap, chain: seq<Element>): ScoreMap
    decreases |chain|
  {
    if chain == [] then t
    else Credit(CreditChain(t, chain[..|chain| - 1]), chain[|chain| - 1], |chain| - 1)
  }

  /** The outer loop over the rows. */
  function CreditRows(t: ScoreMap, rows: seq<ListedRow>): ScoreMap
    decreases |rows|
  {
    if rows == [] then t
    else CreditChain(CreditRows(t, rows[..|rows| - 1]), rows[|rows| - 1].ancestors)
  }

  /** Reference definition: the depth scores of every place `el` occurs in `chain`, summed. */
  function ChainHits(chain: seq<Element>, el: Element): nat
    decreases |chain|
  {
    if chain == [] then 0
    else ChainHits(chain[..|chain| - 1], el) + (if chain[|chain| - 1] == el then HitScore(|chain| - 1) else 0)
  }

  /** Reference definition: `ChainHits` over the ancestors of every row. */
  function RowHits(rows: seq<ListedRow>, el: Element): nat
    decreases |rows|
  {
    if rows == [] then 0
    else RowHits(rows[..|rows| - 1], el) + ChainHits(rows[|rows| - 1].ancestors, el)
  }

  /** An element collects a positive hit sum exactly when it is somewhere in the chain. */
  lemma {:induction false} ChainHitsPositive(chain: seq<Element>, el: Element)
    ensures ChainHits(chain, el) > 0 <==> el in chain
    decreases |chain|
  {
    if chain != [] {
      var init := chain[..|chain| - 1];
      ChainHitsPositive(init, el);
      assert chain == init + [chain[|chain| - 1]];
    }
  }

  /** An element collects a positive hit sum exactly when it is an ancestor of some row. */
  lemma {:induction false} RowHitsPositive(rows: seq<ListedRow>, el: Element)
    ensures RowHits(rows, el) > 0 <==> exists i :: 0 <= i < |rows| && el in rows[i].ancestors
    decreases |rows|
  {
    if rows != [] {
      var init := rows[..|rows| - 1];
      var last := rows[|rows| - 1];
      RowHitsPositive(init, el);
      ChainHitsPositive(last.ancestors, el);
      if RowHits(rows, el) > 0 {
        if ChainHits(last.ancestors, el) > 0 {
          assert el in rows[|rows| - 1].ancestors;
        } else {
          var i :| 0 <= i < |init| && el in init[i].ancestors;
          assert rows[i] == init[i];
        }
      } else {
        forall i | 0 <= i < |rows| ensures el !in rows[i].ancestors {
          if i < |init| {
            assert rows[i] == init[i];
          }
        }
      }
    }
  }

  /**
   * Crediting one chain adds, to a qualifying element, exactly its hit sum in
   * that chain; other elements and non-qualifying ones are left alone.
   */
  lemma {:induction false} CreditChainAdds(t: ScoreMap, chain: seq<Element>, el: Element)
    ensures var r := CreditChain(t, chain);
      && Score(r, el) == Score(t, el) + (if Eligible(el) then ChainHits(chain, el) else 0)
      && (el in r.values <==> el in t.values || (Eligible(el) && ChainHits(chain, el) > 0))
    decreases |chain|
  {
    if chain != [] {
      CreditChainAdds(t, chain[..|chain| - 1], el);
    }
  }

  /** Crediting the rows adds, to a qualifying element, exactly its hit sum over all rows. */
  lemma {:induction false} CreditRowsAdds(t: ScoreMap, rows: seq<ListedRow>, el: Element)
    ensures var r := CreditRows(t, rows);
      && Score(r, el) == Score(t, el) + (if Eligible(el) then RowHits(rows, el) else 0)
      && (el in r.values <==> el in t.values || (Eligible(el) && RowHits(rows, el) > 0))
    decreases |rows|
  {
    if rows != [] {
      var init := rows[..|rows| - 1];
      CreditRowsAdds(t, init, el);
      CreditChainAdds(CreditRows(t, init), rows[|rows| - 1].ancestors, el);
    }
  }

  /**
   * The score map holds exactly the qualifying ancestors of the rows, and each
   * one's score is the sum of `HitScore` over every place it occurs above a row.
   */
  lemma ScoresAreHitSums(rows: seq<ListedRow>, el: Element)
    ensures var t := CreditRows(NO_SCORES, rows);
      && (el in t.values <==> Eligible(el) && exists i :: 0 <= i < |rows| && el in rows[i].ancestors)
      && (el in t.values ==> t.values[el] == RowHits(rows, el))
  {
    CreditRowsAdds(NO_SCORES, rows, el);
    RowHitsPositive(rows, el);
  }

  /** Crediting keeps the map well-formed: every credited element listed once. */
  lemma {:induction false} CreditChainWellFormed(t: ScoreMap, chain: seq<Element>)
    requires WellFormed(t)
    ensures WellFormed(CreditChain(t, chain))
    decreases |chain|
  {
    if chain != [] {
      var u := CreditChain(t, chain[..|chain| - 1]);
      CreditChainWellFormed(t, chain[..|chain| - 1]);
      var el := chain[|chain| - 1];
      if Eligible(el) {
        SetScoreKeepsWellFormed(u, el, Score(u, el) + HitScore(|chain| - 1));
      }
    }
  }

  lemma {:induction false} CreditRowsWellFormed(t: ScoreMap, rows: seq<ListedRow>)
    requires WellFormed(t)
    ensures WellFormed(CreditRows(t, rows))
    decreases |rows|
  {
    if rows != [] {
      CreditRowsWellFormed(t, rows[..|rows| - 1]);
      CreditChainWellFormed(CreditRows(t, rows[..|rows| - 1]), rows[|rows| - 1].ancestors);
    }
  }

  /**
   * The two nested loops of `getScrollableContainer` that fill `scoreMap`:
   * for each row, walk its ancestors with a depth counter and credit the
   * qualifying ones.
   */
  method ScoreAncestors(rows: seq<ListedRow>) returns (scores: ScoreMap)
    ensures scores == CreditRows(NO_SCORES, rows)
    ensures WellFormed(scores)
  {
    scores := NO_SCORES;
    var r := 0;
    while r < |rows|
      invariant 0 <= r <= |rows|
      invariant scores == CreditRows(NO_SCORES, rows[..r])
    {
      var chain := rows[r].ancestors;
      ghost var before := scores;
      var depth := 0;
      while depth < |chain|
        invariant 0 <= depth <= |chain|
        invariant scores == CreditChain(before, chain[..depth])
      {
        var p := chain[depth];
        if IsPotentialScrollable(p) && CanScrollByCode(p) {
          var score := HitScore(depth);
          scores := SetScore(scores, p, Score(scores, p) + score);
        }
        assert chain[..depth + 1][..depth] == chain[..depth];
        depth := depth + 1;
      }
      assert chain[..depth] == chain;
      assert rows[..r + 1][..r] == rows[..r];
      r := r + 1;
    }
    assert rows[..r] == rows;
    CreditRowsWellFormed(NO_SCORES, rows);
  }

  /**
   * `bestScore` starts at -1 and only a strictly larger total replaces the
   * best: the winner is the first position holding the largest total.
   */
  ghost predicate IsFirstMax<T>(items: seq<T>, total: T -> int, i: nat)
  {
    && i < |items|
    && total(items[i]) >= 0
    && (forall j :: 0 <= j < i ==> total(items[j]) < total(items[i]))
    && (forall j :: i < j < |items| ==> total(items[j]) <= total(items[i]))
  }

  /** At most one position is the first maximum, so the election's outcome is determined. */
  lemma FirstMaxIsUnique<T>(items: seq<T>, total: T -> int, i: nat, j: nat)
    requires IsFirstMax(items, total, i) && IsFirstMax(items, total, j)
    ensures i == j
  {
  }

  /**
   * Both election loops: walk the items in order and keep the first one whose
   * total beats the best so far, starting from -1. Nothing is chosen only when
   * every total is negative.
   */
  method ElectFirstMax<T>(items: seq<T>, total: T -> int) returns (best: Option<T>, ghost index: nat)
    ensures best.None? <==> forall j :: 0 <= j < |items| ==> total(items[j]) < 0
    ensures best.Some? ==> IsFirstMax(items, total, index) && best.value == items[index]
  {
    best := None;
    index := 0;
    var bestScore := -1;
    var i := 0;
    while i < |items|
      invariant 0 <= i <= |items|
      invariant best.None? ==> bestScore == -1 && forall j :: 0 <= j < i ==> total(items[j]) < 0
      invariant best.Some? ==> && index < i && best.value == items[index]
                               && bestScore == total(items[index]) && bestScore >= 0
                               && (forall j :: 0 <= j < index ==> total(items[j]) < bestScore)
                               && (forall j :: index < j < i ==> total(items[j]) <= bestScore)
    {
      var score := total(items[i]);
      if score > bestScore {
        best := Some(items[i]);
        index := i;
        bestScore := score;
      }
      i := i + 1;
    }
  }

  /** `hitScore * 1_000_000 + maxScroll`: the total an ancestor is elected by. */
  function AncestorTotal(scores: ScoreMap): Element -> int
  {
    el => Score(scores, el) * HIT_WEIGHT + ScrollDistance(el)
  }

  /**
   * Hits come first: while scroll distances stay below the weight, an element
   * with a higher hit score beats one with a lower score, whatever the scroll
   * distances; equal hit scores are decided by scroll distance.
   */
  lemma HitsOutweighScroll(scores: ScoreMap, a: Element, b: Element)
    requires ScrollDistance(b) < HIT_WEIGHT
    ensures Score(scores, a) > Score(scores, b) ==> AncestorTotal(scores)(a) > AncestorTotal(scores)(b)
    ensures Score(scores, a) == Score(scores, b) ==>
      (AncestorTotal(scores)(a) > AncestorTotal(scores)(b) <==> ScrollDistance(a) > ScrollDistance(b))
  {
    var ha, hb := Score(scores, a), Score(scores, b);
    if ha > hb {
      assert ha * HIT_WEIGHT >= hb * HIT_WEIGHT + HIT_WEIGHT;
    }
  }

  /** `el.contains(row)`: the row is the element itself or lies below it. */
  predicate Contains(el: Element, row: ListedRow)
  {
    el.node == row.node || el in row.ancestors
  }

  /** `rows.filter((row) => el.contains(row)).length`. */
  function ContainedRows(rows: seq<ListedRow>, el: Element): (n: nat)
    ensures n <= |rows|
    decreases |rows|
  {
    if rows == [] then 0
    else ContainedRows(rows[..|rows| - 1], el) + (if Contains(el, rows[|rows| - 1]) then 1 else 0)
  }

  /** How many rows are the element itself. */
  function RowsAt(rows: seq<ListedRow>, node: NodeId): (n: nat)
    ensures n <= |rows|
    decreases |rows|
  {
    if rows == [] then 0
    else RowsAt(rows[..|rows| - 1], node) + (if rows[|rows| - 1].node == node then 1 else 0)
  }

  /** `containedRows * 1_000_000 + maxScroll`: the total a fallback candidate is elected by. */
  function FallbackTotal(rows: seq<ListedRow>): Element -> int
  {
    el => ContainedRows(rows, el) * HIT_WEIGHT + ScrollDistance(el)
  }

  /** The `.filter(...)` over `dialog.querySelectorAll('*')`: the qualifying descendants, in document order. */
  function EligibleOnly(els: seq<Element>): (r: seq<Element>)
    ensures forall e :: e in r <==> e in els && Eligible(e)
    ensures |r| <= |els|
    decreases |els|
  {
    if els == [] then []
    else EligibleOnly(els[..|els| - 1]) + (if Eligible(els[|els| - 1]) then [els[|els| - 1]] else [])
  }

  /**
   * The fallback runs only when no ancestor of any row qualified, and a
   * qualifying candidate that contained a row without being it would have
   * been such an ancestor. So in the fallback every candidate's contained-row
   * count is just the number of rows that are the candidate itself: the
   * election is decided by scroll distance unless a row is itself scrollable.
   */
  lemma {:induction false} FallbackCountsOnlyRowsThemselves(rows: seq<ListedRow>, el: Element)
    requires CreditRows(NO_SCORES, rows).keys == []
    requires Eligible(el)
    ensures ContainedRows(rows, el) == RowsAt(rows, el.node)
    decreases |rows|
  {
    if rows != [] {
      var init := rows[..|rows| - 1];
      var last := rows[|rows| - 1];
      CreditRowsWellFormed(NO_SCORES, rows);
      ScoresAreHitSums(rows, el);
      assert el !in last.ancestors by {
        assert el !in CreditRows(NO_SCORES, rows).values;
        assert !(el in rows[|rows| - 1].ancestors);
      }
      NoScoresWithoutLast(rows);
      FallbackCountsOnlyRowsThemselves(init, el);
    }
  }

  /** Crediting never reorders or drops a key: the old key order is a prefix of the new one. */
  lemma {:induction false} CreditChainExtends(t: ScoreMap, chain: seq<Element>)
    ensures t.keys <= CreditChain(t, chain).keys
    decreases |chain|
  {
    if chain != [] {
      CreditChainExtends(t, chain[..|chain| - 1]);
    }
  }

  /** An empty score map over all rows is empty over all but the last row too. */
  lemma NoScoresWithoutLast(rows: seq<ListedRow>)
    requires rows != []
    requires CreditRows(NO_SCORES, rows).keys == []
    ensures CreditRows(NO_SCORES, rows[..|rows| - 1]).keys == []
  {
    CreditChainExtends(CreditRows(NO_SCORES, rows[..|rows| - 1]), rows[|rows| - 1].ancestors);
  }

  /**
   * `getScrollableContainer` from the row scan on: score the ancestors; if any
   * qualified, elect the first with the largest ancestor total; otherwise elect
   * among the qualifying descendants of the dialog by the fallback total.
   */
  method LocateScroller(rows: seq<ListedRow>, descendants: seq<Element>) returns (scroller: Option<Element>)
    ensures var t := CreditRows(NO_SCORES, rows);
      t.keys != [] ==> exists i: nat :: IsFirstMax(t.keys, AncestorTotal(t), i) && scroller == Some(t.keys[i])
    ensures var t := CreditRows(NO_SCORES, rows); var candidates := EligibleOnly(descendants);
      t.keys == [] ==>
        && (scroller.None? <==> candidates == [])
        && (scroller.Some? ==> exists i: nat :: IsFirstMax(candidates, FallbackTotal(rows), i) && scroller == Some(candidates[i]))
  {
    var scores := ScoreAncestors(rows);
    if |scores.keys| > 0 {
      // Every total is at least 0, so `if (best)` always holds here.
      assert AncestorTotal(scores)(scores.keys[0]) >= 0;
      ghost var index;
      scroller, index := ElectFirstMax(scores.keys, AncestorTotal(scores));
      assert IsFirstMax(scores.keys, AncestorTotal(scores), index) && scroller == Some(scores.keys[index]);
      return;
    }
    var candidates := EligibleOnly(descendants);
    if candidates != [] {
      assert FallbackTotal(rows)(candidates[0]) >= 0;
    }
    ghost var index;
    scroller, index := ElectFirstMax(candidates, FallbackTotal(rows));
    if scroller.Some? {
      assert IsFirstMax(candidates, FallbackTotal(rows), index) && scroller == Some(candidates[index]);
    }
  }
}
