/**
 * Scan bookkeeping: one pass over the visible rows (`collectRows`), the
 * scroll step (`triggerScroll`), the bottom test (`isNearBottom`) and the
 * round loop of `scanReactionUsers`, which stops on a find, after 700
 * rounds, or once enough rounds in a row brought no new user and no
 * movement.
 *
 * The page is a host oracle: for each round it says which rows are visible
 * inside the scroller and in the whole dialog, and how tall the list is once
 * the wait after scrolling is over.
 */
module ScanLoop {
  import opened Text
  import opened Arith
  import opened Wrappers
  import opened RowClassifier
  import opened EntryExtractor
  import opened UserMaps
  import opened MatchEngine

  const SCAN_MAX_ROUNDS := 700
  const SCAN_IDLE_BREAK_ROUNDS := 12
  /** The idle-round threshold of the two rules for a scan without a scroller or without rows. */
  const BLIND_BREAK_ROUNDS := 6
  const MIN_SCROLL_STEP := 180
  const BOTTOM_SLACK := 4
  const MOVE_TOLERANCE := 1

  // ----------------------------------------------------------- collectRows

  /** Each element appears once in the list (`querySelectorAll` never repeats one). */
  predicate DistinctNodes(rows: seq<RowView>)
  {
    forall i, j :: 0 <= i < j < |rows| ==> NodeAt(rows, i) != NodeAt(rows, j)
  }

  /** The element shown at position `i`. */
  function NodeAt(rows: seq<RowView>, i: nat): NodeId
    requires i < |rows|
  {
    rows[i].node
  }

  /** The memo's slot for the row's node holds the row's current fingerprint and the entry `e`. */
  ghost predicate Holds(slots: map<NodeId, CacheSlot>, row: RowView, e: Entry)
  {
    row.node in slots && slots[row.node].fingerprint == Fingerprint(row) && slots[row.node].entry == e
  }

  /** The memo's slot for the row's node holds the row's current fingerprint and an entry matching the target. */
  ghost predicate Found(slots: map<NodeId, CacheSlot>, row: RowView, target: String)
  {
    row.node in slots && slots[row.node].fingerprint == Fingerprint(row) && RowMatchesEntry(slots[row.node].entry, target)
  }

  /** One step of the insertion loop: an entry is stored only under a non-empty signature not yet present. */
  function Absorb(t: Table, e: Entry): Table
  {
    if e.signature != [] && e.signature !in t.values then Put(t, e.signature, e) else t
  }

  /** The table after the insertion loop has seen `es` in order. */
  function AbsorbAll(t: Table, es: seq<Entry>): Table
  {
    if es == [] then t else Absorb(AbsorbAll(t, es[..|es| - 1]), es[|es| - 1])
  }

  /** The non-empty signatures among the entries. */
  function Signatures(es: seq<Entry>): set<String>
  {
    set i | 0 <= i < |es| && es[i].signature != [] :: es[i].signature
  }

  /** The test `collectRows` applies to each entry: the target is non-empty and matches. */
  function RowHit(target: String): Entry -> bool
  {
    e => target != [] && RowMatchesEntry(e, target)
  }

  /** The first row, in order, whose entry passes `hit`. */
  function FirstHit(rows: seq<RowView>, entries: seq<Entry>, hit: Entry -> bool): Option<RowView>
    requires |entries| == |rows|
  {
    if rows == [] then None
    else
      var n := |rows| - 1;
      var before := FirstHit(rows[..n], entries[..n], hit);
      if before.None? && hit(entries[n]) then Some(rows[n]) else before
  }

  /** `scopedRows.length ? scopedRows : getRows(dialog, dialog, dialogRect)`. */
  function ChosenRows(scopedRows: seq<RowView>, dialogRows: seq<RowView>): (rows: seq<RowView>)
  {
    if scopedRows != [] then scopedRows else dialogRows
  }

  /**
   * `collectRows`: parse every row through the memo, remember the first row
   * matching the target, and add each entry whose signature is non-empty and
   * new to the user map, counting the additions.
   */
  method CollectRows(cache: RowEntryCache, scopedRows: seq<RowView>, dialogRows: seq<RowView>,
                     target: String, userMap: UserMap)
    returns (rows: seq<RowView>, matched: Option<RowView>, newSeen: nat, ghost entries: seq<Entry>)
    requires cache.Valid() && userMap.Valid()
    requires DistinctNodes(scopedRows) && DistinctNodes(dialogRows)
    modifies cache, userMap
    ensures cache.Valid() && userMap.Valid()
    ensures rows == ChosenRows(scopedRows, dialogRows) && |entries| == |rows|
    ensures forall k {:trigger Holds(cache.slots, rows[k], entries[k])} :: 0 <= k < |rows| ==> Holds(cache.slots, rows[k], entries[k])
    ensures userMap.Contents() == AbsorbAll(old(userMap.Contents()), entries)
    ensures |userMap.keys| == |old(userMap.keys)| + newSeen
    ensures matched == FirstHit(rows, entries, RowHit(target))
    ensures matched.Some? ==> target != [] && Found(cache.slots, matched.value, target)
  {
    rows := ChosenRows(scopedRows, dialogRows);
    matched := None;
    newSeen := 0;
    entries := [];
    assert rows[..0] == [];
    ghost var start := userMap.Contents();
    assert DistinctNodes(rows);
    var i := 0;
    while i < |rows|
      invariant 0 <= i <= |rows| && |entries| == i && DistinctNodes(rows)
      invariant cache.Valid() && userMap.Valid()
      invariant forall k {:trigger Holds(cache.slots, rows[k], entries[k])} :: 0 <= k < i ==> Holds(cache.slots, rows[k], entries[k])
      invariant userMap.Contents() == AbsorbAll(start, entries)
      invariant |userMap.keys| == |start.keys| + newSeen
      invariant matched == FirstHit(rows[..i], entries, RowHit(target))
    {
      var row := rows[i];
      ghost var before := cache.slots;
      var entry := ParseThroughMemo(cache, row);
      HoldsSnoc(before, cache.slots, rows, entries, entry, i);
      FirstHitSnoc(rows, entries, RowHit(target), entry, i);
      AbsorbAllSnoc(start, entries, entry);
      if matched.None? && RowHit(target)(entry) {
        matched := Some(row);
      }
      assert matched == FirstHit(rows[..i + 1], entries + [entry], RowHit(target));
      var added := InsertIfNew(userMap, entry);
      if added {
        newSeen := newSeen + 1;
      }
      entries := entries + [entry];
      i := i + 1;
    }
    assert rows[..i] == rows;
    if matched.Some? {
      FoundRowMatches(rows, entries, target, cache.slots);
    }
  }

  /**
   * `parseRowEntry(row)` as `collectRows` relies on it: afterwards the row's
   * slot holds its fingerprint and the entry returned, and no other slot
   * has changed.
   */
  method ParseThroughMemo(cache: RowEntryCache, row: RowView) returns (entry: Entry)
    requires cache.Valid()
    modifies cache
    ensures cache.Valid() && Holds(cache.slots, row, entry)
    ensures forall n :: n in old(cache.slots) && n != row.node ==> n in cache.slots && cache.slots[n] == old(cache.slots)[n]
  {
    entry := cache.ParseRowEntry(row);
  }

  /** `if (entry.signature && !userMap.has(entry.signature)) userMap.set(entry.signature, entry)`. */
  method InsertIfNew(userMap: UserMap, entry: Entry) returns (added: bool)
    requires userMap.Valid()
    modifies userMap
    ensures userMap.Valid() && userMap.Contents() == Absorb(old(userMap.Contents()), entry)
    ensures |userMap.keys| == |old(userMap.keys)| + (if added then 1 else 0)
  {
    added := entry.signature != [] && !userMap.Has(entry.signature);
    if added {
      userMap.Set(entry.signature, entry);
    }
  }

  // ------------------------------------------------- lemmas on collectRows

  /** Parsing the next row of a list with distinct nodes keeps the slots of the rows before it. */
  lemma HoldsSnoc(before: map<NodeId, CacheSlot>, after: map<NodeId, CacheSlot>,
                  rows: seq<RowView>, entries: seq<Entry>, e: Entry, i: nat)
    requires |entries| == i < |rows| && DistinctNodes(rows)
    requires forall k {:trigger Holds(before, rows[k], entries[k])} :: 0 <= k < i ==> Holds(before, rows[k], entries[k])
    requires forall n :: n in before && n != rows[i].node ==> n in after && after[n] == before[n]
    requires Holds(after, rows[i], e)
    ensures forall k {:trigger Holds(after, rows[k], (entries + [e])[k])} :: 0 <= k < i + 1 ==> Holds(after, rows[k], (entries + [e])[k])
  {
    forall k | 0 <= k < i + 1 ensures Holds(after, rows[k], (entries + [e])[k]) {
      if k < i {
        assert Holds(before, rows[k], entries[k]) && NodeAt(rows, k) != NodeAt(rows, i);
      }
    }
  }

  lemma AbsorbAllSnoc(t: Table, es: seq<Entry>, e: Entry)
    ensures AbsorbAll(t, es + [e]) == Absorb(AbsorbAll(t, es), e)
  {
    assert (es + [e])[..|es|] == es;
  }

  lemma FirstHitSnoc(rows: seq<RowView>, entries: seq<Entry>, hit: Entry -> bool, e: Entry, i: nat)
    requires |entries| == i < |rows|
    ensures FirstHit(rows[..i + 1], entries + [e], hit) ==
      if FirstHit(rows[..i], entries, hit).None? && hit(e) then Some(rows[i]) else FirstHit(rows[..i], entries, hit)
  {
    assert rows[..i + 1][..i] == rows[..i];
    assert (entries + [e])[..i] == entries;
  }

  /** The insertion loop keeps the table well-formed. */
  lemma {:induction false} AbsorbAllWellFormed(t: Table, es: seq<Entry>)
    requires WellFormed(t)
    ensures WellFormed(AbsorbAll(t, es))
  {
    if es != [] {
      var u := AbsorbAll(t, es[..|es| - 1]);
      AbsorbAllWellFormed(t, es[..|es| - 1]);
      var e := es[|es| - 1];
      if e.signature != [] && e.signature !in u.values {
        PutKeepsWellFormed(u, e.signature, e);
      }
    }
  }

  /** Existing keys keep their place and their entry: nothing is ever overwritten. */
  lemma {:induction false} AbsorbAllKeepsOld(t: Table, es: seq<Entry>)
    ensures var r := AbsorbAll(t, es);
      && t.keys <= r.keys
      && forall k :: k in t.values ==> k in r.values && r.values[k] == t.values[k]
  {
    if es != [] {
      AbsorbAllKeepsOld(t, es[..|es| - 1]);
    }
  }

  /** The stored keys afterwards are the old ones plus exactly the non-empty signatures seen. */
  lemma {:induction false} AbsorbAllKeys(t: Table, es: seq<Entry>)
    ensures AbsorbAll(t, es).values.Keys == t.values.Keys + Signatures(es)
  {
    if es != [] {
      var init := es[..|es| - 1];
      AbsorbAllKeys(t, init);
      var e := es[|es| - 1];
      var add := if e.signature != [] then {e.signature} else {};
      assert Signatures(es) == Signatures(init) + add by {
        forall k | k in Signatures(es) ensures k in Signatures(init) + add {
          var i :| 0 <= i < |es| && es[i].signature != [] && es[i].signature == k;
          if i < |init| {
            assert init[i] == es[i];
          }
        }
        forall k | k in Signatures(init) ensures k in Signatures(es) {
          var i :| 0 <= i < |init| && init[i].signature != [] && init[i].signature == k;
          assert es[i] == init[i];
        }
      }
    }
  }

  /** Among entries sharing a new signature, the first one seen is the one stored. */
  lemma {:induction false} AbsorbAllFirstWins(t: Table, es: seq<Entry>, i: nat)
    requires i < |es| && es[i].signature != [] && es[i].signature !in t.values
    requires forall j :: 0 <= j < i ==> es[j].signature != es[i].signature
    ensures es[i].signature in AbsorbAll(t, es).values
    ensures AbsorbAll(t, es).values[es[i].signature] == es[i]
  {
    var init := es[..|es| - 1];
    if i < |init| {
      assert init[i] == es[i];
      forall j | 0 <= j < i ensures init[j].signature != init[i].signature {
        assert init[j] == es[j];
      }
      AbsorbAllFirstWins(t, init, i);
    } else {
      var u := AbsorbAll(t, init);
      AbsorbAllKeys(t, init);
      assert es[i].signature !in Signatures(init) by {
        forall j | 0 <= j < |init| ensures init[j].signature != es[i].signature {
          assert init[j] == es[j];
        }
      }
      assert es[i].signature !in u.values;
    }
  }

  /** Feeding two batches one after the other is feeding their concatenation. */
  lemma {:induction false} AbsorbAllConcat(t: Table, a: seq<Entry>, b: seq<Entry>)
    ensures AbsorbAll(t, a + b) == AbsorbAll(AbsorbAll(t, a), b)
  {
    if b == [] {
      assert a + b == a;
    } else {
      var ab := a + b;
      assert ab[..|ab| - 1] == a + b[..|b| - 1];
      AbsorbAllConcat(t, a, b[..|b| - 1]);
    }
  }

  /**
   * The row reported is the first whose entry passes the test; there is none
   * exactly when no entry passes it.
   */
  lemma {:induction false} FirstHitIsFirst(rows: seq<RowView>, entries: seq<Entry>, hit: Entry -> bool)
    requires |entries| == |rows|
    ensures FirstHit(rows, entries, hit).None? <==> forall i :: 0 <= i < |rows| ==> !hit(entries[i])
    ensures forall i :: 0 <= i < |rows| && hit(entries[i]) && (forall j :: 0 <= j < i ==> !hit(entries[j])) ==>
      FirstHit(rows, entries, hit) == Some(rows[i])
  {
    if rows != [] {
      var n := |rows| - 1;
      var rs, es := rows[..n], entries[..n];
      FirstHitIsFirst(rs, es, hit);
      assert forall i :: 0 <= i < n ==> rs[i] == rows[i] && es[i] == entries[i];
    }
  }

  /** A reported row sits at an index whose entry passes the test. */
  lemma {:induction false} FirstHitIndex(rows: seq<RowView>, entries: seq<Entry>, hit: Entry -> bool) returns (i: nat)
    requires |entries| == |rows| && FirstHit(rows, entries, hit).Some?
    ensures i < |rows| && FirstHit(rows, entries, hit) == Some(rows[i]) && hit(entries[i])
  {
    var n := |rows| - 1;
    if FirstHit(rows[..n], entries[..n], hit).Some? {
      i := FirstHitIndex(rows[..n], entries[..n], hit);
      assert rows[..n][i] == rows[i] && entries[..n][i] == entries[i];
    } else {
      i := n;
    }
  }

  // ------------------------------------------------------------- scrolling

  /**
   * The scrollable list element: offset, content height and viewport height,
   * in pixels, and whether the element applies an offset written by code; an
   * element that does not keeps its offset when `scrollTop` is assigned.
   */
  class Scroller {
    var scrollTop: int
    var scrollHeight: int
    var clientHeight: int
    const takesScrollWrites: bool

    ghost predicate Valid()
      reads this
    {
      0 <= scrollTop && 0 <= scrollHeight && 0 <= clientHeight
    }

    constructor(top: nat, height: nat, client: nat, takesScrollWrites: bool)
      ensures Valid() && scrollTop == top && scrollHeight == height && clientHeight == client
      ensures this.takesScrollWrites == takesScrollWrites
    {
      scrollTop, scrollHeight, clientHeight := top, height, client;
      this.takesScrollWrites := takesScrollWrites;
    }

    /** `scrollTop = value`. */
    method WriteScrollTop(value: nat)
      requires Valid()
      modifies this
      ensures Valid() && scrollTop == Written(takesScrollWrites, old(scrollTop), value)
      ensures scrollHeight == old(scrollHeight) && clientHeight == old(clientHeight)
    {
      if takesScrollWrites {
        scrollTop := value;
      }
    }
  }

  /** The offset after `value` is written to an element whose offset is `current`. */
  function Written(takesScrollWrites: bool, current: int, value: int): int
  {
    if takesScrollWrites then value else current
  }

  /** `Math.max(0, scrollHeight - clientHeight)`. */
  function MaxScrollTop(scrollHeight: int, clientHeight: int): int
  {
    Max(0, scrollHeight - clientHeight)
  }

  /** `Math.max(180, Math.floor(clientHeight * 0.95))`, with 0.95 taken as the exact ratio 19/20. */
  function ScrollStep(clientHeight: int): int
  {
    Max(MIN_SCROLL_STEP, (clientHeight * 19) / 20)
  }

  /** `Math.min(beforeTop + step, maxScrollTop)`. */
  function NextScrollTop(beforeTop: int, scrollHeight: int, clientHeight: int): int
  {
    Min(beforeTop + ScrollStep(clientHeight), MaxScrollTop(scrollHeight, clientHeight))
  }

  /**
   * The step is at least 180 pixels and is the largest whole number of pixels
   * not above 95% of the viewport when that is more.
   */
  lemma ScrollStepBounds(clientHeight: nat)
    ensures ScrollStep(clientHeight) >= MIN_SCROLL_STEP
    ensures 20 * ScrollStep(clientHeight) >= 19 * clientHeight - 19
    ensures ScrollStep(clientHeight) > MIN_SCROLL_STEP ==> 20 * ScrollStep(clientHeight) <= 19 * clientHeight
  {
  }

  /**
   * The new offset never passes the bottom, never goes below zero, and either
   * advances by the full step or lands exactly on the bottom; from a position
   * at or above the bottom it never moves back.
   */
  lemma NextScrollTopIsClamped(beforeTop: nat, scrollHeight: int, clientHeight: nat)
    ensures var top := NextScrollTop(beforeTop, scrollHeight, clientHeight);
      && 0 <= top <= MaxScrollTop(scrollHeight, clientHeight)
      && (top == beforeTop + ScrollStep(clientHeight) || top == MaxScrollTop(scrollHeight, clientHeight))
      && (beforeTop <= MaxScrollTop(scrollHeight, clientHeight) ==> beforeTop <= top)
  {
  }

  /** `isNearBottom`: no scroller counts as the bottom; otherwise the viewport reaches within 4 pixels of the end. */
  predicate IsNearBottom(scroller: Scroller?)
    reads scroller
  {
    scroller == null || scroller.scrollTop + scroller.clientHeight >= scroller.scrollHeight - BOTTOM_SLACK
  }

  /** A scroll step that reaches the bottom leaves the scroller near the bottom. */
  lemma ClampedStepIsNearBottom(beforeTop: nat, scrollHeight: int, clientHeight: nat)
    requires beforeTop + ScrollStep(clientHeight) >= MaxScrollTop(scrollHeight, clientHeight)
    ensures NextScrollTop(beforeTop, scrollHeight, clientHeight) + clientHeight >= scrollHeight - BOTTOM_SLACK
  {
  }

  /**
   * The offset arithmetic of `triggerScroll`: report the offset and height
   * before, then write an offset one step down, clamped to the bottom.
   */
  method TriggerScroll(scroller: Scroller?) returns (beforeTop: int, beforeHeight: int)
    requires scroller != null ==> scroller.Valid()
    modifies scroller
    ensures scroller == null ==> beforeTop == 0 && beforeHeight == 0
    ensures scroller != null ==>
      && scroller.Valid()
      && beforeTop == old(scroller.scrollTop) && beforeHeight == old(scroller.scrollHeight)
      && scroller.scrollTop
         == Written(scroller.takesScrollWrites, beforeTop, NextScrollTop(beforeTop, beforeHeight, scroller.clientHeight))
      && scroller.scrollHeight == old(scroller.scrollHeight) && scroller.clientHeight == old(scroller.clientHeight)
  {
    beforeTop := if scroller != null then scroller.scrollTop else 0;
    beforeHeight := if scroller != null then scroller.scrollHeight else 0;
    if scroller != null {
      var maxScrollTop := MaxScrollTop(scroller.scrollHeight, scroller.clientHeight);
      var step := ScrollStep(scroller.clientHeight);
      scroller.WriteScrollTop(Min(beforeTop + step, maxScrollTop));
    }
  }

  /** Scrolling never leaves the offset further than one pixel from where it was unless the list is at its end. */
  lemma UnmovedScrollerIsNearBottom(beforeTop: nat, scrollHeight: int, clientHeight: nat)
    requires Abs(NextScrollTop(beforeTop, scrollHeight, clientHeight) - beforeTop) <= MOVE_TOLERANCE
    ensures NextScrollTop(beforeTop, scrollHeight, clientHeight) == MaxScrollTop(scrollHeight, clientHeight)
    ensures NextScrollTop(beforeTop, scrollHeight, clientHeight) + clientHeight >= scrollHeight - BOTTOM_SLACK
  {
    ScrollStepBounds(clientHeight);
  }

  /**
   * One round's `triggerScroll`, the wait after it, and the `moved` test:
   * during the wait the host may grow the list, so the height afterwards is
   * a parameter. The list moved when the offset changed by more than one
   * pixel or the height changed; a list that takes writes and did not move
   * is at its end.
   */
  method ScrollAndWait(scroller: Scroller?, heightAfterWait: nat) returns (moved: bool)
    requires scroller != null ==> scroller.Valid()
    modifies scroller
    ensures scroller == null ==> !moved
    ensures scroller != null ==>
      && scroller.Valid()
      && scroller.scrollTop == Written(scroller.takesScrollWrites, old(scroller.scrollTop),
                                       NextScrollTop(old(scroller.scrollTop), old(scroller.scrollHeight), old(scroller.clientHeight)))
      && scroller.scrollHeight == heightAfterWait && scroller.clientHeight == old(scroller.clientHeight)
      && moved == (Abs(scroller.scrollTop - old(scroller.scrollTop)) > MOVE_TOLERANCE || heightAfterWait != old(scroller.scrollHeight))
    ensures scroller != null && scroller.takesScrollWrites && !moved ==> IsNearBottom(scroller)
  {
    var beforeTop, beforeHeight := TriggerScroll(scroller);
    if scroller != null {
      scroller.scrollHeight := heightAfterWait;
      moved := Abs(scroller.scrollTop - beforeTop) > MOVE_TOLERANCE || scroller.scrollHeight != beforeHeight;
      if scroller.takesScrollWrites && !moved {
        UnmovedScrollerIsNearBottom(beforeTop, beforeHeight, scroller.clientHeight);
      }
    } else {
      moved := false;
    }
  }

  // ------------------------------------------------------ scanReactionUsers

  /** What the page shows in one round: the rows, and the list height once the wait after the scroll is over. */
  datatype HostRound = HostRound(scopedRows: seq<RowView>, dialogRows: seq<RowView>, heightAfterWait: nat)

  /**
   * The scroller as the round loop starts: whether it takes writes, its
   * offset once `scrollTop = 0` has been written, its height and its viewport.
   */
  datatype ScrollStart = ScrollStart(takesScrollWrites: bool, top: int, height: int, client: int)

  /** The scroller's starting state for a scan; none without a scroller. */
  function StartOf(scroller: Scroller?): Option<ScrollStart>
    reads scroller
  {
    if scroller == null then None
    else Some(ScrollStart(scroller.takesScrollWrites, Written(scroller.takesScrollWrites, scroller.scrollTop, 0),
                          scroller.scrollHeight, scroller.clientHeight))
  }

  /** The list height after `n` rounds: the starting height, then the height the host reported after the last wait. */
  function HeightAfter(host: nat -> HostRound, start: ScrollStart, n: nat): int
  {
    if n == 0 then start.height else host(n - 1).heightAfterWait
  }

  /** The offset after `n` rounds: each round writes one step down, clamped to the bottom of the list before the step. */
  function TopAfter(host: nat -> HostRound, start: ScrollStart, n: nat): int
  {
    if n == 0 then start.top
    else
      var before := TopAfter(host, start, n - 1);
      Written(start.takesScrollWrites, before, NextScrollTop(before, HeightAfter(host, start, n - 1), start.client))
  }

  /** The `moved` test of round `r`: the offset changed by more than a pixel, or the height changed. */
  predicate MovedIn(host: nat -> HostRound, start: ScrollStart, r: nat)
  {
    || Abs(TopAfter(host, start, r + 1) - TopAfter(host, start, r)) > MOVE_TOLERANCE
    || HeightAfter(host, start, r + 1) != HeightAfter(host, start, r)
  }

  /** `isNearBottom` after `n` rounds; true without a scroller. */
  predicate NearBottomAfter(host: nat -> HostRound, scroll: Option<ScrollStart>, n: nat)
  {
    || scroll.None?
    || TopAfter(host, scroll.value, n) + scroll.value.client >= HeightAfter(host, scroll.value, n) - BOTTOM_SLACK
  }

  /** The entries of all rounds, in the order they were parsed. */
  function Flatten(entries: seq<seq<Entry>>): seq<Entry>
  {
    if entries == [] then [] else Flatten(entries[..|entries| - 1]) + entries[|entries| - 1]
  }

  /** The number of users in the map after the first `n` rounds. */
  function SizeAfter(entries: seq<seq<Entry>>, n: nat): nat
    requires n <= |entries|
  {
    |AbsorbAll(EMPTY, Flatten(entries[..n])).keys|
  }

  /** The entry `parseRowEntry` gave for a row was parsed from a state of the same element with the same fingerprint. */
  ghost predicate BuiltFor(e: Entry, row: RowView)
  {
    exists src: RowView :: src.node == row.node && Fingerprint(src) == Fingerprint(row) && e == EntryOf(src)
  }

  /** The rows of every round played are those the host showed then, chosen as `collectRows` chooses. */
  ghost predicate RowsFromHost(host: nat -> HostRound, hasScroller: bool, rounds: seq<seq<RowView>>)
  {
    forall r :: 0 <= r < |rounds| ==>
      rounds[r] == ChosenRows(if hasScroller then host(r).scopedRows else [], host(r).dialogRows)
  }

  /** Each round's entries line up with its rows, each parsed from its row. */
  ghost predicate EntriesFromRows(rounds: seq<seq<RowView>>, entries: seq<seq<Entry>>)
  {
    && |entries| == |rounds|
    && (forall r :: 0 <= r < |rounds| ==> |entries[r]| == |rounds[r]|)
    && (forall r, k :: 0 <= r < |rounds| && 0 <= k < |rounds[r]| ==> BuiltFor(entries[r][k], rounds[r][k]))
  }

  /** Round `r` made progress: the user map grew in it, or the scroller moved in it. */
  ghost predicate RoundProgress(host: nat -> HostRound, scroll: Option<ScrollStart>, entries: seq<seq<Entry>>, r: nat)
    requires r < |entries|
  {
    SizeAfter(entries, r + 1) > SizeAfter(entries, r) || (scroll.Some? && MovedIn(host, scroll.value, r))
  }

  /** Each recorded progress flag is `RoundProgress` of its round (stated round by round from the last). */
  ghost predicate ProgressRecorded(host: nat -> HostRound, scroll: Option<ScrollStart>,
                                   entries: seq<seq<Entry>>, progress: seq<bool>)
    decreases |progress|
  {
    && |progress| <= |entries|
    && (progress != [] ==>
          && ProgressRecorded(host, scroll, entries, progress[..|progress| - 1])
          && progress[|progress| - 1] == RoundProgress(host, scroll, entries, |progress| - 1))
  }

  /** The break rules fire after round `r`. */
  ghost predicate StopsAfter(host: nat -> HostRound, scroll: Option<ScrollStart>,
                             rounds: seq<seq<RowView>>, progress: seq<bool>, r: nat)
    requires r < |rounds| && r < |progress|
  {
    StopsScan(scroll.Some?, rounds[r] == [], NearBottomAfter(host, scroll, r + 1), IdleRun(progress[..r + 1]))
  }

  /** Round `r` showed a row whose entry matches the target. */
  ghost predicate HitIn(rounds: seq<seq<RowView>>, entries: seq<seq<Entry>>, target: String, r: nat)
    requires r < |rounds| == |entries| && |entries[r]| == |rounds[r]|
  {
    FirstHit(rounds[r], entries[r], RowHit(target)).Some?
  }

  /**
   * The scan went on after each of the first `n` rounds: no break rule fired
   * after it and, when a match stops the scan, it had no match.
   */
  ghost predicate KeptGoing(host: nat -> HostRound, scroll: Option<ScrollStart>, target: String, stopWhenFound: bool,
                            rounds: seq<seq<RowView>>, entries: seq<seq<Entry>>, progress: seq<bool>, n: nat)
    decreases n
  {
    n == 0 ||
    (&& n <= |progress| && n <= |rounds| && |entries| == |rounds| && |entries[n - 1]| == |rounds[n - 1]|
     && KeptGoing(host, scroll, target, stopWhenFound, rounds, entries, progress, n - 1)
     && !StopsAfter(host, scroll, rounds, progress, n - 1)
     && !(stopWhenFound && HitIn(rounds, entries, target, n - 1)))
  }

  /** The scroller, if any, is where the history says it is after `n` rounds. */
  ghost predicate Tracks(scroller: Scroller?, host: nat -> HostRound, scroll: Option<ScrollStart>, n: nat)
    reads scroller
  {
    && (scroll.Some? <==> scroller != null)
    && (scroller != null ==>
          && scroller.Valid() && scroller.takesScrollWrites == scroll.value.takesScrollWrites
          && scroller.scrollTop == TopAfter(host, scroll.value, n)
          && scroller.scrollHeight == HeightAfter(host, scroll.value, n)
          && scroller.clientHeight == scroll.value.client)
  }

  /** The history of a scan still running after `|rounds|` rounds. */
  ghost predicate History(host: nat -> HostRound, scroll: Option<ScrollStart>, target: String, stopWhenFound: bool,
                          rounds: seq<seq<RowView>>, entries: seq<seq<Entry>>, progress: seq<bool>)
  {
    && |progress| == |rounds|
    && RowsFromHost(host, scroll.Some?, rounds) && EntriesFromRows(rounds, entries)
    && ProgressRecorded(host, scroll, entries, progress)
    && KeptGoing(host, scroll, target, stopWhenFound, rounds, entries, progress, |rounds|)
  }

  /**
   * The history of a scan that has ended, on a match when `found`: the rows
   * and entries of every round played come from the host; every round that
   * went on to scroll has its progress flag; no break rule fired before the
   * last round; a scan that ended without a match before the round limit
   * ended because the break rules fired after its last round; and when a
   * match stops the scan, no round before the last had one.
   */
  ghost predicate Ended(host: nat -> HostRound, scroll: Option<ScrollStart>, target: String, stopWhenFound: bool,
                        rounds: seq<seq<RowView>>, entries: seq<seq<Entry>>, progress: seq<bool>, found: bool)
  {
    && RowsFromHost(host, scroll.Some?, rounds) && EntriesFromRows(rounds, entries)
    && |rounds| == |progress| + (if found then 1 else 0) <= SCAN_MAX_ROUNDS
    && (forall r :: 0 <= r < |progress| ==> progress[r] == RoundProgress(host, scroll, entries, r))
    && (forall r :: 0 <= r < |progress| && r + 1 < |rounds| ==> !StopsAfter(host, scroll, rounds, progress, r))
    && (!found && |progress| < SCAN_MAX_ROUNDS ==> 0 < |progress| && StopsAfter(host, scroll, rounds, progress, |progress| - 1))
    && (stopWhenFound ==> forall r :: 0 <= r < |progress| ==> !HitIn(rounds, entries, target, r))
  }

  /** The stagnation counter after a round: back to zero on a new user or movement, one more otherwise. */
  function NextStagnation(stagnant: nat, newSeen: nat, moved: bool): nat
  {
    if newSeen > 0 || moved then 0 else stagnant + 1
  }

  /** The three break rules of the round loop. */
  predicate StopsScan(hasScroller: bool, rowsEmpty: bool, nearBottom: bool, stagnant: nat)
  {
    (!hasScroller && stagnant >= BLIND_BREAK_ROUNDS)
    || (rowsEmpty && stagnant >= BLIND_BREAK_ROUNDS)
    || (nearBottom && stagnant >= SCAN_IDLE_BREAK_ROUNDS)
  }

  /** The number of rounds at the end of the history that made no progress. */
  function IdleRun(progress: seq<bool>): (n: nat)
    ensures n <= |progress|
  {
    if progress == [] || progress[|progress| - 1] then 0 else IdleRun(progress[..|progress| - 1]) + 1
  }

  /** The counter is the length of the current run of rounds without progress. */
  lemma NextStagnationCountsIdleRounds(progress: seq<bool>, newSeen: nat, moved: bool)
    ensures NextStagnation(IdleRun(progress), newSeen, moved) == IdleRun(progress + [newSeen > 0 || moved])
  {
    assert (progress + [newSeen > 0 || moved])[..|progress|] == progress;
  }

  /** The idle run is at least `k` exactly when the last `k` rounds all made no progress. */
  lemma {:induction false} IdleRunMeans(progress: seq<bool>, k: nat)
    ensures IdleRun(progress) >= k <==> k <= |progress| && forall j :: |progress| - k <= j < |progress| ==> !progress[j]
  {
    if progress != [] && k > 0 {
      var init := progress[..|progress| - 1];
      IdleRunMeans(init, k - 1);
      assert forall j :: 0 <= j < |init| ==> init[j] == progress[j];
    }
  }

  /** Without a scroller, six rounds in a row without a new user stop the scan. */
  lemma BlindScanStopsAfterSixIdleRounds(progress: seq<bool>, rowsEmpty: bool, nearBottom: bool)
    requires |progress| >= BLIND_BREAK_ROUNDS
    requires forall j :: |progress| - BLIND_BREAK_ROUNDS <= j < |progress| ==> !progress[j]
    ensures StopsScan(false, rowsEmpty, nearBottom, IdleRun(progress))
  {
    IdleRunMeans(progress, BLIND_BREAK_ROUNDS);
  }

  /** Near the bottom, twelve rounds in a row without new users or movement stop the scan. */
  lemma BottomScanStopsAfterTwelveIdleRounds(progress: seq<bool>, hasScroller: bool, rowsEmpty: bool)
    requires |progress| >= SCAN_IDLE_BREAK_ROUNDS
    requires forall j :: |progress| - SCAN_IDLE_BREAK_ROUNDS <= j < |progress| ==> !progress[j]
    ensures StopsScan(hasScroller, rowsEmpty, true, IdleRun(progress))
  {
    IdleRunMeans(progress, SCAN_IDLE_BREAK_ROUNDS);
  }

  /** A round that found a new user or moved the list never stops the scan. */
  lemma ProgressNeverStops(progress: seq<bool>, hasScroller: bool, rowsEmpty: bool, nearBottom: bool)
    requires progress != [] && progress[|progress| - 1]
    ensures !StopsScan(hasScroller, rowsEmpty, nearBottom, IdleRun(progress))
  {
  }

  /**
   * The round loop of `scanReactionUsers`, with the page given round by
   * round by `host`. The scroller, if any, is first sent back to the top;
   * each round collects the rows the host shows, returns at once when a
   * match is wanted and seen, scrolls, lets the host settle the list height,
   * updates the stagnation counter, and applies the break rules. The ghost
   * results record the run: the scroller's start, the rows and entries of
   * each round played, and which rounds made progress.
   */
  method ScanReactionUsers(cache: RowEntryCache, scroller: Scroller?, host: nat -> HostRound,
                           target: String, stopWhenFound: bool)
    returns (foundRow: Option<RowView>, userMap: UserMap, ghost scroll: Option<ScrollStart>,
             ghost rounds: seq<seq<RowView>>, ghost entries: seq<seq<Entry>>, ghost progress: seq<bool>)
    requires cache.Valid()
    requires scroller != null ==> scroller.Valid()
    requires forall r :: DistinctNodes(host(r).scopedRows) && DistinctNodes(host(r).dialogRows)
    modifies cache, scroller
    ensures fresh(userMap) && userMap.Valid() && cache.Valid()
    ensures scroll == old(StartOf(scroller))
    ensures userMap.Contents() == AbsorbAll(EMPTY, Flatten(entries))
    ensures Ended(host, scroll, NormalizeForMatch(target), stopWhenFound, rounds, entries, progress, foundRow.Some?)
    ensures foundRow.Some? ==>
      && stopWhenFound && NormalizeForMatch(target) != []
      && foundRow == FirstHit(rounds[|progress|], entries[|progress|], RowHit(NormalizeForMatch(target)))
      && Found(cache.slots, foundRow.value, NormalizeForMatch(target))
  {
    foundRow, userMap, scroll, rounds, entries, progress :=
      ScanRounds(cache, scroller, host, NormalizeForMatch(target), stopWhenFound);
  }

  /**
   * The loop of `scanReactionUsers` for an already normalised query: reset
   * the scroller to the top, then play rounds until a wanted match, the
   * break rules or the round limit ends the scan.
   */
  method ScanRounds(cache: RowEntryCache, scroller: Scroller?, host: nat -> HostRound,
                   query: String, stopWhenFound: bool)
    returns (foundRow: Option<RowView>, userMap: UserMap, ghost scroll: Option<ScrollStart>,
             ghost rounds: seq<seq<RowView>>, ghost entries: seq<seq<Entry>>, ghost progress: seq<bool>)
    requires cache.Valid()
    requires scroller != null ==> scroller.Valid()
    requires forall r :: DistinctNodes(host(r).scopedRows) && DistinctNodes(host(r).dialogRows)
    modifies cache, scroller
    ensures fresh(userMap) && userMap.Valid() && cache.Valid()
    ensures scroll == old(StartOf(scroller))
    ensures userMap.Contents() == AbsorbAll(EMPTY, Flatten(entries))
    ensures Ended(host, scroll, query, stopWhenFound, rounds, entries, progress, foundRow.Some?)
    ensures foundRow.Some? ==>
      && stopWhenFound && query != []
      && foundRow == FirstHit(rounds[|progress|], entries[|progress|], RowHit(query))
      && Found(cache.slots, foundRow.value, query)
  {
    userMap := new UserMap();
    var stagnantRounds := 0;
    scroll := StartOf(scroller);
    rounds, entries, progress := [], [], [];
    if scroller != null {
      scroller.WriteScrollTop(0);
    }
    var i := 0;
    while i < SCAN_MAX_ROUNDS
      invariant 0 <= i <= SCAN_MAX_ROUNDS && |rounds| == i
      invariant fresh(userMap) && userMap.Valid() && cache.Valid()
      invariant Tracks(scroller, host, scroll, i)
      invariant History(host, scroll, query, stopWhenFound, rounds, entries, progress)
      invariant userMap.Contents() == AbsorbAll(EMPTY, Flatten(entries))
      invariant stagnantRounds == IdleRun(progress)
    {
      var rows, matched, stop;
      rows, matched, stop, stagnantRounds, rounds, entries, progress :=
        PlayRound(cache, scroller, host, i, query, stopWhenFound, userMap, stagnantRounds,
                  scroll, rounds, entries, progress);
      if matched.Some? && stopWhenFound {
        return matched, userMap, scroll, rounds, entries, progress;
      }
      if stop {
        return None, userMap, scroll, rounds, entries, progress;
      }
      i := i + 1;
    }
    EndAtLimit(host, scroll, query, stopWhenFound, rounds, entries, progress);
    foundRow := None;
  }

  /**
   * One round of the loop up to its break rules: collect the rows the host
   * shows in round `i`; when a match is wanted and seen, the scan ends
   * there; otherwise scroll, wait and update the stagnation counter, after
   * which the scan has either ended on the break rules or goes on.
   */
  method PlayRound(cache: RowEntryCache, scroller: Scroller?, host: nat -> HostRound, i: nat, target: String,
                   stopWhenFound: bool, userMap: UserMap, stagnantRounds: nat, ghost scroll: Option<ScrollStart>,
                   ghost rounds: seq<seq<RowView>>, ghost entries: seq<seq<Entry>>, ghost progress: seq<bool>)
    returns (rows: seq<RowView>, matched: Option<RowView>, stop: bool, stagnant: nat,
             ghost rounds': seq<seq<RowView>>, ghost entries': seq<seq<Entry>>, ghost progress': seq<bool>)
    requires i < SCAN_MAX_ROUNDS && |rounds| == i
    requires cache.Valid() && userMap.Valid()
    requires DistinctNodes(host(i).scopedRows) && DistinctNodes(host(i).dialogRows)
    requires Tracks(scroller, host, scroll, i)
    requires History(host, scroll, target, stopWhenFound, rounds, entries, progress)
    requires userMap.Contents() == AbsorbAll(EMPTY, Flatten(entries))
    requires stagnantRounds == IdleRun(progress)
    modifies cache, userMap, scroller
    ensures cache.Valid() && userMap.Valid() && userMap.Contents() == AbsorbAll(EMPTY, Flatten(entries'))
    ensures |rounds'| == i + 1
    ensures matched.Some? && stopWhenFound ==>
      && Ended(host, scroll, target, stopWhenFound, rounds', entries', progress', true)
      && |progress'| == i && target != []
      && matched == FirstHit(rounds'[i], entries'[i], RowHit(target)) && Found(cache.slots, matched.value, target)
    ensures !(matched.Some? && stopWhenFound) ==>
      && Tracks(scroller, host, scroll, i + 1) && stagnant == IdleRun(progress')
      && stop == StopsScan(scroller != null, rows == [], IsNearBottom(scroller), stagnant)
      && (stop ==> Ended(host, scroll, target, stopWhenFound, rounds', entries', progress', false))
      && (!stop ==> History(host, scroll, target, stopWhenFound, rounds', entries', progress'))
  {
    var newSeen;
    rows, matched, newSeen, rounds', entries' :=
      CollectRound(cache, scroller != null, host, i, target, userMap, scroll, rounds, entries, progress);
    KeptGoingExtends(host, scroll, target, stopWhenFound, rounds, entries, progress, rounds', entries', progress, i);
    progress', stop, stagnant := progress, true, stagnantRounds;
    if matched.Some? && stopWhenFound {
      EndOnMatch(host, scroll, target, stopWhenFound, rounds', entries', progress);
      return;
    }
    stop, stagnant, progress' := FinishRound(scroller, host, i, target, stopWhenFound, rows, newSeen, stagnantRounds,
                                       scroll, rounds', entries', progress);
  }

  /**
   * The second half of a round that saw no wanted match: scroll and wait,
   * record whether the round made progress and update the stagnation
   * counter; the break rules then say whether the scan has ended.
   */
  method FinishRound(scroller: Scroller?, host: nat -> HostRound, i: nat, target: String, stopWhenFound: bool,
                     rows: seq<RowView>, newSeen: nat, stagnantRounds: nat, ghost scroll: Option<ScrollStart>,
                     ghost rounds: seq<seq<RowView>>, ghost entries: seq<seq<Entry>>, ghost progress: seq<bool>)
    returns (stop: bool, stagnant: nat, ghost progress': seq<bool>)
    requires i < SCAN_MAX_ROUNDS && |progress| == i && |rounds| == i + 1 && rows == rounds[i]
    requires Tracks(scroller, host, scroll, i)
    requires RowsFromHost(host, scroll.Some?, rounds) && EntriesFromRows(rounds, entries)
    requires ProgressRecorded(host, scroll, entries, progress)
    requires KeptGoing(host, scroll, target, stopWhenFound, rounds, entries, progress, i)
    requires (newSeen > 0) == (SizeAfter(entries, i + 1) > SizeAfter(entries, i))
    requires !(stopWhenFound && HitIn(rounds, entries, target, i))
    requires stagnantRounds == IdleRun(progress)
    modifies scroller
    ensures Tracks(scroller, host, scroll, i + 1) && stagnant == IdleRun(progress')
    ensures stop == StopsScan(scroller != null, rows == [], IsNearBottom(scroller), stagnant)
    ensures stop ==> Ended(host, scroll, target, stopWhenFound, rounds, entries, progress', false)
    ensures !stop ==> History(host, scroll, target, stopWhenFound, rounds, entries, progress')
  {
    var moved := ScrollRound(scroller, host, scroll, i);
    RecordScroll(host, scroll, target, stopWhenFound, rounds, entries, progress, i, newSeen, moved, IsNearBottom(scroller));
    NextStagnationCountsIdleRounds(progress, newSeen, moved);
    stagnant := NextStagnation(stagnantRounds, newSeen, moved);
    progress' := progress + [newSeen > 0 || moved];
    stop := StopsScan(scroller != null, rows == [], IsNearBottom(scroller), stagnant);
    if stop {
      EndOnBreak(host, scroll, target, stopWhenFound, rounds, entries, progress');
    }
  }

  /**
   * One round's `collectRows` over the rows the host shows in round `i`,
   * recorded in the history: the rows and entries of the round are
   * appended, the user map is the one built over all rounds so far, and
   * `newSeen` counts exactly the map's growth.
   */
  method CollectRound(cache: RowEntryCache, hasScroller: bool, host: nat -> HostRound, i: nat, target: String,
                      userMap: UserMap, ghost scroll: Option<ScrollStart>,
                      ghost rounds: seq<seq<RowView>>, ghost entries: seq<seq<Entry>>, ghost progress: seq<bool>)
    returns (rows: seq<RowView>, matched: Option<RowView>, newSeen: nat,
             ghost rounds': seq<seq<RowView>>, ghost entries': seq<seq<Entry>>)
    requires cache.Valid() && userMap.Valid()
    requires DistinctNodes(host(i).scopedRows) && DistinctNodes(host(i).dialogRows)
    requires scroll.Some? == hasScroller && |rounds| == i
    requires RowsFromHost(host, hasScroller, rounds) && EntriesFromRows(rounds, entries)
    requires userMap.Contents() == AbsorbAll(EMPTY, Flatten(entries))
    requires ProgressRecorded(host, scroll, entries, progress) && |progress| == |rounds|
    modifies cache, userMap
    ensures cache.Valid() && userMap.Valid()
    ensures rounds' == rounds + [rows] && entries <= entries' && |entries'| == |entries| + 1
    ensures RowsFromHost(host, hasScroller, rounds') && EntriesFromRows(rounds', entries')
    ensures userMap.Contents() == AbsorbAll(EMPTY, Flatten(entries'))
    ensures ProgressRecorded(host, scroll, entries', progress)
    ensures (newSeen > 0) == (SizeAfter(entries', i + 1) > SizeAfter(entries', i))
    ensures matched == FirstHit(rows, entries'[i], RowHit(target)) && matched.Some? == HitIn(rounds', entries', target, i)
    ensures matched.Some? ==> target != [] && Found(cache.slots, matched.value, target)
  {
    var round := host(i);
    ghost var before := userMap.Contents();
    ghost var last;
    rows, matched, newSeen, last := CollectRows(cache, if hasScroller then round.scopedRows else [],
                                                round.dialogRows, target, userMap);
    EntriesBuiltFor(cache, rows, last);
    RecordRound(host, hasScroller, scroll, target, rounds, entries, progress, rows, last, matched,
                before, userMap.Contents(), newSeen);
    rounds', entries' := rounds + [rows], entries + [last];
  }

  /**
   * One round's scroll and wait, with the scroller where the history says
   * it is after `i` rounds: afterwards it is where the history says it is
   * after `i + 1`, `moved` is the history's `moved` test for round `i`, and
   * `isNearBottom` agrees with the history.
   */
  method ScrollRound(scroller: Scroller?, host: nat -> HostRound, ghost scroll: Option<ScrollStart>, i: nat)
    returns (moved: bool)
    requires Tracks(scroller, host, scroll, i)
    modifies scroller
    ensures Tracks(scroller, host, scroll, i + 1)
    ensures moved == (scroll.Some? && MovedIn(host, scroll.value, i))
    ensures IsNearBottom(scroller) == NearBottomAfter(host, scroll, i + 1)
  {
    moved := ScrollAndWait(scroller, host(i).heightAfterWait);
  }

  /** Every entry `collectRows` returns was parsed from its row, whether fresh or from the memo. */
  lemma EntriesBuiltFor(cache: RowEntryCache, rows: seq<RowView>, entries: seq<Entry>)
    requires cache.Valid() && |entries| == |rows|
    requires forall k {:trigger Holds(cache.slots, rows[k], entries[k])} :: 0 <= k < |rows| ==> Holds(cache.slots, rows[k], entries[k])
    ensures forall k :: 0 <= k < |rows| ==> BuiltFor(entries[k], rows[k])
  {
    forall k | 0 <= k < |rows| ensures BuiltFor(entries[k], rows[k]) {
      assert Holds(cache.slots, rows[k], entries[k]);
      cache.SlotIsBuiltFromItsNode(rows[k].node);
      var src := cache.sources[rows[k].node];
      assert src.node == rows[k].node && Fingerprint(src) == Fingerprint(rows[k]) && entries[k] == EntryOf(src);
    }
  }

  /** Adding a round appends its entries and leaves the sizes after the earlier rounds alone. */
  lemma FlattenSnoc(entries: seq<seq<Entry>>, last: seq<Entry>)
    ensures Flatten(entries + [last]) == Flatten(entries) + last
    ensures forall n :: 0 <= n <= |entries| ==> SizeAfter(entries + [last], n) == SizeAfter(entries, n)
    ensures SizeAfter(entries + [last], |entries| + 1) == |AbsorbAll(EMPTY, Flatten(entries) + last).keys|
    ensures SizeAfter(entries, |entries|) == |AbsorbAll(EMPTY, Flatten(entries)).keys|
  {
    var more := entries + [last];
    assert more[..|entries|] == entries;
    assert more[..|more|] == more && entries[..|entries|] == entries;
    forall n | 0 <= n <= |entries| ensures SizeAfter(more, n) == SizeAfter(entries, n) {
      assert more[..n] == entries[..n];
    }
  }

  /** Recording a round's rows and entries keeps the history faithful to the host. */
  lemma RecordRows(host: nat -> HostRound, hasScroller: bool, rounds: seq<seq<RowView>>,
                   entries: seq<seq<Entry>>, rows: seq<RowView>, last: seq<Entry>)
    requires RowsFromHost(host, hasScroller, rounds) && EntriesFromRows(rounds, entries)
    requires rows == ChosenRows(if hasScroller then host(|rounds|).scopedRows else [], host(|rounds|).dialogRows)
    requires |last| == |rows| && forall k :: 0 <= k < |rows| ==> BuiltFor(last[k], rows[k])
    ensures RowsFromHost(host, hasScroller, rounds + [rows]) && EntriesFromRows(rounds + [rows], entries + [last])
  {
    var rounds', entries' := rounds + [rows], entries + [last];
    forall r, k | 0 <= r < |rounds'| && 0 <= k < |rounds'[r]| ensures BuiltFor(entries'[r][k], rounds'[r][k]) {
      if r < |rounds| {
        assert rounds'[r] == rounds[r] && entries'[r] == entries[r];
      }
    }
  }

  /**
   * The history after a round that turned `rows` into the entries `last`:
   * the round is recorded, the map holds every entry of the history,
   * `newSeen` is the round's growth of the map and `matched` is the round's
   * first hit.
   */
  lemma RecordRound(host: nat -> HostRound, hasScroller: bool, scroll: Option<ScrollStart>, target: String,
                    rounds: seq<seq<RowView>>, entries: seq<seq<Entry>>, progress: seq<bool>,
                    rows: seq<RowView>, last: seq<Entry>, matched: Option<RowView>,
                    before: Table, after: Table, newSeen: nat)
    requires RowsFromHost(host, hasScroller, rounds) && EntriesFromRows(rounds, entries)
    requires ProgressRecorded(host, scroll, entries, progress)
    requires rows == ChosenRows(if hasScroller then host(|rounds|).scopedRows else [], host(|rounds|).dialogRows)
    requires |last| == |rows| && forall k :: 0 <= k < |rows| ==> BuiltFor(last[k], rows[k])
    requires before == AbsorbAll(EMPTY, Flatten(entries)) && after == AbsorbAll(before, last)
    requires |after.keys| == |before.keys| + newSeen
    requires matched == FirstHit(rows, last, RowHit(target))
    ensures var rounds', entries' := rounds + [rows], entries + [last];
      && RowsFromHost(host, hasScroller, rounds') && EntriesFromRows(rounds', entries')
      && after == AbsorbAll(EMPTY, Flatten(entries'))
      && ProgressRecorded(host, scroll, entries', progress)
      && (newSeen > 0) == (SizeAfter(entries', |rounds| + 1) > SizeAfter(entries', |rounds|))
      && matched == FirstHit(rows, entries'[|rounds|], RowHit(target))
      && matched.Some? == HitIn(rounds', entries', target, |rounds|)
  {
    RecordRows(host, hasScroller, rounds, entries, rows, last);
    AbsorbAllConcat(EMPTY, Flatten(entries), last);
    FlattenSnoc(entries, last);
    ProgressRecordedExtends(host, scroll, entries, entries + [last], progress);
  }

  /** The map's size after each of the first `|entries|` rounds stays the same when more rounds are added. */
  lemma SizeAfterExtends(entries: seq<seq<Entry>>, entries': seq<seq<Entry>>)
    requires entries <= entries'
    ensures forall n :: 0 <= n <= |entries| ==> SizeAfter(entries', n) == SizeAfter(entries, n)
  {
    forall n | 0 <= n <= |entries| ensures SizeAfter(entries', n) == SizeAfter(entries, n) {
      assert entries'[..n] == entries[..n];
    }
  }

  /** Adding rounds leaves the recorded progress of the earlier rounds true. */
  lemma {:induction false} ProgressRecordedExtends(host: nat -> HostRound, scroll: Option<ScrollStart>,
                                                   entries: seq<seq<Entry>>, entries': seq<seq<Entry>>, progress: seq<bool>)
    requires entries <= entries' && ProgressRecorded(host, scroll, entries, progress)
    ensures ProgressRecorded(host, scroll, entries', progress)
  {
    if progress != [] {
      ProgressRecordedExtends(host, scroll, entries, entries', progress[..|progress| - 1]);
      SizeAfterExtends(entries, entries');
    }
  }

  /** The recorded progress, round by round: each flag is `RoundProgress` of its round. */
  lemma {:induction false} ProgressRecordedMeans(host: nat -> HostRound, scroll: Option<ScrollStart>,
                                                 entries: seq<seq<Entry>>, progress: seq<bool>)
    requires ProgressRecorded(host, scroll, entries, progress)
    ensures forall r :: 0 <= r < |progress| ==> r < |entries| && progress[r] == RoundProgress(host, scroll, entries, r)
  {
    if progress != [] {
      var init := progress[..|progress| - 1];
      ProgressRecordedMeans(host, scroll, entries, init);
      assert forall r :: 0 <= r < |init| ==> init[r] == progress[r];
    }
  }

  /**
   * Recording a round that went on to scroll: its progress flag is
   * `RoundProgress`; the break rules fire after it exactly when the loop's
   * own test, on the counter and the scroller as they are then, says so;
   * and when they do not, the scan went on after it.
   */
  lemma RecordScroll(host: nat -> HostRound, scroll: Option<ScrollStart>, target: String, stopWhenFound: bool,
                     rounds: seq<seq<RowView>>, entries: seq<seq<Entry>>, progress: seq<bool>, i: nat,
                     newSeen: nat, moved: bool, nearBottom: bool)
    requires |progress| == i && |rounds| == i + 1 && |entries| == i + 1 && |entries[i]| == |rounds[i]|
    requires ProgressRecorded(host, scroll, entries, progress)
    requires KeptGoing(host, scroll, target, stopWhenFound, rounds, entries, progress, i)
    requires (newSeen > 0) == (SizeAfter(entries, i + 1) > SizeAfter(entries, i))
    requires moved == (scroll.Some? && MovedIn(host, scroll.value, i))
    requires nearBottom == NearBottomAfter(host, scroll, i + 1)
    requires !(stopWhenFound && HitIn(rounds, entries, target, i))
    ensures var progress' := progress + [newSeen > 0 || moved];
      && ProgressRecorded(host, scroll, entries, progress')
      && KeptGoing(host, scroll, target, stopWhenFound, rounds, entries, progress', i)
      && StopsAfter(host, scroll, rounds, progress', i) == StopsScan(scroll.Some?, rounds[i] == [], nearBottom, IdleRun(progress'))
      && (!StopsAfter(host, scroll, rounds, progress', i) ==> KeptGoing(host, scroll, target, stopWhenFound, rounds, entries, progress', i + 1))
  {
    var progress' := progress + [newSeen > 0 || moved];
    assert progress'[..i] == progress && progress'[..i + 1] == progress';
    KeptGoingExtends(host, scroll, target, stopWhenFound, rounds, entries, progress, rounds, entries, progress', i);
  }

  /** A scan that ends on a match in the round after those recorded. */
  lemma EndOnMatch(host: nat -> HostRound, scroll: Option<ScrollStart>, target: String, stopWhenFound: bool,
                   rounds: seq<seq<RowView>>, entries: seq<seq<Entry>>, progress: seq<bool>)
    requires |rounds| == |progress| + 1 <= SCAN_MAX_ROUNDS
    requires RowsFromHost(host, scroll.Some?, rounds) && EntriesFromRows(rounds, entries)
    requires ProgressRecorded(host, scroll, entries, progress)
    requires KeptGoing(host, scroll, target, stopWhenFound, rounds, entries, progress, |progress|)
    ensures Ended(host, scroll, target, stopWhenFound, rounds, entries, progress, true)
  {
    KeptGoingMeans(host, scroll, target, stopWhenFound, rounds, entries, progress, |progress|);
    ProgressRecordedMeans(host, scroll, entries, progress);
  }

  /** A scan that ends because the break rules fired after its last round. */
  lemma EndOnBreak(host: nat -> HostRound, scroll: Option<ScrollStart>, target: String, stopWhenFound: bool,
                   rounds: seq<seq<RowView>>, entries: seq<seq<Entry>>, progress: seq<bool>)
    requires 0 < |rounds| == |progress| <= SCAN_MAX_ROUNDS
    requires RowsFromHost(host, scroll.Some?, rounds) && EntriesFromRows(rounds, entries)
    requires ProgressRecorded(host, scroll, entries, progress)
    requires KeptGoing(host, scroll, target, stopWhenFound, rounds, entries, progress, |rounds| - 1)
    requires StopsAfter(host, scroll, rounds, progress, |rounds| - 1)
    requires !(stopWhenFound && HitIn(rounds, entries, target, |rounds| - 1))
    ensures Ended(host, scroll, target, stopWhenFound, rounds, entries, progress, false)
  {
    var last := |rounds| - 1;
    assert last == |progress| - 1;
    assert StopsAfter(host, scroll, rounds, progress, last);
    assert StopsAfter(host, scroll, rounds, progress, |progress| - 1);
    KeptGoingMeans(host, scroll, target, stopWhenFound, rounds, entries, progress, last);
    ProgressRecordedMeans(host, scroll, entries, progress);
    if stopWhenFound {
      forall r | 0 <= r < |progress|
        ensures !HitIn(rounds, entries, target, r)
      {
        if r < last {
        } else {
          assert r == last;
        }
      }
    }
  }

  /** A scan that played every round allowed. */
  lemma EndAtLimit(host: nat -> HostRound, scroll: Option<ScrollStart>, target: String, stopWhenFound: bool,
                   rounds: seq<seq<RowView>>, entries: seq<seq<Entry>>, progress: seq<bool>)
    requires |rounds| == SCAN_MAX_ROUNDS
    requires History(host, scroll, target, stopWhenFound, rounds, entries, progress)
    ensures Ended(host, scroll, target, stopWhenFound, rounds, entries, progress, false)
  {
    KeptGoingMeans(host, scroll, target, stopWhenFound, rounds, entries, progress, |rounds|);
    ProgressRecordedMeans(host, scroll, entries, progress);
  }

  /** Extending the history keeps true that the scan went on after each of the first `n` rounds. */
  lemma {:induction false} KeptGoingExtends(host: nat -> HostRound, scroll: Option<ScrollStart>, target: String,
                                            stopWhenFound: bool, rounds: seq<seq<RowView>>, entries: seq<seq<Entry>>,
                                            progress: seq<bool>, rounds': seq<seq<RowView>>,
                                            entries': seq<seq<Entry>>, progress': seq<bool>, n: nat)
    requires rounds <= rounds' && entries <= entries' && progress <= progress' && |entries'| == |rounds'|
    requires KeptGoing(host, scroll, target, stopWhenFound, rounds, entries, progress, n)
    ensures KeptGoing(host, scroll, target, stopWhenFound, rounds', entries', progress', n)
  {
    if n > 0 {
      KeptGoingExtends(host, scroll, target, stopWhenFound, rounds, entries, progress, rounds', entries', progress', n - 1);
      assert rounds'[n - 1] == rounds[n - 1] && entries'[n - 1] == entries[n - 1];
      assert progress'[..n] == progress[..n];
    }
  }

  /** The scan going on after each of the first `n` rounds, round by round. */
  lemma {:induction false} KeptGoingMeans(host: nat -> HostRound, scroll: Option<ScrollStart>, target: String,
                                          stopWhenFound: bool, rounds: seq<seq<RowView>>, entries: seq<seq<Entry>>,
                                          progress: seq<bool>, n: nat)
    requires KeptGoing(host, scroll, target, stopWhenFound, rounds, entries, progress, n)
    ensures forall r :: 0 <= r < n ==> r < |progress| && r < |rounds| && !StopsAfter(host, scroll, rounds, progress, r)
    ensures stopWhenFound ==> forall r :: 0 <= r < n ==>
      r < |rounds| == |entries| && |entries[r]| == |rounds[r]| && !HitIn(rounds, entries, target, r)
  {
    if n > 0 {
      KeptGoingMeans(host, scroll, target, stopWhenFound, rounds, entries, progress, n - 1);
    }
  }

  /** A row reported by `collectRows` is one whose memo slot holds an entry matching the non-empty target. */
  lemma FoundRowMatches(rows: seq<RowView>, entries: seq<Entry>, target: String, slots: map<NodeId, CacheSlot>)
    requires |entries| == |rows|
    requires forall k {:trigger Holds(slots, rows[k], entries[k])} :: 0 <= k < |rows| ==> Holds(slots, rows[k], entries[k])
    requires FirstHit(rows, entries, RowHit(target)).Some?
    ensures target != []
    ensures Found(slots, FirstHit(rows, entries, RowHit(target)).value, target)
  {
    var i := FirstHitIndex(rows, entries, RowHit(target));
    assert Holds(slots, rows[i], entries[i]);
  }
}
