/**
 * The panel's cache of a completed scan. The panel keeps the last user list,
 * the last complete user map and the fingerprint of the reaction tab they were
 * collected on, so that a search can be answered from the map instead of
 * scrolling again. Before every run, `syncCacheWithActiveReaction` throws the
 * cache away when the selected reaction has visibly changed.
 *
 * The scans themselves (`scanReactionUsers`) are parameters here: their
 * outcome, or `None` when they throw, is handed to the run that awaits them.
 */
module ReactionCache {
  import opened Text
  import opened Wrappers
  import opened EntryExtractor
  import opened UserMaps
  import opened MatchEngine

  /** The `[aria-selected="true"]` element of the dialog; an absent attribute or text is the empty string. */
  datatype SelectedTab = SelectedTab(ariaLabel: String, innerText: String, textContent: String)

  /** `getAttribute('aria-label') || innerText || textContent || ''`: the first non-empty of the three. */
  function TabLabel(tab: SelectedTab): String
  {
    if tab.ariaLabel != [] then tab.ariaLabel
    else if tab.innerText != [] then tab.innerText
    else tab.textContent
  }

  /**
   * `getActiveReactionFingerprint`: the normalized label of the selected tab,
   * or the empty string when no tab is selected or its label is blank.
   */
  function ActiveReactionFingerprint(selected: Option<SelectedTab>): String
  {
    if selected.None? then [] else Normalize(TabLabel(selected.value))
  }

  /**
   * A fingerprint is always in `normalize`'s output form, and it is unknown
   * (empty) exactly when no tab is selected or the selected tab's label is blank.
   */
  lemma FingerprintIsNormalized(selected: Option<SelectedTab>)
    ensures IsNormalized(ActiveReactionFingerprint(selected))
    ensures ActiveReactionFingerprint(selected) == [] <==> selected.None? || AllSpace(TabLabel(selected.value))
  {
    if selected.Some? {
      NormalizeIsNormalized(TabLabel(selected.value));
      NormalizeEmptyIffBlank(TabLabel(selected.value));
    }
  }

  /** Two tabs whose labels differ only in letter case have the same fingerprint. */
  lemma FingerprintIgnoresCase(a: SelectedTab, b: SelectedTab)
    requires Lower(TabLabel(a)) == Lower(TabLabel(b))
    ensures ActiveReactionFingerprint(Some(a)) == ActiveReactionFingerprint(Some(b))
  {
    NormalizeIgnoresCase(TabLabel(a), TabLabel(b));
  }

  /**
   * The reset rule: the cache goes only when both fingerprints are known and
   * they differ. An unknown fingerprint, on either side, never clears it.
   */
  predicate Invalidates(cachedFp: String, currentFp: String)
  {
    cachedFp != [] && currentFp != [] && cachedFp != currentFp
  }

  /** What a search scan hands back: whether the target was found, and the users seen. */
  datatype ScanResult = ScanResult(found: bool, userMap: Table)

  /** What `findUser` returns to the panel. */
  datatype FindResult = FindResult(list: seq<String>, userMap: Table, complete: bool)

  /**
   * `findUser` as the panel sees it: a blank keyword gives an empty,
   * incomplete result; a non-empty cached map answers without scrolling and
   * counts as complete; otherwise the scan decides, and its map is complete
   * only when the target was not found (the scan then ran to the end).
   * `None` is a scan that threw.
   */
  function FindUser(cached: Table, keyword: String, scan: Option<ScanResult>): (r: Option<FindResult>)
    requires WellFormed(cached)
    requires scan.Some? ==> WellFormed(scan.value.userMap)
    ensures r.Some? ==> WellFormed(r.value.userMap)
  {
    if Trim(keyword) == [] then Some(FindResult([], EMPTY, false))
    else if cached.keys != [] then Some(FindResult(FormatUserList(ValuesOf(cached)), cached, true))
    else if scan.None? then None
    else
      var m := scan.value.userMap;
      Some(FindResult(FormatUserList(ValuesOf(m)), m, !scan.value.found))
  }

  /**
   * What `findUser` promises the panel: it fails only when it had to scan and
   * the scan threw; the list it returns is always the numbered listing of the
   * map it returns; and a complete map for a real keyword is the cached map
   * when there was one, the scanned map otherwise.
   */
  lemma FindUserListsItsMap(cached: Table, keyword: String, scan: Option<ScanResult>)
    requires WellFormed(cached)
    requires scan.Some? ==> WellFormed(scan.value.userMap)
    ensures var r := FindUser(cached, keyword, scan);
      && (r.None? <==> Trim(keyword) != [] && cached.keys == [] && scan.None?)
      && (r.Some? ==> r.value.list == FormatUserList(ValuesOf(r.value.userMap)))
      && (r.Some? && r.value.complete && Trim(keyword) != [] ==>
            r.value.userMap == (if cached.keys != [] then cached else scan.value.userMap))
  {
    if Trim(keyword) == [] {
      assert ValuesOf(EMPTY) == [];
    }
  }

  /** The list area shows the cached list one line per user. */
  const NEWLINE: String := "\n"

  /** The closure state of the panel mounted on one Reactions dialog. */
  class ReactionPanel {
    var running: bool
    var cachedList: seq<String>
    var cachedUserMap: Table
    var cachedFingerprint: String
    /** `listArea.value`. */
    var listText: String
    /** `listArea.style.display` is `'block'`. */
    var listShown: bool
    /** The fingerprint current when `cachedUserMap` was collected; empty when it was unknown. */
    ghost var origin: String

    /**
     * The cached map is well-formed, and a cached map collected on a known
     * reaction is labelled with that reaction.
     */
    ghost predicate Valid()
      reads this`cachedUserMap, this`cachedFingerprint, this`origin
    {
      && WellFormed(cachedUserMap)
      && (cachedUserMap.keys != [] && origin != [] ==> origin == cachedFingerprint)
    }

    /** The cached map may be used for the reaction `currentFp`: it is empty, of unknown origin, or collected on it. */
    ghost predicate UsableFor(currentFp: String)
      reads this`cachedUserMap, this`origin
    {
      currentFp != [] && cachedUserMap.keys != [] && origin != [] ==> origin == currentFp
    }

    /** The cached state and the list area are the given ones. */
    ghost predicate Same(list: seq<String>, userMap: Table, fp: String, text: String, shown: bool)
      reads this
    {
      cachedList == list && cachedUserMap == userMap && cachedFingerprint == fp && listText == text && listShown == shown
    }

    constructor()
      ensures Valid()
      ensures !running && cachedList == [] && cachedUserMap == EMPTY && cachedFingerprint == []
      ensures listText == [] && !listShown
    {
      running := false;
      cachedList := [];
      cachedUserMap := EMPTY;
      cachedFingerprint := [];
      listText := [];
      listShown := false;
      origin := [];
    }

    /**
     * `syncCacheWithActiveReaction`: reads the current fingerprint and, when it
     * invalidates the cached one, empties the cached list and map and hides the
     * list area. The cached fingerprint itself is kept. Afterwards the cached
     * map is never one collected on a different known reaction.
     */
    method SyncCacheWithActiveReaction(selected: Option<SelectedTab>) returns (currentFp: String)
      requires Valid()
      modifies this
      ensures Valid() && UsableFor(currentFp)
      ensures currentFp == ActiveReactionFingerprint(selected)
      ensures running == old(running) && cachedFingerprint == old(cachedFingerprint) && origin == old(origin)
      ensures Invalidates(old(cachedFingerprint), currentFp) ==>
        cachedList == [] && cachedUserMap == EMPTY && listText == [] && !listShown
      ensures !Invalidates(old(cachedFingerprint), currentFp) ==>
        && cachedList == old(cachedList) && cachedUserMap == old(cachedUserMap)
        && listText == old(listText) && listShown == old(listShown)
    {
      currentFp := ActiveReactionFingerprint(selected);
      ClearIfStale(currentFp);
    }

    /** The body of `syncCacheWithActiveReaction` once the current fingerprint is read. */
    method ClearIfStale(currentFp: String)
      requires Valid()
      modifies this
      ensures Valid() && UsableFor(currentFp)
      ensures running == old(running) && cachedFingerprint == old(cachedFingerprint) && origin == old(origin)
      ensures Invalidates(old(cachedFingerprint), currentFp) ==>
        cachedList == [] && cachedUserMap == EMPTY && listText == [] && !listShown
      ensures !Invalidates(old(cachedFingerprint), currentFp) ==>
        && cachedList == old(cachedList) && cachedUserMap == old(cachedUserMap)
        && listText == old(listText) && listShown == old(listShown)
    {
      if cachedFingerprint != [] && currentFp != [] && cachedFingerprint != currentFp {
        cachedList := [];
        cachedUserMap := EMPTY;
        listText := [];
        listShown := false;
      }
    }

    /**
     * `runFind`: ignored while a run is in progress; otherwise sync, ask
     * `findUser` (which may answer from the cached map), keep its list, keep
     * its map when it is complete and non-empty, and record the current
     * fingerprint when there is a cached map and the fingerprint is known.
     * When the scan throws, only the sync has taken effect. `currentFp` is
     * the fingerprint the run read.
     */
    method RunFind(selected: Option<SelectedTab>, keyword: String, scan: Option<ScanResult>)
      returns (ghost currentFp: String, ghost syncedMap: Table)
      requires Valid()
      requires scan.Some? ==> WellFormed(scan.value.userMap)
      modifies this
      ensures Valid()
      ensures running == old(running)
      ensures old(running) ==> Same(old(cachedList), old(cachedUserMap), old(cachedFingerprint), old(listText), old(listShown))
      ensures !old(running) ==> currentFp == ActiveReactionFingerprint(selected)
      ensures !old(running) ==>
        syncedMap == if Invalidates(old(cachedFingerprint), currentFp) then EMPTY else old(cachedUserMap)
      ensures !old(running) ==>
        var cleared := Invalidates(old(cachedFingerprint), currentFp);
        && listText == (if cleared then [] else old(listText))
        && listShown == (if cleared then false else old(listShown))
      ensures !old(running) ==>
        var cleared := Invalidates(old(cachedFingerprint), currentFp);
        var result := FindUser(syncedMap, keyword, scan);
        cachedList == (if result.Some? then result.value.list else if cleared then [] else old(cachedList))
      ensures !old(running) ==>
        var result := FindUser(syncedMap, keyword, scan);
        cachedUserMap == (if result.Some? && result.value.complete && result.value.userMap.keys != []
                          then result.value.userMap else syncedMap)
      ensures !old(running) ==>
        cachedFingerprint == (if cachedUserMap.keys != [] && currentFp != [] then currentFp else old(cachedFingerprint))
    {
      currentFp, syncedMap := [], EMPTY;
      if running {
        return;
      }
      running := true;
      var fp := SyncCacheWithActiveReaction(selected);
      currentFp, syncedMap := fp, cachedUserMap;
      FindAfterSync(fp, keyword, scan);
      running := false;
    }

    /** `findUser` on the synced cache, then the rest of the `try` block of `runFind`. */
    method FindAfterSync(currentFp: String, keyword: String, scan: Option<ScanResult>)
      requires Valid() && UsableFor(currentFp)
      requires scan.Some? ==> WellFormed(scan.value.userMap)
      modifies this
      ensures Valid()
      ensures var result := FindUser(old(cachedUserMap), keyword, scan);
        && cachedList == (if result.Some? then result.value.list else old(cachedList))
        && cachedUserMap == (if result.Some? && result.value.complete && result.value.userMap.keys != []
                             then result.value.userMap else old(cachedUserMap))
        && cachedFingerprint == (if result.Some? && cachedUserMap.keys != [] && currentFp != []
                                 then currentFp else old(cachedFingerprint))
      ensures running == old(running) && listText == old(listText) && listShown == old(listShown)
    {
      ghost var answeredFromCache := Trim(keyword) != [] && cachedUserMap.keys != [];
      var result := FindUser(cachedUserMap, keyword, scan);
      AdoptFindResult(currentFp, result, answeredFromCache);
    }

    /**
     * The `try` block of `runFind` after `findUser` returns: keep the list,
     * keep the map when it is complete and non-empty, and record the
     * fingerprint when there is a cached map and the fingerprint is known.
     * A map `findUser` took from the cache keeps its origin; a scanned one
     * was collected on `currentFp`.
     */
    method AdoptFindResult(currentFp: String, result: Option<FindResult>, ghost fromCache: bool)
      requires Valid() && UsableFor(currentFp)
      requires result.Some? ==> WellFormed(result.value.userMap)
      requires fromCache ==> result.Some? && result.value.userMap == cachedUserMap
      modifies this
      ensures Valid()
      ensures cachedList == (if result.Some? then result.value.list else old(cachedList))
      ensures cachedUserMap == (if result.Some? && result.value.complete && result.value.userMap.keys != []
                                then result.value.userMap else old(cachedUserMap))
      ensures cachedFingerprint == (if result.Some? && cachedUserMap.keys != [] && currentFp != []
                                    then currentFp else old(cachedFingerprint))
      ensures running == old(running) && listText == old(listText) && listShown == old(listShown)
    {
      if result.Some? {
        cachedList := result.value.list;
        if result.value.complete && result.value.userMap.keys != [] {
          if !fromCache {
            origin := currentFp;
          }
          cachedUserMap := result.value.userMap;
        }
        if cachedUserMap.keys != [] && currentFp != [] {
          cachedFingerprint := currentFp;
        }
      }
    }

    /**
     * `runLoadAll`: ignored while a run is in progress; otherwise sync, scan
     * the whole list, cache the listing and the map, record the current
     * fingerprint when it is known, and show the listing one user per line.
     * When the scan throws, only the sync has taken effect. `currentFp` is
     * the fingerprint the run read.
     */
    method RunLoadAll(selected: Option<SelectedTab>, scan: Option<Table>) returns (ghost currentFp: String)
      requires Valid()
      requires scan.Some? ==> WellFormed(scan.value)
      modifies this
      ensures Valid()
      ensures running == old(running)
      ensures old(running) ==> Same(old(cachedList), old(cachedUserMap), old(cachedFingerprint), old(listText), old(listShown))
      ensures !old(running) ==> currentFp == ActiveReactionFingerprint(selected)
      ensures !old(running) && scan.Some? ==>
        && cachedList == FormatUserList(ValuesOf(scan.value))
        && cachedUserMap == scan.value
        && cachedFingerprint == (if currentFp != [] then currentFp else old(cachedFingerprint))
        && listText == Join(cachedList, NEWLINE) && listShown
      ensures !old(running) && scan.None? ==>
        var cleared := Invalidates(old(cachedFingerprint), currentFp);
        Same(if cleared then [] else old(cachedList), if cleared then EMPTY else old(cachedUserMap),
             old(cachedFingerprint), if cleared then [] else old(listText), if cleared then false else old(listShown))
    {
      currentFp := [];
      if running {
        return;
      }
      running := true;
      var fp := SyncCacheWithActiveReaction(selected);
      currentFp := fp;
      if scan.Some? {
        StoreLoadedUsers(fp, scan.value);
      }
      running := false;
    }

    /** The `try` block of `runLoadAll` after the scan returns `userMap`. */
    method StoreLoadedUsers(currentFp: String, userMap: Table)
      requires Valid()
      requires WellFormed(userMap)
      modifies this
      ensures Valid()
      ensures cachedList == FormatUserList(ValuesOf(userMap))
      ensures cachedUserMap == userMap
      ensures cachedFingerprint == (if currentFp != [] then currentFp else old(cachedFingerprint))
      ensures listText == Join(cachedList, NEWLINE) && listShown
      ensures running == old(running)
    {
      cachedList := FormatUserList(ValuesOf(userMap));
      cachedUserMap := userMap;
      origin := currentFp;
      cachedFingerprint := if currentFp != [] then currentFp else cachedFingerprint;
      listText := Join(cachedList, NEWLINE);
      listShown := true;
    }
  }
}
