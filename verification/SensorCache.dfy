/** The cached sensor tree with its version counter, and the number map cached against that
    version (getSensorSubtree, getSensorNumMap). */
module SensorCache {
  import opened Types
  import opened SensorNumbers

  // ---- one fetch

  /** A sensor with the services that offer it. */
  datatype MapperEntry = MapperEntry(path: string, services: set<string>)

  const FILTERED_SERVICE := "xyz.openbmc_project.Pmt"

  predicate Kept(e: MapperEntry) {
    e.services - {FILTERED_SERVICE} != {}
  }

  /** The sensors left when the filtered service is removed, in order. */
  function FilterSensors(entries: seq<MapperEntry>): seq<string> {
    if entries == [] then []
    else
      var last := entries[|entries| - 1];
      FilterSensors(entries[..|entries| - 1]) + if Kept(last) then [last.path] else []
  }

  /** The mapper answers with entries that all have different paths. */
  predicate DistinctEntries(entries: seq<MapperEntry>) {
    forall i, j | 0 <= i < j < |entries| :: entries[i].path != entries[j].path
  }

  lemma {:induction false} FilteredDistinct(entries: seq<MapperEntry>)
    requires DistinctEntries(entries)
    ensures Distinct(FilterSensors(entries))
    ensures forall p | p in FilterSensors(entries) :: exists i :: 0 <= i < |entries| && entries[i].path == p
  {
    if entries != [] {
      var init := entries[..|entries| - 1];
      FilteredDistinct(init);
      assert forall i | 0 <= i < |init| :: init[i] == entries[i];
      assert entries[|entries| - 1].path !in FilterSensors(init);
    }
  }

  /** Some service other than the filtered one offers the sensor. */
  predicate Offered(e: MapperEntry) {
    exists service :: service in e.services && service != "xyz.openbmc_project.Pmt"
  }

  /** The positions of the tree's paths in the answer: ascending, of offered sensors. */
  ghost predicate Picks(at: seq<int>, tree: seq<string>, entries: seq<MapperEntry>) {
    && |at| == |tree|
    && (forall k | 0 <= k < |at| :: 0 <= at[k] < |entries| && entries[at[k]].path == tree[k] && Offered(entries[at[k]]))
    && (forall j, k | 0 <= j < k < |at| :: at[j] < at[k])
  }

  /** The tree holds the paths of the offered sensors, in the order of the answer. */
  ghost predicate Filters(tree: seq<string>, entries: seq<MapperEntry>) {
    && (exists at: seq<int> :: Picks(at, tree, entries))
    && (forall i | 0 <= i < |entries| && Offered(entries[i]) :: entries[i].path in tree)
  }

  lemma {:induction false} KeptIsOffered(e: MapperEntry)
    ensures Kept(e) <==> Offered(e)
  {
    if service :| service in e.services && service != FILTERED_SERVICE {
      assert service in e.services - {FILTERED_SERVICE};
    }
  }

  lemma {:induction false} FilteredPicks(entries: seq<MapperEntry>) returns (at: seq<int>)
    ensures Picks(at, FilterSensors(entries), entries)
  {
    if entries == [] {
      at := [];
    } else {
      var init, last := entries[..|entries| - 1], entries[|entries| - 1];
      at := FilteredPicks(init);
      KeptIsOffered(last);
      PickLast(at, FilterSensors(init), entries);
      if Kept(last) {
        at := at + [|init|];
      }
    }
  }

  lemma {:induction false} PickLast(at: seq<int>, tree: seq<string>, entries: seq<MapperEntry>)
    requires entries != [] && Picks(at, tree, entries[..|entries| - 1])
    ensures Picks(at, tree, entries)
    ensures var last := |entries| - 1;
            Offered(entries[last]) ==> Picks(at + [last], tree + [entries[last].path], entries)
  {
    var init := entries[..|entries| - 1];
    forall k | 0 <= k < |at|
      ensures 0 <= at[k] < |entries| - 1 && entries[at[k]].path == tree[k] && Offered(entries[at[k]])
    {
      assert entries[at[k]] == init[at[k]];
    }
  }

  lemma {:induction false} FilteredComplete(entries: seq<MapperEntry>, i: nat)
    requires i < |entries| && Offered(entries[i])
    ensures entries[i].path in FilterSensors(entries)
  {
    KeptIsOffered(entries[i]);
    if i < |entries| - 1 {
      FilteredComplete(entries[..|entries| - 1], i);
    }
  }

  lemma {:induction false} FilteredMeaning(entries: seq<MapperEntry>)
    ensures Filters(FilterSensors(entries), entries)
  {
    var at := FilteredPicks(entries);
    forall i | 0 <= i < |entries| && Offered(entries[i])
      ensures entries[i].path in FilterSensors(entries)
    {
      FilteredComplete(entries, i);
    }
  }

  /** How a call fares: no bus, a failed mapper call, or an answer. */
  datatype Answer =
    | NoBus
    | Failed
    | Fetched(entries: seq<MapperEntry>)

  ghost predicate GoodAnswer(a: Answer) {
    a.Fetched? ==> DistinctEntries(a.entries)
  }

  // ---- the cache as a state machine

  datatype Cache = Cache(tree: Option<seq<string>>, index: uint16, numMap: Option<SensorNumMap>, prev: uint16)

  const FRESH := Cache(None, 0, None, 0)

  /** The number map call returns no map, a map, or raises. */
  datatype Outcome = NoMap | Returns(m: SensorNumMap) | Raises

  function Invalidated(c: Cache): Cache {
    c.(tree := None)
  }

  /** The tree and version a subtree call leaves; a failed fetch leaves an empty tree. */
  function AfterSubtree(c: Cache, a: Answer): Cache {
    if a.NoBus? || c.tree.Some? then c
    else if a.Failed? then c.(tree := Some([]))
    else c.(tree := Some(FilterSensors(a.entries)), index := CastU16(c.index + 1))
  }

  /** The tree a subtree call hands out. */
  function SubtreeResult(c: Cache, a: Answer): Option<seq<string>> {
    if a.NoBus? || (c.tree.None? && a.Failed?) then None
    else AfterSubtree(c, a).tree
  }

  /** The call finds its cached map up to date. */
  predicate Hit(c: Cache, a: Answer) {
    AfterSubtree(c, a).index == c.prev && c.numMap.Some?
  }

  function AfterNumMap(c: Cache, a: Answer): Cache {
    var tree, now := SubtreeResult(c, a), AfterSubtree(c, a);
    if tree.None? || Hit(c, a) then now else now.(numMap := Some(Numbering(Prefix(tree.value))), prev := now.index)
  }

  function NumMapOutcome(c: Cache, a: Answer): Outcome {
    var tree := SubtreeResult(c, a);
    if tree.None? then NoMap
    else if Hit(c, a) then Returns(c.numMap.value)
    else if |tree.value| >= MAX_IPMI_SENSORS then Raises
    else Returns(Numbering(Prefix(tree.value)))
  }

  /** The function-local statics of the two functions. */
  class SensorStatics {
    var sensorTree: Option<seq<string>>
    var sensorUpdatedIndex: uint16
    var sensorNumMap: Option<SensorNumMap>
    var prevSensorUpdatedIndex: uint16

    ghost function State(): Cache
      reads this
    {
      Cache(sensorTree, sensorUpdatedIndex, sensorNumMap, prevSensorUpdatedIndex)
    }

    ghost predicate Valid()
      reads this
    {
      sensorTree.Some? ==> Distinct(sensorTree.value)
    }

    constructor ()
      ensures Valid() && State() == FRESH
    {
      sensorTree, sensorUpdatedIndex, sensorNumMap, prevSensorUpdatedIndex := None, 0, None, 0;
    }

    /** A signal that a sensor was added or removed. */
    method Invalidate()
      modifies this
      ensures Valid() && State() == Invalidated(old(State()))
      ensures sensorTree.None? && sensorUpdatedIndex == old(sensorUpdatedIndex)
      ensures sensorNumMap == old(sensorNumMap) && prevSensorUpdatedIndex == old(prevSensorUpdatedIndex)
    {
      sensorTree := None;
    }

    method GetSensorSubtree(a: Answer) returns (subtree: Option<seq<string>>, index: uint16)
      requires Valid() && GoodAnswer(a)
      modifies this`sensorTree, this`sensorUpdatedIndex
      ensures Valid() && State() == AfterSubtree(old(State()), a)
      ensures subtree == SubtreeResult(old(State()), a) && index == State().index
      ensures old(sensorTree).None? && a.Fetched? ==> subtree.Some? && Filters(subtree.value, a.entries)
      ensures old(sensorTree).Some? && !a.NoBus? ==> subtree == old(sensorTree) == sensorTree
      ensures old(sensorTree).None? && a.Failed? ==> subtree.None? && sensorTree == Some([])
    {
      if a.NoBus? {
        return None, sensorUpdatedIndex;
      }
      if sensorTree.Some? {
        return sensorTree, sensorUpdatedIndex;
      }
      sensorTree := Some([]);
      if a.Failed? {
        return None, sensorUpdatedIndex;
      }
      FilteredDistinct(a.entries);
      FilteredMeaning(a.entries);
      sensorTree := Some(FilterSensors(a.entries));
      sensorUpdatedIndex := CastU16(sensorUpdatedIndex + 1);
      return sensorTree, sensorUpdatedIndex;
    }

    method GetSensorNumMap(a: Answer) returns (outcome: Outcome)
      requires Valid() && GoodAnswer(a)
      modifies this
      ensures Valid() && State() == AfterNumMap(old(State()), a)
      ensures outcome == NumMapOutcome(old(State()), a)
    {
      var tree, curSensorUpdatedIndex := GetSensorSubtree(a);
      if tree.None? {
        return NoMap;
      }
      if curSensorUpdatedIndex == prevSensorUpdatedIndex && sensorNumMap.Some? {
        return Returns(sensorNumMap.value);
      }
      prevSensorUpdatedIndex := curSensorUpdatedIndex;
      var m, raised := NumberSensors(tree.value);
      sensorNumMap := Some(m);
      if raised {
        return Raises;
      }
      outcome := Returns(m);
    }
  }

  // ---- runs

  datatype Call =
    | SensorsChanged
    | Subtree(a: Answer)
    | NumMap(a: Answer)

  /** The cache with the history its meaning refers to: the last answer and the tree made of it,
      whether a later fetch failed, the number of fetches, and the fetch count and tree at the
      last renumbering. */
  datatype History = History(
    c: Cache, answer: seq<MapperEntry>, fetched: seq<string>, failed: bool, total: nat, built: nat,
    source: seq<string>)

  const START := History(FRESH, [], [], false, 0, 0, [])

  function Step(h: History, call: Call): History {
    match call
    case SensorsChanged => h.(c := Invalidated(h.c))
    case Subtree(a) => AfterFetch(h, a).(c := AfterSubtree(h.c, a))
    case NumMap(a) =>
      var now := AfterFetch(h, a);
      if SubtreeResult(h.c, a).None? || Hit(h.c, a) then now.(c := AfterNumMap(h.c, a))
      else now.(c := AfterNumMap(h.c, a), built := now.total, source := SubtreeResult(h.c, a).value)
  }

  /** The mapper is asked only without a cached tree. */
  function AfterFetch(h: History, a: Answer): History {
    if a.NoBus? || h.c.tree.Some? then h
    else if a.Failed? then h.(failed := true)
    else h.(answer := a.entries, fetched := FilterSensors(a.entries), failed := false, total := h.total + 1)
  }

  function Run(calls: seq<Call>): History {
    if calls == [] then START else Step(Run(calls[..|calls| - 1]), calls[|calls| - 1])
  }

  /** What the cache knows after any run. */
  ghost predicate Coherent(h: History) {
    && h.built <= h.total
    && h.c.index == h.total % 0x1_0000
    && (h.c.tree.Some? ==> h.c.tree.value == if h.failed then [] else h.fetched)
    && (h.c.numMap.Some? ==> h.c.numMap.value == Numbering(Prefix(h.source)) && h.c.prev == h.built % 0x1_0000)
    && (h.c.numMap.Some? && h.built == h.total ==> h.source == h.fetched || h.source == [])
    && (h.c.numMap.Some? && h.built == h.total && !h.failed ==> h.source == h.fetched)
  }

  /** In every run the tree is the filtered last answer. */
  lemma {:induction false} TreeIsFiltered(calls: seq<Call>)
    ensures Filters(Run(calls).fetched, Run(calls).answer)
  {
    if calls == [] {
      FilteredMeaning([]);
    } else {
      var call := calls[|calls| - 1];
      TreeIsFiltered(calls[..|calls| - 1]);
      if !call.SensorsChanged? && call.a.Fetched? {
        FilteredMeaning(call.a.entries);
      }
    }
  }

  /** What a subtree call hands out after any run whose last fetch did not fail: the offered
      sensors of its own answer when it fetches, and of the last answer otherwise. */
  lemma {:induction false} SubtreeIsFiltered(calls: seq<Call>, a: Answer)
    requires !Run(calls).failed && !a.Failed? && !a.NoBus?
    ensures var h, tree := Run(calls), SubtreeResult(Run(calls).c, a);
            tree.Some? && Filters(tree.value, if h.c.tree.None? then a.entries else h.answer)
  {
    RunCoherent(calls);
    TreeIsFiltered(calls);
    if Run(calls).c.tree.None? {
      FilteredMeaning(a.entries);
    }
  }

  lemma {:induction false} StepCoherent(h: History, call: Call)
    requires Coherent(h)
    ensures Coherent(Step(h, call))
  {
    Wraps(h.total);
  }

  lemma {:induction false} Wraps(n: nat)
    ensures (n % 0x1_0000 + 1) % 0x1_0000 == (n + 1) % 0x1_0000
  {
  }

  lemma {:induction false} RunCoherent(calls: seq<Call>)
    ensures Coherent(Run(calls))
  {
    if calls != [] {
      RunCoherent(calls[..|calls| - 1]);
      StepCoherent(Run(calls[..|calls| - 1]), calls[|calls| - 1]);
    }
  }

  lemma {:induction false} SameRemainder(m: nat, n: nat)
    requires n <= m
    ensures m % 0x1_0000 == n % 0x1_0000 <==> (m - n) % 0x1_0000 == 0
  {
  }

  /** The map is found up to date although fetches came since: a positive multiple of 65536. */
  predicate Stale(h: History, a: Answer) {
    h.c.numMap.Some? && AfterFetch(h, a).total > h.built && (AfterFetch(h, a).total - h.built) % 0x1_0000 == 0
  }

  /** There is no map, or fetches came since it was built and the version tells. */
  predicate MustBuild(h: History, a: Answer) {
    !(h.c.numMap.Some? && h.built == AfterFetch(h, a).total) && !Stale(h, a)
  }

  lemma {:induction false} HitMeaning(h: History, a: Answer)
    requires Coherent(h)
    ensures Hit(h.c, a) <==> !MustBuild(h, a)
    ensures Hit(h.c, a) && !Stale(h, a) ==> h.total == h.built && AfterFetch(h, a).fetched == h.fetched
  {
    Wraps(h.total);
    SameRemainder(AfterFetch(h, a).total, h.built);
  }

  lemma {:induction false} TreeMeaning(h: History, a: Answer)
    requires Coherent(h) && !h.failed && !a.Failed? && !a.NoBus?
    ensures SubtreeResult(h.c, a) == Some(AfterFetch(h, a).fetched)
  {
  }

  /** What a number map call gives, by history: the numbering of the most recently fetched
      tree, unless the version counter came round to the same value, when it is still the
      older numbering. It raises just when the map has to be built for 765 sensors or more;
      later calls give the numbering of the first 765. */
  ghost predicate AsExpected(h: History, a: Answer) {
    match NumMapOutcome(h.c, a)
    case NoMap => a.NoBus?
    case Returns(m) =>
      && !a.NoBus?
      && m == Numbering(Prefix(if Stale(h, a) then h.source else AfterFetch(h, a).fetched))
      && (|AfterFetch(h, a).fetched| >= MAX_IPMI_SENSORS ==> !MustBuild(h, a))
    case Raises => !a.NoBus? && |AfterFetch(h, a).fetched| >= MAX_IPMI_SENSORS && MustBuild(h, a)
  }

  lemma {:induction false} OutcomeExpected(h: History, a: Answer)
    requires Coherent(h) && !h.failed && !a.Failed?
    ensures AsExpected(h, a)
  {
    HitMeaning(h, a);
    if !a.NoBus? {
      TreeMeaning(h, a);
    }
  }

  /** A number map call after any run is as expected when the run's last fetch did not fail,
      whatever failed before, and its own does not either. */
  lemma {:induction false} MapIsCurrent(calls: seq<Call>, a: Answer)
    requires !Run(calls).failed && !a.Failed?
    ensures AsExpected(Run(calls), a)
  {
    RunCoherent(calls);
    OutcomeExpected(Run(calls), a);
  }

  /** The first number map call after a sensor signal fetches: it returns the numbering of the
      sensors of its own answer, or raises for 765 of them or more, unless the version came round. */
  lemma {:induction false} SignalRefreshes(calls: seq<Call>, a: Answer)
    requires a.Fetched?
    ensures var h := Step(Run(calls), SensorsChanged);
            !Stale(h, a) ==>
              (if |FilterSensors(a.entries)| >= MAX_IPMI_SENSORS then NumMapOutcome(h.c, a) == Raises
               else NumMapOutcome(h.c, a) == Returns(Numbering(FilterSensors(a.entries))))
    ensures Filters(FilterSensors(a.entries), a.entries)
  {
    var h := Step(Run(calls), SensorsChanged);
    FilteredMeaning(a.entries);
    RunCoherent(calls);
    StepCoherent(Run(calls), SensorsChanged);
    HitMeaning(h, a);
  }

  /** Fewer than 65536 fetches since the last renumbering rule the exception out. */
  lemma {:induction false} MapIsCurrentSoon(calls: seq<Call>, a: Answer)
    requires !Run(calls).failed && !a.Failed?
    requires AfterFetch(Run(calls), a).total < Run(calls).built + 0x1_0000
    ensures var outcome := NumMapOutcome(Run(calls).c, a);
            outcome.Returns? ==> outcome.m == Numbering(Prefix(AfterFetch(Run(calls), a).fetched))
  {
    MapIsCurrent(calls, a);
    SmallGap(AfterFetch(Run(calls), a).total - Run(calls).built);
  }

  lemma {:induction false} SmallGap(gap: int)
    requires gap < 0x1_0000
    ensures gap > 0 ==> gap % 0x1_0000 != 0
  {
  }

  /** A returned map stays the answer until the next invalidation, whatever is called. */
  lemma {:induction false} MapStaysFixed(h: History, calls: seq<Call>, a: Answer)
    requires h.c.tree.Some? && h.c.numMap.Some? && h.c.prev == h.c.index
    requires forall i | 0 <= i < |calls| :: !calls[i].SensorsChanged?
    requires !a.NoBus?
    ensures NumMapOutcome(After(h, calls).c, a) == Returns(h.c.numMap.value)
  {
    Unchanged(h, calls);
  }

  function After(h: History, calls: seq<Call>): History
    decreases |calls|
  {
    if calls == [] then h else After(Step(h, calls[0]), calls[1..])
  }

  lemma {:induction false} Unchanged(h: History, calls: seq<Call>)
    requires h.c.tree.Some? && h.c.numMap.Some? && h.c.prev == h.c.index
    requires forall i | 0 <= i < |calls| :: !calls[i].SensorsChanged?
    ensures After(h, calls) == h
    decreases |calls|
  {
    if calls != [] {
      assert Step(h, calls[0]) == h;
      Unchanged(h, calls[1..]);
    }
  }

  /** After a map is returned or building one raises, the cache answers from it. */
  lemma {:induction false} CallCaches(h: History, a: Answer)
    requires NumMapOutcome(h.c, a) != NoMap
    ensures var now := Step(h, NumMap(a)).c;
            now.tree.Some? && now.numMap.Some? && now.prev == now.index
  {
  }

  // ---- when the number map and the tree agree

  /** Only an empty list has an empty numbering. */
  lemma {:induction false} NumberingEmpty(paths: seq<string>)
    ensures Numbering(Prefix(paths)) == Numbering(Prefix([])) <==> paths == []
  {
    if paths != [] {
      NumberingAt(Prefix(paths), 0);
      assert SequentialNumber(0) !in Numbering(Prefix([])).left;
    }
  }

  /** After any run in which the version has not come round, a returned map numbers the tree
      that subtree calls see, except exactly when a failed fetch left an empty tree while the
      map still stands for sensors. */
  lemma {:induction false} ViewsAgree(calls: seq<Call>, a: Answer)
    requires !Stale(Run(calls), a) && NumMapOutcome(Run(calls).c, a).Returns?
    ensures SubtreeResult(Run(calls).c, a).Some?
    ensures var h := Run(calls);
            NumMapOutcome(h.c, a).m == Numbering(Prefix(SubtreeResult(h.c, a).value))
            <==> !(h.failed && h.c.tree.Some? && Hit(h.c, a) && h.source != [])
  {
    var h := Run(calls);
    RunCoherent(calls);
    HitMeaning(h, a);
    if Hit(h.c, a) && h.failed && h.c.tree.Some? {
      NumberingEmpty(h.source);
    }
  }

  /** The way there: when a fetch fails, subtree calls report no sensors under the old version,
      and the number map keeps answering with the old numbering. */
  lemma {:induction false} FailureSplitsViews(h: History, a: Answer)
    requires Coherent(h) && h.c.tree.None? && h.c.numMap.Some? && h.c.prev == h.c.index && !a.NoBus?
    ensures var now := Step(h, Subtree(Failed));
            && SubtreeResult(now.c, a) == Some([])
            && NumMapOutcome(now.c, a) == Returns(Numbering(Prefix(h.source)))
  {
  }

  // ---- looking up in the held map

  ghost predicate GoodCall(call: Call) {
    match call
    case SensorsChanged => true
    case Subtree(a) => GoodAnswer(a)
    case NumMap(a) => GoodAnswer(a)
  }

  lemma {:induction false} RunDistinct(calls: seq<Call>)
    requires forall i | 0 <= i < |calls| :: GoodCall(calls[i])
    ensures var h := Run(calls);
            Distinct(h.fetched) && Distinct(h.source) && (h.c.tree.Some? ==> Distinct(h.c.tree.value))
  {
    if calls != [] {
      var init, call := calls[..|calls| - 1], calls[|calls| - 1];
      RunDistinct(init);
      if !call.SensorsChanged? && call.a.Fetched? {
        FilteredDistinct(call.a.entries);
      }
    }
  }

  /** In every run over answers with distinct paths, the held map pairs numbers and paths one
      to one and numbers exactly the first 765 sensors it was built from, and the lookups by
      path and by number undo each other on it. */
  lemma {:induction false} HeldMapLookups(calls: seq<Call>, path: string, n: int)
    requires forall i | 0 <= i < |calls| :: GoodCall(calls[i])
    requires Run(calls).c.numMap.Some?
    ensures var m := Run(calls).c.numMap.value;
            && Bijective(m) && InRange(m)
            && (path in m.right <==> path in Prefix(Run(calls).source))
            && PathOf(m, NumberFromPath(m, path)) == (if path in Prefix(Run(calls).source) then path else "")
            && (n in m.left ==> NumberFromPath(m, PathOf(m, n)) == n)
  {
    var paths := Prefix(Run(calls).source);
    RunCoherent(calls);
    RunDistinct(calls);
    LookupsInverse(paths, path, n);
  }
}
