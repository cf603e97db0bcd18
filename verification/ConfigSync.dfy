/** The two processes that share the PEF tables. The configuration process publishes the JSON
    tables as D-Bus lists and accepts writes; every accepted write queues a signal; the event
    filtering process takes the signals in order and writes them back to the JSON file. */
module ConfigSync {
  import opened Types
  import opened Bits
  import opened Json
  import opened Tables
  import opened EntryPath
  import opened Monitors
  import opened FilterTable
  import opened AlertPolicy
  import opened PefAction
  import opened ActionProperties

  // ---- one table: writing a vector back

  lemma {:induction false} BucketsApart(width: nat, n: nat, b: nat, c: nat)
    requires width > 0 && b < c < LISTS
    ensures End(width, n, b) <= Start(width, n, c)
    ensures End(width, n, b) <= c * width
  {
    assert (b + 1) * width == b * width + width;
    Scale(b + 1, c, width);
  }

  /** The rows of bucket c are untouched by a slice that ends where bucket b ends. */
  lemma {:induction false} OtherBuckets(width: nat, rows: seq<Row>, b: nat, p: string, v: Vec, c: nat)
    requires width > 0 && b < LISTS && c < LISTS && c != b
    requires v.Size() == |Bucket(width, rows, b)|
    ensures Bucket(width, Rewritten(rows, b * width, p, v), c) == Bucket(width, rows, c)
  {
    var n, start := |rows|, b * width;
    StartBeforeEnd(width, n, b);
    StartBeforeEnd(width, n, c);
    if c < b {
      BucketsApart(width, n, c, b);
    } else {
      BucketsApart(width, n, b, c);
    }
    forall k | Start(width, n, c) <= k < End(width, n, c)
      ensures Rewritten(rows, start, p, v)[k] == rows[k]
    {
      assert !(start <= k < start + v.Size());
    }
  }

  /** In the written bucket, property p becomes the vector and the other properties stay. */
  lemma {:induction false} WrittenColumn(kind: Kind, width: nat, rows: seq<Row>, b: nat, p: string, v: Vec, q: string)
    requires width > 0 && b < LISTS && Bucket(width, rows, b) != []
    requires v.Size() == |Bucket(width, rows, b)|
    requires q == p ==> v.KindOf() == kind
    ensures Column(kind, q, Bucket(width, Rewritten(rows, b * width, p, v), b))
            == if q == p then v else Column(kind, q, Bucket(width, rows, b))
  {
    var start := b * width;
    StartBeforeEnd(width, |rows|, b);
    assert Start(width, |rows|, b) == start;
    var before, after := Bucket(width, rows, b), Bucket(width, Rewritten(rows, start, p, v), b);
    forall i | 0 <= i < |before|
      ensures after[i] == before[i][p := Cell(v, i)]
    {
      assert after[i] == Rewritten(rows, start, p, v)[start + i] && before[i] == rows[start + i];
    }
  }

  /** Writing a vector to list b and saving it agrees with what a restart would publish
      exactly when the vector has the list's length. */
  lemma {:induction false} WriteBack(spec: TableSpec, rows: seq<Row>, b: nat, p: string, v: Vec)
    requires spec.width > 0 && b < LISTS && Bucket(spec.width, rows, b) != []
    requires p in spec.kinds && v.KindOf() == spec.kinds[p]
    ensures Published(spec, Rewritten(rows, b * spec.width, p, v))
            == Published(spec, rows)[b := Columns(spec.kinds, Bucket(spec.width, rows, b))[p := v]]
            <==> v.Size() == |Bucket(spec.width, rows, b)|
  {
    var written := Rewritten(rows, b * spec.width, p, v);
    StartBeforeEnd(spec.width, |rows|, b);
    PublishedUpToAt(spec, written, LISTS, b);
    assert |Bucket(spec.width, written, b)| == |Bucket(spec.width, rows, b)|;
    assert Published(spec, written)[b][p].Size() == |Bucket(spec.width, rows, b)|;
    if v.Size() == |Bucket(spec.width, rows, b)| {
      WriteBackSameLength(spec, rows, b, p, v);
    }
  }

  lemma {:induction false} WriteBackSameLength(spec: TableSpec, rows: seq<Row>, b: nat, p: string, v: Vec)
    requires spec.width > 0 && b < LISTS && Bucket(spec.width, rows, b) != []
    requires p in spec.kinds && v.KindOf() == spec.kinds[p]
    requires v.Size() == |Bucket(spec.width, rows, b)|
    ensures Published(spec, Rewritten(rows, b * spec.width, p, v))
            == Published(spec, rows)[b := Columns(spec.kinds, Bucket(spec.width, rows, b))[p := v]]
  {
    var now := Published(spec, Rewritten(rows, b * spec.width, p, v));
    var wanted := Published(spec, rows)[b := Columns(spec.kinds, Bucket(spec.width, rows, b))[p := v]];
    forall c: nat
      ensures c in now <==> c in wanted
      ensures c in now ==> now[c] == wanted[c]
    {
      PublishedUpToAt(spec, rows, LISTS, c);
      PublishedUpToAt(spec, Rewritten(rows, b * spec.width, p, v), LISTS, c);
      if c == b {
        StartBeforeEnd(spec.width, |rows|, b);
        WrittenList(spec, rows, b, p, v);
      } else if c < LISTS {
        OtherBuckets(spec.width, rows, b, p, v, c);
      }
    }
  }

  lemma {:induction false} WrittenList(spec: TableSpec, rows: seq<Row>, b: nat, p: string, v: Vec)
    requires spec.width > 0 && b < LISTS && Bucket(spec.width, rows, b) != []
    requires p in spec.kinds && v.KindOf() == spec.kinds[p]
    requires v.Size() == |Bucket(spec.width, rows, b)|
    ensures Columns(spec.kinds, Bucket(spec.width, Rewritten(rows, b * spec.width, p, v), b))
            == Columns(spec.kinds, Bucket(spec.width, rows, b))[p := v]
  {
    forall q | q in spec.kinds
      ensures Column(spec.kinds[q], q, Bucket(spec.width, Rewritten(rows, b * spec.width, p, v), b))
              == if q == p then v else Column(spec.kinds[q], q, Bucket(spec.width, rows, b))
    {
      WrittenColumn(spec.kinds[q], spec.width, rows, b, p, v, q);
    }
  }

  // ---- the system

  datatype TableId = Filters | Policies

  function SpecOf(t: TableId): TableSpec {
    match t
    case Filters => FILTER_SPEC
    case Policies => POLICY_SPEC
  }

  const MANAGER := "/xyz/openbmc_project/PefAlertManager/"
  const FILTER_DIR := MANAGER + "EventFilterTable/"
  const POLICY_DIR := MANAGER + "AlertPolicyTable/"
  const DESTINATION_DIR := MANAGER + "DestinationSelector/"

  /** The object path of list b. */
  function ListPath(t: TableId, b: nat): string
    requires b < LISTS
  {
    match t
    case Filters => FILTER_DIR + "List" + [DigitChar(b + 1)]
    case Policies => POLICY_DIR + "PolicyList_eth" + [DigitChar(b)]
  }

  /** The object path of destination n. */
  function DestinationPath(n: int): string {
    DESTINATION_DIR + "Entry" + Decimal(n)
  }

  const DESTINATION_PROPERTIES := {"LanChannel", "DestinationSelector"}

  datatype Signal =
    | ListChanged(t: TableId, b: nat, p: string, v: Vec)
    | ConfInfoChanged(p: string, cell: Json)
    | DestinationChanged(n: int, changes: Changes)

  /** The file, what D-Bus holds (the two tables' lists and the numbers of the destination
      objects), and the signals on their way. */
  datatype State = State(
    doc: Json, filters: map<nat, Object>, policies: map<nat, Object>, destinations: set<int>, queue: seq<Signal>)

  function Lists(st: State, t: TableId): map<nat, Object> {
    match t
    case Filters => st.filters
    case Policies => st.policies
  }

  ghost predicate GoodDoc(doc: Json) {
    Tabular(doc, FILTERS) && Tabular(doc, POLICIES) && Tabular(doc, CONF_INFO) && Tabular(doc, DESTINATIONS)
  }

  predicate Publishable(changes: Changes) {
    forall i | 0 <= i < |changes| :: changes[i].0 in DESTINATION_PROPERTIES
  }

  ghost predicate GoodSignal(s: Signal) {
    && (s.ListChanged? ==> s.b < LISTS)
    && (s.DestinationChanged? ==> Publishable(s.changes))
  }

  function Rows(doc: Json, t: TableId): seq<Row>
    requires GoodDoc(doc)
  {
    match t
    case Filters => Table(doc, FILTERS)
    case Policies => Table(doc, POLICIES)
  }

  /** What the callback of the signal leaves in the file. */
  ghost function Apply(doc: Json, s: Signal): Json
    requires GoodDoc(doc) && GoodSignal(s)
  {
    match s
    case ListChanged(Filters, b, p, v) =>
      WithTable(doc, FILTERS, NewFilterRows(Table(doc, FILTERS), ListPath(Filters, b), p, Vector(v)))
    case ListChanged(Policies, b, p, v) =>
      var rows := NewPolicyRows(Table(doc, POLICIES), ListPath(Policies, b), p, Vector(v));
      if rows.Some? then StripNulls(WithTable(doc, POLICIES, rows.value)) else doc
    case ConfInfoChanged(p, cell) =>
      StripNulls(WithTable(doc, CONF_INFO, EveryRowSet(Table(doc, CONF_INFO), p, cell)))
    case DestinationChanged(n, changes) =>
      var rows := NewDestinationRows(Table(doc, DESTINATIONS), DestinationPath(n), changes);
      if rows.Some? then WithTable(doc, DESTINATIONS, rows.value) else doc
  }

  /** Delivering a signal runs its callback on the file. */
  method DeliverSignal(doc: Json, s: Signal) returns (saved: Json)
    requires GoodDoc(doc) && GoodSignal(s)
    ensures saved == Apply(doc, s)
  {
    match s
    case ListChanged(Filters, b, p, v) =>
      saved := EventFilterCallback(doc, ListPath(Filters, b), p, Vector(v));
    case ListChanged(Policies, b, p, v) =>
      var r := AlertPolicyCallback(doc, ListPath(Policies, b), p, Vector(v));
      saved := if r.Some? then r.value else doc;
    case ConfInfoChanged(p, cell) =>
      saved := PefConfInfoCallback(doc, p, cell);
    case DestinationChanged(n, changes) =>
      var r := DestinationCallback(doc, DestinationPath(n), changes);
      saved := if r.Some? then r.value else doc;
  }

  lemma {:induction false} ManagerHasNoDigits()
    ensures forall c | c in MANAGER :: !IsDigit(c)
  {
  }

  lemma {:induction false} FilterNamesHaveNoDigits()
    ensures forall c | c in FILTER_DIR + "List" :: !IsDigit(c)
  {
    ManagerHasNoDigits();
    assert forall c | c in "EventFilterTable/" :: !IsDigit(c);
    assert forall c | c in "List" :: !IsDigit(c);
  }

  lemma {:induction false} PolicyNamesHaveNoDigits()
    ensures forall c | c in POLICY_DIR + "PolicyList_eth" :: !IsDigit(c)
  {
    ManagerHasNoDigits();
    assert forall c | c in "AlertPolicyTable/" :: !IsDigit(c);
    assert forall c | c in "PolicyList_eth" :: !IsDigit(c);
  }

  /** Every list is found again from its own object path. */
  lemma {:induction false} ListPathFound(t: TableId, b: nat)
    requires b < LISTS
    ensures t.Filters? ==> ListIndexFrom(ListPath(t, b), "List", 1, 0) == Some(b)
    ensures t.Policies? ==> ListIndexFrom(ListPath(t, b), "PolicyList_eth", 0, 0) == Some(b)
  {
    match t
    case Filters =>
      FilterNamesHaveNoDigits();
      ListIndexOfPath(FILTER_DIR, "List", 1, b);
    case Policies =>
      PolicyNamesHaveNoDigits();
      ListIndexOfPath(POLICY_DIR, "PolicyList_eth", 0, b);
  }

  lemma {:induction false} SectionsDiffer()
    ensures FILTERS != POLICIES && FILTERS != CONF_INFO && FILTERS != DESTINATIONS
    ensures POLICIES != CONF_INFO && POLICIES != DESTINATIONS && CONF_INFO != DESTINATIONS
  {
    assert |FILTERS| == 16 && |POLICIES| == 16 && |CONF_INFO| == 11 && |DESTINATIONS| == 19;
    assert FILTERS[0] != POLICIES[0];
  }

  /** The table a signal is about. */
  function SectionOf(s: Signal): string {
    match s
    case ListChanged(Filters, _, _, _) => FILTERS
    case ListChanged(Policies, _, _, _) => POLICIES
    case ConfInfoChanged(_, _) => CONF_INFO
    case DestinationChanged(_, _) => DESTINATIONS
  }

  lemma {:induction false} ApplyKeepsOthers(doc: Json, s: Signal, other: string)
    requires GoodDoc(doc) && GoodSignal(s)
    requires Tabular(doc, other) && other != SectionOf(s)
    ensures Tabular(Apply(doc, s), other) && Table(Apply(doc, s), other) == Table(doc, other)
  {
    match s
    case ListChanged(Filters, b, p, v) =>
      WithTableKeeps(doc, FILTERS, NewFilterRows(Table(doc, FILTERS), ListPath(Filters, b), p, Vector(v)), other);
    case ListChanged(Policies, b, p, v) =>
      var rows := NewPolicyRows(Table(doc, POLICIES), ListPath(Policies, b), p, Vector(v));
      if rows.Some? {
        WithTableKeeps(doc, POLICIES, rows.value, other);
      }
    case ConfInfoChanged(p, cell) =>
      WithTableKeeps(doc, CONF_INFO, EveryRowSet(Table(doc, CONF_INFO), p, cell), other);
    case DestinationChanged(n, changes) =>
      var rows := NewDestinationRows(Table(doc, DESTINATIONS), DestinationPath(n), changes);
      if rows.Some? {
        WithTableKeeps(doc, DESTINATIONS, rows.value, other);
      }
  }

  /** The section a signal is about stays a table, and a list signal rewrites its list's slice. */
  lemma {:induction false} ApplyOwn(doc: Json, s: Signal)
    requires GoodDoc(doc) && GoodSignal(s)
    ensures Tabular(Apply(doc, s), SectionOf(s))
    ensures s.ListChanged? ==>
              Table(Apply(doc, s), SectionOf(s)) == Rewritten(Rows(doc, s.t), s.b * SpecOf(s.t).width, s.p, s.v)
  {
    match s
    case ListChanged(Filters, b, p, v) =>
      ListPathFound(Filters, b);
      WithTableSets(doc, FILTERS, NewFilterRows(Table(doc, FILTERS), ListPath(Filters, b), p, Vector(v)));
    case ListChanged(Policies, b, p, v) =>
      ListPathFound(Policies, b);
      WithTableSets(doc, POLICIES, NewPolicyRows(Table(doc, POLICIES), ListPath(Policies, b), p, Vector(v)).value);
    case ConfInfoChanged(p, cell) =>
      WithTableSets(doc, CONF_INFO, EveryRowSet(Table(doc, CONF_INFO), p, cell));
    case DestinationChanged(n, changes) =>
      var rows := NewDestinationRows(Table(doc, DESTINATIONS), DestinationPath(n), changes);
      if rows.Some? {
        WithTableSets(doc, DESTINATIONS, rows.value);
      }
  }

  /** What one signal does to the two published tables. */
  lemma {:induction false} ApplyRows(doc: Json, s: Signal, t: TableId)
    requires GoodDoc(doc) && GoodSignal(s)
    ensures GoodDoc(Apply(doc, s))
    ensures Rows(Apply(doc, s), t)
            == if s.ListChanged? && s.t == t then Rewritten(Rows(doc, t), s.b * SpecOf(t).width, s.p, s.v)
               else Rows(doc, t)
  {
    SectionsDiffer();
    ApplyOwn(doc, s);
    if SectionOf(s) != FILTERS {
      ApplyKeepsOthers(doc, s, FILTERS);
    }
    if SectionOf(s) != POLICIES {
      ApplyKeepsOthers(doc, s, POLICIES);
    }
    if SectionOf(s) != CONF_INFO {
      ApplyKeepsOthers(doc, s, CONF_INFO);
    }
    if SectionOf(s) != DESTINATIONS {
      ApplyKeepsOthers(doc, s, DESTINATIONS);
    }
  }

  // ---- the destination objects

  /** The numbers of the section's rows. */
  function Numbers(rows: seq<Row>): set<int> {
    set k | 0 <= k < |rows| && DESTINATION_KEY in rows[k] && rows[k][DESTINATION_KEY].Num? ::
      rows[k][DESTINATION_KEY].n
  }

  /** Publication makes one object for every number in the section and no other. */
  method PublishDestinations(rows: seq<Row>) returns (objects: set<int>)
    requires forall k | 0 <= k < |rows| :: HasEntryNo(rows[k])
    ensures objects == Numbers(rows)
    ensures forall n :: n in objects <==> exists k :: 0 <= k < |rows| && IsEntry(rows[k], n)
  {
    objects := {};
    for i := 0 to |rows|
      invariant forall n :: n in objects <==> exists k :: 0 <= k < i && IsEntry(rows[k], n)
    {
      var lanDestEntry := rows[i]["LanDestination"].n;
      assert IsEntry(rows[i], lanDestEntry);
      objects := objects + {lanDestEntry};
    }
    forall n
      ensures n in objects <==> n in Numbers(rows)
    {
    }
  }

  lemma {:induction false} ChangesKeepNumbers(rows: seq<Row>, path: string, changes: Changes, k: nat)
    requires k <= |changes| && Publishable(changes) && RowsAfter(rows, path, changes, k).Some?
    ensures Numbers(RowsAfter(rows, path, changes, k).value) == Numbers(rows)
  {
    if k > 0 {
      ChangesKeepNumbers(rows, path, changes, k - 1);
      var before := RowsAfter(rows, path, changes, k - 1).value;
      var l := FirstRow(before, 0, DESTINATION_KEY, EntryNo(path), IsError);
      SettingKeepsNumbers(before, l, changes[k - 1].0, changes[k - 1].1);
    }
  }

  lemma {:induction false} SettingKeepsNumbers(rows: seq<Row>, l: Located, p: string, cell: Json)
    requires l.At? ==> l.k < |rows|
    requires p != DESTINATION_KEY
    ensures Numbers(SetRow(rows, l, p, cell)) == Numbers(rows)
  {
    var now := SetRow(rows, l, p, cell);
    assert forall k | 0 <= k < |rows| ::
        && (DESTINATION_KEY in now[k] <==> DESTINATION_KEY in rows[k])
        && (DESTINATION_KEY in rows[k] ==> now[k][DESTINATION_KEY] == rows[k][DESTINATION_KEY]);
    forall n
      ensures n in Numbers(now) <==> n in Numbers(rows)
    {
    }
  }

  /** No signal adds, removes or renumbers a destination. */
  lemma {:induction false} ApplyKeepsNumbers(doc: Json, s: Signal)
    requires GoodDoc(doc) && GoodSignal(s)
    ensures GoodDoc(Apply(doc, s))
    ensures Numbers(Table(Apply(doc, s), DESTINATIONS)) == Numbers(Table(doc, DESTINATIONS))
  {
    SectionsDiffer();
    ApplyRows(doc, s, Filters);
    match s
    case DestinationChanged(n, changes) =>
      var rows := NewDestinationRows(Table(doc, DESTINATIONS), DestinationPath(n), changes);
      if rows.Some? {
        ChangesKeepNumbers(Table(doc, DESTINATIONS), DestinationPath(n), changes, |changes|);
        WithTableSets(doc, DESTINATIONS, rows.value);
      }
    case _ => ApplyKeepsOthers(doc, s, DESTINATIONS);
  }

  // ---- steps and runs

  datatype Event =
    | Write(t: TableId, b: nat, p: string, v: Vec, accepted: bool)
    | ChangeConfInfo(p: string, cell: Json)
    | ChangeDestination(n: int, changes: Changes)
    | Deliver
    | Restart

  /** D-Bus hands the write to the validator: the list and property exist and the type fits. */
  predicate Reaches(st: State, t: TableId, b: nat, p: string, v: Vec) {
    b < LISTS && b in Lists(st, t) && p in Lists(st, t)[b] && v.KindOf() == Lists(st, t)[b][p].KindOf()
  }

  function WithLists(st: State, t: TableId, lists: map<nat, Object>): State {
    match t
    case Filters => st.(filters := lists)
    case Policies => st.(policies := lists)
  }

  ghost predicate GoodState(st: State) {
    GoodDoc(st.doc) && forall s | s in st.queue :: GoodSignal(s)
  }

  /** One step: a write (the validator may accept or refuse it), a changed scalar of an object
      there is, the delivery of the oldest signal, or a restart of the configuration process. */
  ghost function Next(st: State, e: Event): State
    requires GoodState(st)
  {
    match e
    case Write(t, b, p, v, accepted) =>
      if Reaches(st, t, b, p, v) && accepted then
        var lists := Lists(st, t);
        WithLists(st, t, lists[b := lists[b][p := v]]).(queue := st.queue + [ListChanged(t, b, p, v)])
      else st
    case ChangeConfInfo(p, cell) => st.(queue := st.queue + [ConfInfoChanged(p, cell)])
    case ChangeDestination(n, changes) =>
      if n in st.destinations && Publishable(changes) then st.(queue := st.queue + [DestinationChanged(n, changes)])
      else st
    case Deliver => if st.queue == [] then st else st.(doc := Apply(st.doc, st.queue[0]), queue := st.queue[1..])
    case Restart => Publish(st)
  }

  ghost function Publish(st: State): State
    requires GoodDoc(st.doc)
  {
    st.(filters := Published(FILTER_SPEC, Rows(st.doc, Filters)),
        policies := Published(POLICY_SPEC, Rows(st.doc, Policies)),
        destinations := Numbers(Table(st.doc, DESTINATIONS)))
  }

  lemma {:induction false} NextGood(st: State, e: Event)
    requires GoodState(st)
    ensures GoodState(Next(st, e))
  {
    if e.Deliver? && st.queue != [] {
      ApplyRows(st.doc, st.queue[0], Filters);
    }
  }

  /** The file after all the signals. */
  ghost function Replay(doc: Json, queue: seq<Signal>): (r: Json)
    requires GoodDoc(doc) && forall s | s in queue :: GoodSignal(s)
    ensures GoodDoc(r)
    decreases |queue|
  {
    if queue == [] then doc
    else
      ApplyRows(doc, queue[0], Filters);
      Replay(Apply(doc, queue[0]), queue[1..])
  }

  lemma {:induction false} ReplayAppend(doc: Json, queue: seq<Signal>, s: Signal)
    requires GoodDoc(doc) && (forall x | x in queue :: GoodSignal(x)) && GoodSignal(s)
    ensures Replay(doc, queue + [s]) == Apply(Replay(doc, queue), s)
    decreases |queue|
  {
    if queue == [] {
      ApplyRows(doc, s, Filters);
      assert (queue + [s])[1..] == [];
    } else {
      assert (queue + [s])[1..] == queue[1..] + [s];
      ApplyRows(doc, queue[0], Filters);
      ReplayAppend(Apply(doc, queue[0]), queue[1..], s);
    }
  }

  /** Replaying the pending signals onto the file gives exactly the columns D-Bus holds. */
  ghost predicate TableInSync(doc: Json, queue: seq<Signal>, t: TableId, lists: map<nat, Object>)
    requires GoodDoc(doc) && forall s | s in queue :: GoodSignal(s)
  {
    Published(SpecOf(t), Rows(Replay(doc, queue), t)) == lists
  }

  /** And the destination objects are those the section holds. */
  ghost predicate InSync(st: State) {
    && GoodState(st)
    && TableInSync(st.doc, st.queue, Filters, st.filters)
    && TableInSync(st.doc, st.queue, Policies, st.policies)
    && st.destinations == Numbers(Table(st.doc, DESTINATIONS))
  }

  /** The file as it is publishes the columns D-Bus holds: the pending signals change none. */
  ghost predicate PublishesHeld(st: State)
    requires GoodDoc(st.doc)
  {
    && Published(FILTER_SPEC, Rows(st.doc, Filters)) == st.filters
    && Published(POLICY_SPEC, Rows(st.doc, Policies)) == st.policies
  }

  /** Vectors have their list's length, and a restart finds a file that publishes the columns
      D-Bus holds. */
  ghost predicate Careful(st: State, e: Event)
    requires GoodState(st)
  {
    && (e.Write? && e.accepted && Reaches(st, e.t, e.b, e.p, e.v) ==>
          e.v.Size() == Lists(st, e.t)[e.b][e.p].Size())
    && (e.Restart? ==> PublishesHeld(st))
  }

  /** WriteBack for lists that are known to be the published ones. */
  lemma {:induction false} ListWrite(spec: TableSpec, rows: seq<Row>, lists: map<nat, Object>, b: nat, p: string,
      v: Vec)
    requires spec.width > 0 && lists == Published(spec, rows)
    requires b in lists && p in lists[b] && v.KindOf() == lists[b][p].KindOf()
    ensures Published(spec, Rewritten(rows, b * spec.width, p, v)) == lists[b := lists[b][p := v]]
            <==> v.Size() == lists[b][p].Size()
  {
    PublishedUpToAt(spec, rows, LISTS, b);
    WriteBack(spec, rows, b, p, v);
  }

  /** A list signal at the end of the queue, seen by the table it is about. */
  lemma {:induction false} OwnTable(doc: Json, queue: seq<Signal>, t: TableId, lists: map<nat, Object>, b: nat,
      p: string, v: Vec)
    requires GoodDoc(doc) && (forall s | s in queue :: GoodSignal(s)) && TableInSync(doc, queue, t, lists)
    requires b < LISTS && b in lists && p in lists[b] && v.KindOf() == lists[b][p].KindOf()
    ensures TableInSync(doc, queue + [ListChanged(t, b, p, v)], t, lists[b := lists[b][p := v]])
            <==> v.Size() == lists[b][p].Size()
  {
    var rows := Rows(Replay(doc, queue), t);
    ReplayAppend(doc, queue, ListChanged(t, b, p, v));
    ApplyRows(Replay(doc, queue), ListChanged(t, b, p, v), t);
    ListWrite(SpecOf(t), rows, lists, b, p, v);
  }

  /** A signal at the end of the queue, seen by a table it is not about. */
  lemma {:induction false} OtherTable(doc: Json, queue: seq<Signal>, t: TableId, lists: map<nat, Object>, s: Signal)
    requires GoodDoc(doc) && (forall x | x in queue :: GoodSignal(x)) && TableInSync(doc, queue, t, lists)
    requires GoodSignal(s) && (s.ListChanged? ==> s.t != t)
    ensures TableInSync(doc, queue + [s], t, lists)
  {
    ReplayAppend(doc, queue, s);
    ApplyRows(Replay(doc, queue), s, t);
  }

  /** An accepted write keeps the two processes in agreement exactly when the written vector
      has its list's length; a longer one spills into the next list. */
  lemma {:induction false} WriteKeepsSync(st: State, t: TableId, b: nat, p: string, v: Vec)
    requires InSync(st) && Reaches(st, t, b, p, v)
    ensures InSync(Next(st, Write(t, b, p, v, true))) <==> v.Size() == Lists(st, t)[b][p].Size()
  {
    var s := ListChanged(t, b, p, v);
    OwnTable(st.doc, st.queue, t, Lists(st, t), b, p, v);
    match t
    case Filters => OtherTable(st.doc, st.queue, Policies, st.policies, s);
    case Policies => OtherTable(st.doc, st.queue, Filters, st.filters, s);
  }

  lemma {:induction false} ScalarKeepsSync(st: State, s: Signal)
    requires InSync(st) && GoodSignal(s) && !s.ListChanged?
    ensures InSync(st.(queue := st.queue + [s]))
  {
    OtherTable(st.doc, st.queue, Filters, st.filters, s);
    OtherTable(st.doc, st.queue, Policies, st.policies, s);
  }

  lemma {:induction false} ReplayFirst(doc: Json, queue: seq<Signal>)
    requires GoodDoc(doc) && (forall s | s in queue :: GoodSignal(s)) && queue != []
    ensures GoodDoc(Apply(doc, queue[0]))
    ensures Replay(Apply(doc, queue[0]), queue[1..]) == Replay(doc, queue)
    ensures Numbers(Table(Apply(doc, queue[0]), DESTINATIONS)) == Numbers(Table(doc, DESTINATIONS))
  {
    ApplyKeepsNumbers(doc, queue[0]);
  }

  /** A delivery neither makes nor breaks the agreement. */
  lemma {:induction false} DeliverKeepsSync(st: State)
    requires GoodState(st)
    ensures InSync(Next(st, Deliver)) <==> InSync(st)
  {
    NextGood(st, Deliver);
    if st.queue != [] {
      ReplayFirst(st.doc, st.queue);
    }
  }

  /** A restart, with any signals pending, keeps the agreement exactly when the file publishes
      what D-Bus holds, and then it changes nothing. */
  lemma {:induction false} RestartKeepsSync(st: State)
    requires InSync(st)
    ensures InSync(Next(st, Restart)) <==> PublishesHeld(st)
    ensures Next(st, Restart) == st <==> PublishesHeld(st)
  {
  }

  /** A step keeps the agreement exactly when it is careful. */
  lemma {:induction false} StepKeepsSync(st: State, e: Event)
    requires InSync(st)
    ensures InSync(Next(st, e)) <==> Careful(st, e)
  {
    match e
    case Write(t, b, p, v, accepted) =>
      if Reaches(st, t, b, p, v) && accepted {
        WriteKeepsSync(st, t, b, p, v);
      }
    case ChangeConfInfo(p, cell) => ScalarKeepsSync(st, ConfInfoChanged(p, cell));
    case ChangeDestination(n, changes) =>
      if n in st.destinations && Publishable(changes) {
        ScalarKeepsSync(st, DestinationChanged(n, changes));
      }
    case Deliver => DeliverKeepsSync(st);
    case Restart => RestartKeepsSync(st);
  }

  /** The states of a run. */
  ghost predicate Run(states: seq<State>, events: seq<Event>) {
    && |states| == |events| + 1
    && forall i | 0 <= i < |events| :: StepAt(states, events, i)
  }

  ghost predicate StepAt(states: seq<State>, events: seq<Event>, i: nat)
    requires |states| == |events| + 1 && i < |events|
  {
    GoodState(states[i]) && states[i + 1] == Next(states[i], events[i])
  }

  ghost predicate CarefulAt(states: seq<State>, events: seq<Event>, i: nat)
    requires |states| == |events| + 1 && i < |events| && StepAt(states, events, i)
  {
    Careful(states[i], events[i])
  }

  ghost predicate FreshStart(st: State) {
    GoodDoc(st.doc) && st.queue == [] && st == Publish(st)
  }

  lemma {:induction false} FreshInSync(st: State)
    requires FreshStart(st)
    ensures InSync(st)
  {
    assert Replay(st.doc, []) == st.doc;
    assert st.filters == Publish(st).filters && st.policies == Publish(st).policies;
  }

  lemma {:induction false} CarefulStep(st: State, e: Event, next: State)
    requires InSync(st) && Careful(st, e) && next == Next(st, e)
    ensures InSync(next)
  {
    StepKeepsSync(st, e);
  }

  lemma {:induction false} CarefulRun(states: seq<State>, events: seq<Event>, k: nat)
    requires Run(states, events) && FreshStart(states[0]) && k < |states|
    requires forall i | 0 <= i < |events| :: CarefulAt(states, events, i)
    ensures InSync(states[k])
  {
    if k == 0 {
      FreshInSync(states[0]);
    } else {
      CarefulRun(states, events, k - 1);
      assert StepAt(states, events, k - 1) && CarefulAt(states, events, k - 1);
      CarefulStep(states[k - 1], events[k - 1], states[k]);
    }
  }

  /** From a fresh start, the file with the pending signals replayed agrees with D-Bus at every
      state of a run exactly when every step of the run is careful. */
  lemma {:induction false} RunKeepsSync(states: seq<State>, events: seq<Event>)
    requires Run(states, events) && FreshStart(states[0])
    ensures (forall k | 0 <= k < |states| :: InSync(states[k]))
            <==> (forall i | 0 <= i < |events| :: CarefulAt(states, events, i))
  {
    if forall k | 0 <= k < |states| :: InSync(states[k]) {
      forall i | 0 <= i < |events|
        ensures CarefulAt(states, events, i)
      {
        assert StepAt(states, events, i) && InSync(states[i]) && InSync(states[i + 1]);
        StepKeepsSync(states[i], events[i]);
      }
    }
    if forall i | 0 <= i < |events| :: CarefulAt(states, events, i) {
      forall k | 0 <= k < |states|
        ensures InSync(states[k])
      {
        CarefulRun(states, events, k);
      }
    }
  }

  /** Once the queue has drained, a restart publishes the columns D-Bus already holds. */
  lemma {:induction false} DrainedRestart(st: State)
    requires InSync(st) && st.queue == []
    ensures PublishesHeld(st) && Next(st, Restart) == st
  {
    assert Replay(st.doc, []) == st.doc;
    assert PublishesHeld(st);
    RestartKeepsSync(st);
  }

  /** The next n signals delivered. */
  ghost function Delivered(st: State, n: nat): (r: State)
    requires GoodState(st)
    ensures GoodState(r)
    decreases n
  {
    if n == 0 then st
    else
      NextGood(st, Deliver);
      Delivered(Next(st, Deliver), n - 1)
  }

  lemma {:induction false} DeliveriesKeepSync(st: State, n: nat)
    requires GoodState(st)
    ensures InSync(Delivered(st, n)) <==> InSync(st)
    decreases n
  {
    if n > 0 {
      var next := Next(st, Deliver);
      NextGood(st, Deliver);
      DeliveriesKeepSync(next, n - 1);
      assert Delivered(st, n) == Delivered(next, n - 1);
      DeliverKeepsSync(st);
    }
  }

  /** A restart with any signals pending, followed by any number of deliveries, also of all of
      them, ends in agreement exactly when the file published what D-Bus held. */
  lemma {:induction false} EarlyRestart(st: State, n: nat)
    requires InSync(st)
    ensures GoodState(Next(st, Restart))
    ensures InSync(Delivered(Next(st, Restart), n)) <==> PublishesHeld(st)
  {
    RestartKeepsSync(st);
    DeliveriesKeepSync(Next(st, Restart), n);
  }

  /** So a restart between one write and its delivery keeps the agreement exactly when the
      write changed nothing. */
  lemma {:induction false} RestartAfterWrite(st: State, t: TableId, b: nat, p: string, v: Vec)
    requires InSync(st) && st.queue == [] && Reaches(st, t, b, p, v)
    requires v.Size() == Lists(st, t)[b][p].Size()
    ensures InSync(Next(st, Write(t, b, p, v, true)))
    ensures PublishesHeld(Next(st, Write(t, b, p, v, true))) <==> v == Lists(st, t)[b][p]
  {
    var lists := Lists(st, t);
    WriteKeepsSync(st, t, b, p, v);
    DrainedRestart(st);
    assert lists[b := lists[b][p := v]] == lists <==> v == lists[b][p] by {
      assert v == lists[b][p] ==> lists[b][p := v] == lists[b];
      assert lists[b := lists[b][p := v]][b][p] == v;
    }
  }

  // ---- where a written element ends up

  /** The rows in each list of a table but the last. */
  function Width(t: TableId): nat {
    match t
    case Filters => 10
    case Policies => 15
  }

  /** Delivering a list's signal stores element i of its vector in row i of the list, as a number
      or a text, and leaves every other row and every other key. */
  lemma {:induction false} SliceDelivered(doc: Json, t: TableId, b: nat, p: string, v: Vec, j: nat)
    requires GoodDoc(doc) && b < LISTS && j < |Rows(doc, t)|
    ensures var now := Apply(doc, ListChanged(t, b, p, v));
            && GoodDoc(now)
            && |Rows(now, t)| == |Rows(doc, t)|
            && var i := j - b * Width(t);
               if 0 <= i < v.Size() then OnlySet(Rows(doc, t)[j], Rows(now, t)[j], p, Element(v, i))
               else Rows(now, t)[j] == Rows(doc, t)[j]
  {
    ApplyRows(doc, ListChanged(t, b, p, v), t);
    RewrittenAt(Rows(doc, t), b * SpecOf(t).width, p, v, j);
    assert SpecOf(t).width == Width(t);
  }

  lemma {:induction false} RewrittenAt(rows: seq<Row>, start: nat, p: string, v: Vec, j: nat)
    requires j < |rows|
    ensures if start <= j < start + v.Size()
            then OnlySet(rows[j], Rewritten(rows, start, p, v)[j], p, Element(v, j - start))
            else Rewritten(rows, start, p, v)[j] == rows[j]
  {
    if start <= j < start + v.Size() {
      assert Cell(v, j - start) == Element(v, j - start);
    }
  }

  function Element(v: Vec, i: nat): Json
    requires i < v.Size()
  {
    if v.Bytes? then Num(v.bytes[i]) else if v.Words? then Num(v.words[i]) else Str(v.texts[i])
  }

  // ---- the configuration properties

  /** The signal is a change of configuration property q. */
  predicate Changes(s: Signal, q: string) {
    s.ConfInfoChanged? && s.p == q
  }

  /** Pending signal i is the last change of property q. */
  predicate LastChange(queue: seq<Signal>, i: nat, q: string)
    requires i < |queue|
  {
    Changes(queue[i], q) && forall j | i < j < |queue| :: !Changes(queue[j], q)
  }

  ghost predicate NoChange(queue: seq<Signal>, q: string) {
    forall i | 0 <= i < |queue| :: !Changes(queue[i], q)
  }

  /** One signal sets its property in every row of the section, or leaves the section. */
  lemma {:induction false} ApplyConfInfo(doc: Json, s: Signal, k: nat, q: string)
    requires GoodDoc(doc) && GoodSignal(s) && k < |Table(doc, CONF_INFO)|
    ensures GoodDoc(Apply(doc, s)) && |Table(Apply(doc, s), CONF_INFO)| == |Table(doc, CONF_INFO)|
    ensures var before, after := Table(doc, CONF_INFO)[k], Table(Apply(doc, s), CONF_INFO)[k];
            if Changes(s, q) then q in after && after[q] == s.cell else SameAt(before, after, q)
  {
    SectionsDiffer();
    ApplyRows(doc, s, Filters);
    match s
    case ConfInfoChanged(p, cell) => WithTableSets(doc, CONF_INFO, EveryRowSet(Table(doc, CONF_INFO), p, cell));
    case _ => ApplyKeepsOthers(doc, s, CONF_INFO);
  }

  /** With the pending signals replayed, every configuration property has, in every row of its
      section, the value of its last pending change, and the file's own when there is none. */
  lemma {:induction false} ConfInfoReplayed(doc: Json, queue: seq<Signal>, k: nat, q: string)
    requires GoodDoc(doc) && (forall s | s in queue :: GoodSignal(s)) && k < |Table(doc, CONF_INFO)|
    ensures |Table(Replay(doc, queue), CONF_INFO)| == |Table(doc, CONF_INFO)|
    ensures var after := Table(Replay(doc, queue), CONF_INFO)[k];
            && (forall i | 0 <= i < |queue| && LastChange(queue, i, q) :: q in after && after[q] == queue[i].cell)
            && (NoChange(queue, q) ==> SameAt(Table(doc, CONF_INFO)[k], after, q))
    decreases |queue|
  {
    if queue != [] {
      var rest := queue[1..];
      ApplyConfInfo(doc, queue[0], k, q);
      ConfInfoReplayed(Apply(doc, queue[0]), rest, k, q);
      forall i | 0 <= i < |queue| && LastChange(queue, i, q)
        ensures if i == 0 then NoChange(rest, q) else LastChange(rest, i - 1, q)
      {
        assert forall j | 0 <= j < |rest| :: rest[j] == queue[j + 1];
      }
    }
  }

  // ---- the destination properties

  /** The rows carry different numbers from 0 up. */
  ghost predicate Numbered(rows: seq<Row>) {
    UniqueDestinations(rows) && forall k | 0 <= k < |rows| :: rows[k][DESTINATION_KEY].n >= 0
  }

  lemma {:induction false} DestinationNamesHaveNoDigits()
    ensures forall c | c in "Entry" :: !IsDigit(c) && !IsSeparator(c)
    ensures DESTINATION_DIR != [] && IsSeparator(DESTINATION_DIR[|DESTINATION_DIR| - 1])
  {
    assert DESTINATION_DIR == MANAGER + "DestinationSelector/";
  }

  lemma {:induction false} NoSuchRow(rows: seq<Row>, j: nat, n: int)
    requires Numbered(rows) && j <= |rows| && forall k | 0 <= k < |rows| :: rows[k][DESTINATION_KEY].n != n
    ensures FirstRow(rows, j, DESTINATION_KEY, n, IsError) == Absent
    decreases |rows| - j
  {
    if j < |rows| {
      NoSuchRow(rows, j + 1, n);
    }
  }

  lemma {:induction false} NoRowChanges(rows: seq<Row>, path: string, changes: Changes, k: nat)
    requires k <= |changes|
    requires Numbered(rows) && forall j | 0 <= j < |rows| :: rows[j][DESTINATION_KEY].n != EntryNo(path)
    ensures RowsAfter(rows, path, changes, k) == Some(rows)
  {
    if k > 0 {
      NoRowChanges(rows, path, changes, k - 1);
      NoSuchRow(rows, 0, EntryNo(path));
    }
  }

  /** The signal is for destination n and has a change of property q. */
  predicate ChangesDestination(s: Signal, n: int, q: string) {
    s.DestinationChanged? && s.n == n && !Untouched(s.changes, q)
  }

  /** The value a signal's last change of property q gives it. */
  ghost predicate GivesValue(changes: Changes, row: Row, q: string) {
    forall i | 0 <= i < |changes| && LastOf(changes, i) && changes[i].0 == q :: q in row && row[q] == changes[i].1
  }

  /** What a destination signal does to the row of its number and to every other row. */
  lemma {:induction false} DestinationRows(rows: seq<Row>, n: int, changes: Changes, k: nat, q: string)
    requires Numbered(rows) && n >= 0 && Publishable(changes) && k < |rows|
    ensures NewDestinationRows(rows, DestinationPath(n), changes).Some?
    ensures var now := NewDestinationRows(rows, DestinationPath(n), changes).value;
            && Numbered(now)
            && now[k][DESTINATION_KEY] == rows[k][DESTINATION_KEY]
            && if rows[k][DESTINATION_KEY].n == n && !Untouched(changes, q) then GivesValue(changes, now[k], q)
               else SameAt(rows[k], now[k], q)
  {
    DestinationNamesHaveNoDigits();
    EntryNoOfPrinted(DESTINATION_DIR, "Entry", n);
    if j :| 0 <= j < |rows| && rows[j][DESTINATION_KEY].n == n {
      DestinationSignalHitsEntry(rows, j, DESTINATION_DIR, "Entry", changes);
      var now := NewDestinationRows(rows, DestinationPath(n), changes).value;
      assert Untouched(changes, DESTINATION_KEY);
      assert SameAt(rows[j], now[j], DESTINATION_KEY);
      if k != j {
        assert now[k] == rows[k];
      }
    } else {
      NoRowChanges(rows, DestinationPath(n), changes, |changes|);
    }
  }

  ghost predicate NumberedSignal(s: Signal) {
    GoodSignal(s) && (s.DestinationChanged? ==> s.n >= 0)
  }

  lemma {:induction false} ApplyDestination(doc: Json, s: Signal, k: nat, q: string)
    requires GoodDoc(doc) && NumberedSignal(s)
    requires Numbered(Table(doc, DESTINATIONS)) && k < |Table(doc, DESTINATIONS)|
    ensures GoodDoc(Apply(doc, s)) && |Table(Apply(doc, s), DESTINATIONS)| == |Table(doc, DESTINATIONS)|
    ensures Numbered(Table(Apply(doc, s), DESTINATIONS))
    ensures var before, after := Table(doc, DESTINATIONS)[k], Table(Apply(doc, s), DESTINATIONS)[k];
            && after[DESTINATION_KEY] == before[DESTINATION_KEY]
            && if ChangesDestination(s, before[DESTINATION_KEY].n, q) then GivesValue(s.changes, after, q)
               else SameAt(before, after, q)
  {
    SectionsDiffer();
    ApplyRows(doc, s, Filters);
    match s
    case DestinationChanged(n, changes) =>
      var rows := Table(doc, DESTINATIONS);
      DestinationRows(rows, n, changes, k, q);
      WithTableSets(doc, DESTINATIONS, NewDestinationRows(rows, DestinationPath(n), changes).value);
    case _ => ApplyKeepsOthers(doc, s, DESTINATIONS);
  }

  /** With the pending signals replayed, every property of a destination has the value of the
      last pending change for its number, and the file's own when there is none. */
  lemma {:induction false} DestinationsReplayed(doc: Json, queue: seq<Signal>, k: nat, q: string)
    requires GoodDoc(doc) && forall s | s in queue :: GoodSignal(s)
    requires forall s | s in queue :: NumberedSignal(s)
    requires Numbered(Table(doc, DESTINATIONS)) && k < |Table(doc, DESTINATIONS)|
    ensures |Table(Replay(doc, queue), DESTINATIONS)| == |Table(doc, DESTINATIONS)|
    ensures var before, after := Table(doc, DESTINATIONS)[k], Table(Replay(doc, queue), DESTINATIONS)[k];
            var n := before[DESTINATION_KEY].n;
            && (forall i | 0 <= i < |queue| && LastForDestination(queue, i, n, q) ::
                  GivesValue(queue[i].changes, after, q))
            && (NoneForDestination(queue, n, q) ==> SameAt(before, after, q))
    decreases |queue|
  {
    if queue != [] {
      var rest, n := queue[1..], Table(doc, DESTINATIONS)[k][DESTINATION_KEY].n;
      ApplyDestination(doc, queue[0], k, q);
      DestinationsReplayed(Apply(doc, queue[0]), rest, k, q);
      forall i | 0 <= i < |queue| && LastForDestination(queue, i, n, q)
        ensures if i == 0 then NoneForDestination(rest, n, q) else LastForDestination(rest, i - 1, n, q)
      {
        assert forall j | 0 <= j < |rest| :: rest[j] == queue[j + 1];
      }
    }
  }

  predicate LastForDestination(queue: seq<Signal>, i: nat, n: int, q: string)
    requires i < |queue|
  {
    ChangesDestination(queue[i], n, q) && forall j | i < j < |queue| :: !ChangesDestination(queue[j], n, q)
  }

  ghost predicate NoneForDestination(queue: seq<Signal>, n: int, q: string) {
    forall i | 0 <= i < |queue| :: !ChangesDestination(queue[i], n, q)
  }

  // ---- what a write leaves in the file once it is delivered

  lemma {:induction false} DrainedIsReplayed(st: State)
    requires GoodState(st)
    ensures Delivered(st, |st.queue|).doc == Replay(st.doc, st.queue)
    decreases |st.queue|
  {
    if st.queue != [] {
      NextGood(st, Deliver);
      DrainedIsReplayed(Next(st, Deliver));
    }
  }

  lemma {:induction false} DrainedWith(st: State, changed: State, s: Signal)
    requires GoodState(st) && GoodSignal(s) && changed == st.(queue := st.queue + [s])
    ensures GoodState(changed)
    ensures Delivered(changed, |st.queue| + 1).doc == Replay(st.doc, st.queue + [s])
  {
    DrainedIsReplayed(changed);
  }

  /** The rows of a published list reach as far as its columns. */
  lemma {:induction false} ListRows(doc: Json, queue: seq<Signal>, t: TableId, lists: map<nat, Object>, b: nat,
      p: string, i: nat)
    requires GoodDoc(doc) && (forall s | s in queue :: GoodSignal(s)) && TableInSync(doc, queue, t, lists)
    requires b in lists && p in lists[b] && i < lists[b][p].Size()
    ensures b < LISTS && b * Width(t) + i < |Rows(Replay(doc, queue), t)|
  {
    var spec, rows := SpecOf(t), Rows(Replay(doc, queue), t);
    PublishedAt(spec, rows);
    StartBeforeEnd(spec.width, |rows|, b);
    assert lists[b] == Columns(spec.kinds, Bucket(spec.width, rows, b));
  }

  /** An accepted write of a vector of its list's length is on D-Bus at once and, behind any
      pending signals, element by element in the list's rows of the file once as many signals
      have been delivered as were pending then and its own. */
  lemma {:induction false} ListWriteArrives(st: State, t: TableId, b: nat, p: string, v: Vec, i: nat)
    requires InSync(st) && b in Lists(st, t) && p in Lists(st, t)[b]
    requires v.KindOf() == Lists(st, t)[b][p].KindOf() && v.Size() == Lists(st, t)[b][p].Size() && i < v.Size()
    ensures var changed := Next(st, Write(t, b, p, v, true));
            && GoodState(changed)
            && Lists(changed, t) == Lists(st, t)[b := Lists(st, t)[b][p := v]]
    ensures var end, j := Delivered(Next(st, Write(t, b, p, v, true)), |st.queue| + 1).doc, b * Width(t) + i;
            && GoodDoc(end) && j < |Rows(end, t)|
            && p in Rows(end, t)[j] && Rows(end, t)[j][p] == Element(v, i)
  {
    ListLast(st.doc, st.queue, t, Lists(st, t), b, p, v, i);
    WrittenState(st, t, b, p, v);
    DrainedIsReplayed(Next(st, Write(t, b, p, v, true)));
  }

  lemma {:induction false} SliceAt(doc: Json, t: TableId, b: nat, p: string, v: Vec, i: nat)
    requires GoodDoc(doc) && b < LISTS && i < v.Size() && b * Width(t) + i < |Rows(doc, t)|
    ensures var now, j := Apply(doc, ListChanged(t, b, p, v)), b * Width(t) + i;
            && GoodDoc(now) && j < |Rows(now, t)|
            && p in Rows(now, t)[j] && Rows(now, t)[j][p] == Element(v, i)
  {
    SliceDelivered(doc, t, b, p, v, b * Width(t) + i);
  }

  lemma {:induction false} ListLast(doc: Json, queue: seq<Signal>, t: TableId, lists: map<nat, Object>, b: nat,
      p: string, v: Vec, i: nat)
    requires GoodDoc(doc) && (forall s | s in queue :: GoodSignal(s)) && TableInSync(doc, queue, t, lists)
    requires b in lists && p in lists[b] && i < v.Size() == lists[b][p].Size()
    ensures b < LISTS
    ensures var now, j := Rows(Replay(doc, queue + [ListChanged(t, b, p, v)]), t), b * Width(t) + i;
            j < |now| && p in now[j] && now[j][p] == Element(v, i)
  {
    ListRows(doc, queue, t, lists, b, p, i);
    ReplayAppend(doc, queue, ListChanged(t, b, p, v));
    SliceAt(Replay(doc, queue), t, b, p, v, i);
  }

  lemma {:induction false} WrittenState(st: State, t: TableId, b: nat, p: string, v: Vec)
    requires GoodState(st) && Reaches(st, t, b, p, v)
    ensures var changed := Next(st, Write(t, b, p, v, true));
            && GoodState(changed) && changed.doc == st.doc
            && changed.queue == st.queue + [ListChanged(t, b, p, v)]
            && Lists(changed, t) == Lists(st, t)[b := Lists(st, t)[b][p := v]]
  {
  }

  lemma {:induction false} ConfInfoLast(doc: Json, queue: seq<Signal>, p: string, cell: Json, k: nat)
    requires GoodDoc(doc) && (forall s | s in queue :: GoodSignal(s)) && k < |Table(doc, CONF_INFO)|
    ensures var now := Table(Replay(doc, queue + [ConfInfoChanged(p, cell)]), CONF_INFO);
            |now| == |Table(doc, CONF_INFO)| && p in now[k] && now[k][p] == cell
  {
    var all := queue + [ConfInfoChanged(p, cell)];
    ConfInfoReplayed(doc, all, k, p);
    assert all[|queue|] == ConfInfoChanged(p, cell) && LastChange(all, |queue|, p);
  }

  /** A configuration change, behind any pending signals, is in every row of the section once as
      many signals have been delivered as were pending then and its own. */
  lemma {:induction false} ConfInfoArrives(st: State, p: string, cell: Json, k: nat)
    requires GoodState(st) && k < |Table(st.doc, CONF_INFO)|
    ensures GoodState(Next(st, ChangeConfInfo(p, cell)))
    ensures var end := Delivered(Next(st, ChangeConfInfo(p, cell)), |st.queue| + 1).doc;
            && GoodDoc(end)
            && |Table(end, CONF_INFO)| == |Table(st.doc, CONF_INFO)|
            && p in Table(end, CONF_INFO)[k]
            && Table(end, CONF_INFO)[k][p] == cell
  {
    DrainedWith(st, Next(st, ChangeConfInfo(p, cell)), ConfInfoChanged(p, cell));
    ConfInfoLast(st.doc, st.queue, p, cell, k);
  }

  lemma {:induction false} DestinationLast(doc: Json, queue: seq<Signal>, n: int, changes: Changes, k: nat, q: string)
    requires GoodDoc(doc) && forall s | s in queue :: GoodSignal(s)
    requires forall s | s in queue :: NumberedSignal(s)
    requires Numbered(Table(doc, DESTINATIONS)) && k < |Table(doc, DESTINATIONS)|
    requires Table(doc, DESTINATIONS)[k][DESTINATION_KEY].n == n && Publishable(changes) && !Untouched(changes, q)
    ensures var now := Table(Replay(doc, queue + [DestinationChanged(n, changes)]), DESTINATIONS);
            |now| == |Table(doc, DESTINATIONS)| && GivesValue(changes, now[k], q)
  {
    var all := queue + [DestinationChanged(n, changes)];
    DestinationsReplayed(doc, all, k, q);
    assert all[|queue|] == DestinationChanged(n, changes) && LastForDestination(all, |queue|, n, q);
  }

  /** A change of a destination's properties likewise, in the row of its number. */
  lemma {:induction false} DestinationArrives(st: State, n: int, changes: Changes, k: nat, q: string)
    requires GoodState(st) && forall s | s in st.queue :: NumberedSignal(s)
    requires Numbered(Table(st.doc, DESTINATIONS)) && k < |Table(st.doc, DESTINATIONS)|
    requires n in st.destinations && Table(st.doc, DESTINATIONS)[k][DESTINATION_KEY].n == n
    requires Publishable(changes) && !Untouched(changes, q)
    ensures GoodState(Next(st, ChangeDestination(n, changes)))
    ensures var end := Delivered(Next(st, ChangeDestination(n, changes)), |st.queue| + 1).doc;
            && GoodDoc(end)
            && |Table(end, DESTINATIONS)| == |Table(st.doc, DESTINATIONS)|
            && GivesValue(changes, Table(end, DESTINATIONS)[k], q)
  {
    DrainedWith(st, Next(st, ChangeDestination(n, changes)), DestinationChanged(n, changes));
    DestinationLast(st.doc, st.queue, n, changes, k, q);
  }

  // ---- filtering and acting on agreeing tables

  /** While the processes are in sync, filtering sees exactly the JSON table with the pending
      writes replayed. */
  lemma {:induction false} FilteringSeesTable(st: State, ev: EventMsgData)
    requires InSync(st)
    ensures forall b | b in st.filters :: WellTyped(st.filters[b])
    ensures Gather(|st.filters|, st.filters, ev) == Select(Entries(Rows(Replay(st.doc, st.queue), Filters)), ev)
  {
    var rows := Rows(Replay(st.doc, st.queue), Filters);
    PublishedListsHold(rows);
    FilteringMeaning(st.filters, rows, ev);
  }

  /** The mapper and every policy list answer: one reply for each published list, in list order,
      at the path it is published under. */
  ghost predicate ListReplies(replies: seq<PolicyReply>, lists: map<nat, Object>) {
    && |replies| == |lists| <= LISTS
    && forall b: nat | b < |replies| ::
         replies[b].path == ListPath(Policies, b) && b in lists && replies[b].properties == Some(lists[b])
  }

  /** The lists are published where the alert selection looks for them. */
  lemma {:induction false} ListsUnderPrefix(b: nat)
    requires b < LISTS
    ensures CHILD_PREFIX <= ListPath(Policies, b)
  {
    var path := ListPath(Policies, b);
    assert path == POLICY_DIR + ("PolicyList_eth" + [DigitChar(b)]);
    assert POLICY_DIR == CHILD_PREFIX;
  }

  lemma {:induction false} RepliesAreOfLists(replies: seq<PolicyReply>, lists: map<nat, Object>)
    requires ListReplies(replies, lists)
    ensures RepliesOf(replies, lists)
  {
    forall b: nat | b < |replies|
      ensures CHILD_PREFIX <= replies[b].path
    {
      ListsUnderPrefix(b);
    }
  }

  /** And the policies of a group are the enabled rows of the JSON policy table, likewise. */
  lemma {:induction false} SelectionSeesTable(st: State, replies: seq<PolicyReply>, group: int)
    requires InSync(st) && ListReplies(replies, st.policies)
    ensures Selected(Some(replies), group)
            == if group > 0 then PoliciesOf(Rows(Replay(st.doc, st.queue), Policies), group) else []
  {
    RepliesAreOfLists(replies, st.policies);
    if group > 0 {
      PolicySelectionMeaning(replies, Rows(Replay(st.doc, st.queue), Policies), group);
    }
  }

  /** Matched row r asks for alerts, and the p-th enabled policy of its group in the JSON table
      sends this one. */
  ghost predicate TableAlert(e: Effect, row: EvtFilterTblEntry, r: nat, p: nat, policyRows: seq<Row>,
      ethMap: EthChannelMap, cfg: PefConfInfo, answers: Answers)
  {
    var group := row.alertPolicyNum % 16;
    var policies := PoliciesOf(policyRows, group);
    && Asked(row, cfg, ALERT_ACTION)
    && group > 0
    && p < |policies|
    && Alerts(e, policies[p], r, p, ethMap, answers)
  }

  lemma {:induction false} CauseInTable(st: State, e: Effect, row: EvtFilterTblEntry, r: nat, p: nat,
      ethMap: EthChannelMap, cfg: PefConfInfo, answers: Answers, replies: seq<PolicyReply>)
    requires InSync(st) && ListReplies(replies, st.policies)
    requires answers.policyObjects(r) == Some(replies)
    ensures AlertCause(e, row, r, p, ethMap, cfg, answers)
            <==> TableAlert(e, row, r, p, Rows(Replay(st.doc, st.queue), Policies), ethMap, cfg, answers)
  {
    SelectionSeesTable(st, replies, row.alertPolicyNum % 16);
  }

  /** So, while the processes are in sync and the lists answer, an event's trace has a power
      transition exactly when a matching row of the JSON filter table calls for it, and an
      alert exactly when such a row and an enabled row of its group in the JSON policy table
      call for it. */
  lemma {:induction false} EventActsOnTables(st: State, matched: seq<EvtFilterTblEntry>, ev: EventMsgData,
      ethMap: EthChannelMap, cfg: PefConfInfo, answers: Answers, replies: seq<PolicyReply>, e: Effect)
    requires InSync(st) && ListReplies(replies, st.policies)
    requires forall r: nat :: answers.policyObjects(r) == Some(replies)
    requires matched == Select(Entries(Rows(Replay(st.doc, st.queue), Filters)), ev)
    ensures Gather(|st.filters|, st.filters, ev) == matched
    ensures e.ChassisOff? || e.HostReboot? ==>
              (e in Outcome(matched, ev, ethMap, Some(cfg), answers)
               <==> exists r: nat :: r < |matched| && PowerCause(e, matched[r], r, cfg, answers))
    ensures e.SmtpAlert? || e.SnmpAlert? ==>
              (e in Outcome(matched, ev, ethMap, Some(cfg), answers)
               <==> exists r: nat, p: nat :: r < |matched| &&
                      TableAlert(e, matched[r], r, p, Rows(Replay(st.doc, st.queue), Policies), ethMap, cfg, answers))
  {
    FilteringSeesTable(st, ev);
    var log := Has(cfg.pefControl, 0x02);
    if e.ChassisOff? || e.HostReboot? {
      TransitionsExact(matched, ev, ethMap, cfg, answers, log, e);
    }
    if e.SmtpAlert? || e.SnmpAlert? {
      AlertsExact(matched, ev, ethMap, cfg, answers, log, e);
      forall r: nat, p: nat | r < |matched|
        ensures AlertCause(e, matched[r], r, p, ethMap, cfg, answers)
                <==> TableAlert(e, matched[r], r, p, Rows(Replay(st.doc, st.queue), Policies), ethMap, cfg, answers)
      {
        CauseInTable(st, e, matched[r], r, p, ethMap, cfg, answers, replies);
      }
    }
  }

  // ---- the rest of the document

  /** The callback of the signal saves through a merge patch. */
  predicate Patches(s: Signal) {
    s.ConfInfoChanged? || (s.ListChanged? && s.t.Policies?)
  }

  /** A filter or destination signal leaves every other section as it is, whatever it holds. */
  lemma {:induction false} OtherSectionsUntouched(doc: Json, s: Signal, section: string)
    requires GoodDoc(doc) && GoodSignal(s) && !Patches(s) && section != SectionOf(s)
    ensures Apply(doc, s).Obj?
    ensures section in Apply(doc, s).members <==> section in doc.members
    ensures section in doc.members ==> Apply(doc, s).members[section] == doc.members[section]
  {
  }

  /** A policy or configuration signal keeps another section exactly when that neither is nor
      holds null as an object member. */
  lemma {:induction false} OtherSectionsPatched(doc: Json, s: Signal, section: string)
    requires GoodDoc(doc) && GoodSignal(s) && Patches(s) && section != SectionOf(s)
    ensures Apply(doc, s).Obj?
    ensures section !in doc.members ==> section !in Apply(doc, s).members
    ensures section in doc.members ==>
              (section in Apply(doc, s).members && Apply(doc, s).members[section] == doc.members[section]
               <==> !doc.members[section].Null? && NullFree(doc.members[section]))
  {
    if s.ListChanged? {
      ListPathFound(Policies, s.b);
    }
    if section in doc.members && !doc.members[section].Null? {
      StripNullsResult(doc.members[section]);
      if NullFree(doc.members[section]) {
        StripNullFree(doc.members[section]);
      }
    }
  }
}
