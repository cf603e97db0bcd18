/** The callbacks that write changed D-Bus properties back into the JSON file
    (include/pef_config_update.hpp). */
module Monitors {
  import opened Types
  import opened Json
  import opened Tables
  import opened EntryPath

  /** A changed property value. */
  datatype Changed =
    | Vector(v: Vec)
    | Byte(byte: uint8)
    | Word(word: uint16)

  // ---- tables inside the document

  predicate IsTable(j: Json) {
    j.Arr? && forall e | e in j.elems :: e.Obj?
  }

  /** The section is missing, null, or an array of objects. */
  ghost predicate Tabular(doc: Json, section: string) {
    && doc.Obj?
    && (section in doc.members ==> doc.members[section].Null? || IsTable(doc.members[section]))
  }

  /** The rows `data[section]` ranges over: none when the section is missing or null. */
  function Table(doc: Json, section: string): (rows: seq<Row>)
    requires Tabular(doc, section)
  {
    if section in doc.members && doc.members[section].Arr? then
      var elems := doc.members[section].elems;
      seq(|elems|, i requires 0 <= i < |elems| => elems[i].members)
    else []
  }

  function Elements(rows: seq<Row>): seq<Json> {
    seq(|rows|, i requires 0 <= i < |rows| => Obj(rows[i]))
  }

  /** The document with new rows; `data[section]` makes a missing section null. */
  function WithTable(doc: Json, section: string, rows: seq<Row>): Json
    requires doc.Obj?
  {
    var listed := section in doc.members && doc.members[section].Arr?;
    Obj(doc.members[section := if listed then Arr(Elements(rows)) else Null])
  }

  lemma {:induction false} WithTableSets(doc: Json, section: string, rows: seq<Row>)
    requires Tabular(doc, section) && |rows| == |Table(doc, section)|
    ensures var d := WithTable(doc, section, rows);
            && Tabular(d, section) && Table(d, section) == rows
            && Tabular(StripNulls(d), section) && Table(StripNulls(d), section) == rows
  {
    StripNullsKeepsTable(WithTable(doc, section, rows), section);
  }

  /** Replacing the rows of one section, and removing null members, keeps the other tables. */
  lemma {:induction false} WithTableKeeps(doc: Json, section: string, rows: seq<Row>, other: string)
    requires Tabular(doc, other) && other != section
    ensures var d := WithTable(doc, section, rows);
            && Tabular(d, other) && Table(d, other) == Table(doc, other)
            && Tabular(StripNulls(d), other) && Table(StripNulls(d), other) == Table(doc, other)
  {
    StripNullsKeepsTable(WithTable(doc, section, rows), other);
  }

  /** Removing null members leaves every table as it is. */
  lemma {:induction false} StripNullsKeepsTable(doc: Json, section: string)
    requires Tabular(doc, section)
    ensures Tabular(StripNulls(doc), section) && Table(StripNulls(doc), section) == Table(doc, section)
  {
    if section in doc.members && !doc.members[section].Null? {
      assert StripNulls(doc).members[section] == StripNulls(doc.members[section]);
    }
  }

  // ---- one list

  /** Element i of a written vector, as the JSON value it is stored as. */
  function Cell(v: Vec, i: nat): Json
    requires i < v.Size()
  {
    match v
    case Bytes(b) => Num(b[i])
    case Words(w) => Num(w[i])
    case Texts(t) => Str(t[i])
  }

  /** The rows with property p of row start + i set to element i of the vector, as far as the
      table goes. */
  function Rewritten(rows: seq<Row>, start: nat, p: string, v: Vec): (r: seq<Row>)
    ensures |r| == |rows|
  {
    seq(|rows|, k requires 0 <= k < |rows| =>
      if start <= k < start + v.Size() then rows[k][p := Cell(v, k - start)] else rows[k])
  }

  method WriteSlice(rows: seq<Row>, start: nat, p: string, v: Vec) returns (tbl: seq<Row>)
    ensures tbl == Rewritten(rows, start, p, v)
  {
    tbl := rows;
    var maxCount := if start < |rows| then |rows| - start else 0;
    var count := Min(v.Size(), maxCount);
    for i := 0 to count
      invariant |tbl| == |rows|
      invariant forall k | 0 <= k < |rows| ::
                  tbl[k] == if start <= k < start + i then rows[k][p := Cell(v, k - start)] else rows[k]
    {
      tbl := tbl[start + i := tbl[start + i][p := Cell(v, i)]];
    }
  }

  // ---- one entry, selected by its number (scalar changes)

  datatype Located = At(k: nat) | Absent | Malformed

  /** The first row whose key holds n; `other` says what rows without the key do. */
  function FirstRow(rows: seq<Row>, k: nat, key: string, n: int, other: MissingKey): (l: Located)
    requires k <= |rows|
    ensures l.At? ==> k <= l.k < |rows|
    decreases |rows| - k
  {
    if k == |rows| then Absent
    else if key in rows[k] && rows[k][key].Num? then
      if rows[k][key].n == n then At(k) else FirstRow(rows, k + 1, key, n, other)
    else
      match other
      case CountsAsZero => if n == 0 then At(k) else FirstRow(rows, k + 1, key, n, other)
      case TakesNonPositive => if n <= 0 then At(k) else FirstRow(rows, k + 1, key, n, other)
      case IsError => Malformed
  }

  datatype MissingKey = CountsAsZero | TakesNonPositive | IsError

  function SetRow(rows: seq<Row>, l: Located, p: string, cell: Json): (r: seq<Row>)
    requires l.At? ==> l.k < |rows|
    ensures |r| == |rows|
  {
    if l.At? then rows[l.k := rows[l.k][p := cell]] else rows
  }

  /** The row has the property's new value, and every other key as before. */
  ghost predicate OnlySet(before: Row, after: Row, p: string, cell: Json) {
    && p in after && after[p] == cell
    && forall q | q != p :: SameAt(before, after, q)
  }

  predicate SameAt(before: Row, after: Row, q: string) {
    (q in after <==> q in before) && (q in after ==> after[q] == before[q])
  }

  // ---- the event filter callback

  const FILTERS := "EventFilterTable"
  const POLICIES := "AlertPolicyTable"
  const CONF_INFO := "PEFConfInfo"
  const DESTINATIONS := "DestinationSelector"
  const DESTINATION_KEY := "LanDestination"

  /** The new filter rows; a vector for an object that is not a list changes nothing. */
  function NewFilterRows(rows: seq<Row>, path: string, p: string, value: Changed): (r: seq<Row>)
    ensures |r| == |rows|
  {
    var list := ListIndexFrom(path, "List", 1, 0);
    match value
    case Vector(v) => if list.Some? then Rewritten(rows, list.value * 10, p, v) else rows
    case Byte(x) => SetRow(rows, FirstRow(rows, 0, "EventFilterTableEntry", EntryNo(path), CountsAsZero), p, Num(x))
    case Word(x) => SetRow(rows, FirstRow(rows, 0, "EventFilterTableEntry", EntryNo(path), CountsAsZero), p, Num(x))
  }

  method EventFilterCallback(doc: Json, path: string, p: string, value: Changed) returns (saved: Json)
    requires Tabular(doc, FILTERS)
    ensures saved == WithTable(doc, FILTERS, NewFilterRows(Table(doc, FILTERS), path, p, value))
  {
    var tbl := Table(doc, FILTERS);
    var bucketIndex := FindListIndex(path, "List", 1);
    if bucketIndex.Some? && value.Vector? {
      tbl := WriteSlice(tbl, bucketIndex.value * 10, p, value.v);
    } else {
      var entryVal := FindEntryNo(path);
      match value
      case Word(x) => tbl := SetFilterEntry(tbl, entryVal, p, Num(x));
      case Byte(x) => tbl := SetFilterEntry(tbl, entryVal, p, Num(x));
      case Vector(_) =>
    }
    saved := WithTable(doc, FILTERS, tbl);
  }

  /** The row is the one a scalar change to the entry takes: it has the number, where a row
      without one counts as 0. */
  predicate FilterTakes(row: Row, entryVal: int) {
    NumberOf(row, "EventFilterTableEntry") == entryVal
  }

  method SetFilterEntry(rows: seq<Row>, entryVal: int, p: string, cell: Json) returns (tbl: seq<Row>)
    ensures |tbl| == |rows|
    ensures forall k | 0 <= k < |rows| ::
              if FilterTakes(rows[k], entryVal) && (forall j | 0 <= j < k :: !FilterTakes(rows[j], entryVal))
              then OnlySet(rows[k], tbl[k], p, cell)
              else tbl[k] == rows[k]
    ensures tbl == SetRow(rows, FirstRow(rows, 0, "EventFilterTableEntry", entryVal, CountsAsZero), p, cell)
  {
    tbl := rows;
    for k := 0 to |rows|
      invariant tbl == rows
      invariant forall j | 0 <= j < k :: !FilterTakes(rows[j], entryVal)
      invariant FirstRow(rows, 0, "EventFilterTableEntry", entryVal, CountsAsZero)
                == FirstRow(rows, k, "EventFilterTableEntry", entryVal, CountsAsZero)
    {
      if entryVal == NumberOf(tbl[k], "EventFilterTableEntry") {
        tbl := tbl[k := tbl[k][p := cell]];
        return;
      }
    }
  }

  /** A scalar signal for the object printed for entry n sets the first row with that number
      and no other. */
  lemma {:induction false} FilterSignalHitsEntry(rows: seq<Row>, k: nat, dir: string, name: string, n: nat, p: string,
      value: Changed)
    requires k < |rows| && !value.Vector?
    requires FilterTakes(rows[k], n) && forall j | 0 <= j < k :: !FilterTakes(rows[j], n)
    requires dir == [] || IsSeparator(dir[|dir| - 1])
    requires forall c | c in name :: !IsDigit(c) && !IsSeparator(c)
    ensures var now := NewFilterRows(rows, dir + name + Decimal(n), p, value);
            && OnlySet(rows[k], now[k], p, Num(if value.Byte? then value.byte else value.word))
            && forall j | 0 <= j < |rows| && j != k :: now[j] == rows[j]
  {
    EntryNoOfPrinted(dir, name, n);
    FirstFilterRow(rows, 0, k, n);
  }

  lemma {:induction false} FirstFilterRow(rows: seq<Row>, j: nat, k: nat, n: int)
    requires j <= k < |rows| && FilterTakes(rows[k], n)
    requires forall i | j <= i < k :: !FilterTakes(rows[i], n)
    ensures FirstRow(rows, j, "EventFilterTableEntry", n, CountsAsZero) == At(k)
    decreases k - j
  {
    if j < k {
      FirstFilterRow(rows, j + 1, k, n);
    }
  }

  // ---- the alert policy callback

  /** The new policy rows, or None when the callback returns without saving. */
  function NewPolicyRows(rows: seq<Row>, path: string, p: string, value: Changed): (r: Option<seq<Row>>)
    ensures r.Some? ==> |r.value| == |rows|
  {
    var list := ListIndexFrom(path, "PolicyList_eth", 0, 0);
    var key := "AlertPolicyTableEntry";
    match value
    case Vector(v) => if list.Some? then Some(Rewritten(rows, list.value * 15, p, v)) else None
    case Byte(x) => Some(SetRow(rows, FirstRow(rows, 0, key, EntryNo(path), TakesNonPositive), p, Num(x)))
    case Word(x) => Some(SetRow(rows, FirstRow(rows, 0, key, EntryNo(path), TakesNonPositive), p, Num(CastU8(x))))
  }

  method AlertPolicyCallback(doc: Json, path: string, p: string, value: Changed) returns (saved: Option<Json>)
    requires Tabular(doc, POLICIES)
    ensures var rows := NewPolicyRows(Table(doc, POLICIES), path, p, value);
            saved == if rows.None? then None else Some(StripNulls(WithTable(doc, POLICIES, rows.value)))
  {
    var tbl := Table(doc, POLICIES);
    var bucketIndex := FindListIndex(path, "PolicyList_eth", 0);
    if bucketIndex.Some? && value.Vector? {
      tbl := WriteSlice(tbl, bucketIndex.value * 15, p, value.v);
    } else {
      var val := 0;
      if value.Byte? {
        val := value.byte;
      } else if value.Word? {
        val := CastU8(value.word);
      } else {
        return None;
      }
      var entryVal := FindEntryNo(path);
      tbl := SetPolicyEntry(tbl, entryVal, p, val);
    }
    var data := WithTable(doc, POLICIES, tbl);
    var dat := data.members[POLICIES];
    MergeIntoNonObject(dat, data);
    saved := Some(MergePatch(dat, data));
  }

  /** The row is one a scalar change to the entry takes: it has the number, or it has none and
      the entry's number is not positive. */
  predicate PolicyTakes(row: Row, entryVal: int) {
    if "AlertPolicyTableEntry" in row && row["AlertPolicyTableEntry"].Num?
    then row["AlertPolicyTableEntry"].n == entryVal
    else entryVal <= 0
  }

  method SetPolicyEntry(rows: seq<Row>, entryVal: int, p: string, val: uint8) returns (tbl: seq<Row>)
    ensures |tbl| == |rows|
    ensures forall k | 0 <= k < |rows| ::
              if PolicyTakes(rows[k], entryVal) && (forall j | 0 <= j < k :: !PolicyTakes(rows[j], entryVal))
              then OnlySet(rows[k], tbl[k], p, Num(val))
              else tbl[k] == rows[k]
    ensures tbl == SetRow(rows, FirstRow(rows, 0, "AlertPolicyTableEntry", entryVal, TakesNonPositive), p, Num(val))
  {
    tbl := rows;
    for k := 0 to |rows|
      invariant tbl == rows
      invariant forall j | 0 <= j < k :: !PolicyTakes(rows[j], entryVal)
      invariant FirstRow(rows, 0, "AlertPolicyTableEntry", entryVal, TakesNonPositive)
                == FirstRow(rows, k, "AlertPolicyTableEntry", entryVal, TakesNonPositive)
    {
      if "AlertPolicyTableEntry" in tbl[k] && tbl[k]["AlertPolicyTableEntry"].Num? {
        if entryVal != tbl[k]["AlertPolicyTableEntry"].n {
          continue;
        }
      } else if entryVal > 0 {
        continue;
      }
      tbl := tbl[k := tbl[k][p := Num(val)]];
      return;
    }
  }

  /** Likewise for the policy table, where the value is stored as a byte. */
  lemma {:induction false} PolicySignalHitsEntry(rows: seq<Row>, k: nat, dir: string, name: string, n: nat, p: string,
      value: Changed)
    requires k < |rows| && !value.Vector?
    requires PolicyTakes(rows[k], n) && forall j | 0 <= j < k :: !PolicyTakes(rows[j], n)
    requires dir == [] || IsSeparator(dir[|dir| - 1])
    requires forall c | c in name :: !IsDigit(c) && !IsSeparator(c)
    ensures var now := NewPolicyRows(rows, dir + name + Decimal(n), p, value);
            && now.Some?
            && OnlySet(rows[k], now.value[k], p, Num((if value.Byte? then value.byte else value.word) % 0x100))
            && forall j | 0 <= j < |rows| && j != k :: now.value[j] == rows[j]
  {
    EntryNoOfPrinted(dir, name, n);
    FirstPolicyRow(rows, 0, k, n);
  }

  lemma {:induction false} FirstPolicyRow(rows: seq<Row>, j: nat, k: nat, n: int)
    requires j <= k < |rows| && PolicyTakes(rows[k], n)
    requires forall i | j <= i < k :: !PolicyTakes(rows[i], n)
    ensures FirstRow(rows, j, "AlertPolicyTableEntry", n, TakesNonPositive) == At(k)
    decreases k - j
  {
    if j < k {
      FirstPolicyRow(rows, j + 1, k, n);
    }
  }

  // ---- the configuration callback

  function EveryRowSet(rows: seq<Row>, p: string, cell: Json): (r: seq<Row>)
    ensures |r| == |rows|
  {
    seq(|rows|, k requires 0 <= k < |rows| => rows[k][p := cell])
  }

  method PefConfInfoCallback(doc: Json, p: string, cell: Json) returns (saved: Json)
    requires Tabular(doc, CONF_INFO)
    ensures saved == StripNulls(WithTable(doc, CONF_INFO, EveryRowSet(Table(doc, CONF_INFO), p, cell)))
    ensures Tabular(saved, CONF_INFO) && |Table(saved, CONF_INFO)| == |Table(doc, CONF_INFO)|
    ensures forall k | 0 <= k < |Table(doc, CONF_INFO)| ::
              OnlySet(Table(doc, CONF_INFO)[k], Table(saved, CONF_INFO)[k], p, cell)
  {
    var rows := Table(doc, CONF_INFO);
    var tbl := rows;
    for k := 0 to |rows|
      invariant |tbl| == |rows|
      invariant forall j | 0 <= j < |rows| :: tbl[j] == if j < k then rows[j][p := cell] else rows[j]
    {
      tbl := tbl[k := tbl[k][p := cell]];
    }
    assert tbl == EveryRowSet(rows, p, cell);
    var data := WithTable(doc, CONF_INFO, tbl);
    var data2 := data.members[CONF_INFO];
    MergeIntoNonObject(data2, data);
    WithTableSets(doc, CONF_INFO, tbl);
    saved := MergePatch(data2, data);
  }

  // ---- the destination callback

  /** The changed properties of a signal with their values, in the order of their names. */
  type Changes = seq<(string, Json)>

  /** The destination rows after the first k changes; a row without a number before the entry
      aborts the callback. */
  function RowsAfter(rows: seq<Row>, path: string, changes: Changes, k: nat): (r: Option<seq<Row>>)
    requires k <= |changes|
    ensures r.Some? ==> |r.value| == |rows|
  {
    if k == 0 then Some(rows)
    else
      var before := RowsAfter(rows, path, changes, k - 1);
      if before.None? then None
      else
        var l := FirstRow(before.value, 0, DESTINATION_KEY, EntryNo(path), IsError);
        if l.Malformed? then None else Some(SetRow(before.value, l, changes[k - 1].0, changes[k - 1].1))
  }

  function NewDestinationRows(rows: seq<Row>, path: string, changes: Changes): (r: Option<seq<Row>>)
    ensures r.Some? ==> |r.value| == |rows|
  {
    RowsAfter(rows, path, changes, |changes|)
  }

  method DestinationCallback(doc: Json, path: string, changes: Changes) returns (saved: Option<Json>)
    requires Tabular(doc, DESTINATIONS)
    ensures var rows := NewDestinationRows(Table(doc, DESTINATIONS), path, changes);
            saved == if rows.None? then None else Some(WithTable(doc, DESTINATIONS, rows.value))
  {
    var tbl := Table(doc, DESTINATIONS);
    var entryVal := FindEntryNo(path);
    for c := 0 to |changes|
      invariant RowsAfter(Table(doc, DESTINATIONS), path, changes, c) == Some(tbl)
    {
      var changed := SetDestination(tbl, entryVal, changes[c].0, changes[c].1);
      if changed.None? {
        LaterChanges(Table(doc, DESTINATIONS), path, changes, c + 1, |changes|);
        return None;
      }
      tbl := changed.value;
    }
    saved := Some(WithTable(doc, DESTINATIONS, tbl));
  }

  lemma {:induction false} LaterChanges(rows: seq<Row>, path: string, changes: Changes, j: nat, k: nat)
    requires j <= k <= |changes| && RowsAfter(rows, path, changes, j).None?
    ensures RowsAfter(rows, path, changes, k).None?
  {
    if j < k {
      LaterChanges(rows, path, changes, j, k - 1);
    }
  }

  predicate HasEntryNo(row: Row) {
    "LanDestination" in row && row["LanDestination"].Num?
  }

  predicate IsEntry(row: Row, entryVal: int) {
    HasEntryNo(row) && row["LanDestination"].n == entryVal
  }

  /** Row k has no number, and no row before it is the entry. */
  predicate Aborts(rows: seq<Row>, k: nat, entryVal: int)
    requires k < |rows|
  {
    !HasEntryNo(rows[k]) && forall j | 0 <= j < k :: HasEntryNo(rows[j]) && !IsEntry(rows[j], entryVal)
  }

  method SetDestination(rows: seq<Row>, entryVal: int, p: string, cell: Json) returns (tbl: Option<seq<Row>>)
    ensures var l := FirstRow(rows, 0, DESTINATION_KEY, entryVal, IsError);
            tbl == if l.Malformed? then None else Some(SetRow(rows, l, p, cell))
    ensures tbl.None? <==> exists k :: 0 <= k < |rows| && Aborts(rows, k, entryVal)
    ensures tbl.Some? ==>
              && |tbl.value| == |rows|
              && forall k | 0 <= k < |rows| ::
                   if IsEntry(rows[k], entryVal) && (forall j | 0 <= j < k :: !IsEntry(rows[j], entryVal))
                   then OnlySet(rows[k], tbl.value[k], p, cell)
                   else tbl.value[k] == rows[k]
  {
    for k := 0 to |rows|
      invariant forall j | 0 <= j < k :: HasEntryNo(rows[j]) && !IsEntry(rows[j], entryVal)
      invariant FirstRow(rows, 0, DESTINATION_KEY, entryVal, IsError)
                == FirstRow(rows, k, DESTINATION_KEY, entryVal, IsError)
    {
      if !(DESTINATION_KEY in rows[k] && rows[k][DESTINATION_KEY].Num?) {
        assert Aborts(rows, k, entryVal);
        return None;
      }
      if rows[k][DESTINATION_KEY].n == entryVal {
        return Some(rows[k := rows[k][p := cell]]);
      }
    }
    tbl := Some(rows);
  }

  /** The rows carry destination numbers that are all different. */
  ghost predicate UniqueDestinations(rows: seq<Row>) {
    && (forall k | 0 <= k < |rows| :: DESTINATION_KEY in rows[k] && rows[k][DESTINATION_KEY].Num?)
    && forall j, k | 0 <= j < k < |rows| :: rows[j][DESTINATION_KEY] != rows[k][DESTINATION_KEY]
  }

  lemma {:induction false} FindsUnique(rows: seq<Row>, j: nat, k: nat, n: int)
    requires UniqueDestinations(rows) && j <= k < |rows| && rows[k][DESTINATION_KEY].n == n
    ensures FirstRow(rows, j, DESTINATION_KEY, n, IsError) == At(k)
    decreases k - j
  {
    if j < k {
      assert rows[j][DESTINATION_KEY] != rows[k][DESTINATION_KEY];
      FindsUnique(rows, j + 1, k, n);
    }
  }

  /** A row with all the changes made. */
  function WithChanges(row: Row, changes: Changes, k: nat): Row
    requires k <= |changes|
  {
    if k == 0 then row else WithChanges(row, changes, k - 1)[changes[k - 1].0 := changes[k - 1].1]
  }

  lemma {:induction false} ChangesHitRow(rows: seq<Row>, k: nat, path: string, changes: Changes, c: nat)
    requires UniqueDestinations(rows) && k < |rows| && rows[k][DESTINATION_KEY].n == EntryNo(path)
    requires c <= |changes| && forall i | 0 <= i < |changes| :: changes[i].0 != DESTINATION_KEY
    ensures RowsAfter(rows, path, changes, c) == Some(rows[k := WithChanges(rows[k], changes, c)])
    ensures DESTINATION_KEY in WithChanges(rows[k], changes, c)
    ensures WithChanges(rows[k], changes, c)[DESTINATION_KEY] == rows[k][DESTINATION_KEY]
  {
    if c == 0 {
      assert rows[k := rows[k]] == rows;
    } else {
      ChangesHitRow(rows, k, path, changes, c - 1);
      var before := rows[k := WithChanges(rows[k], changes, c - 1)];
      FindsUnique(before, 0, k, EntryNo(path));
      var row := WithChanges(rows[k], changes, c);
      assert before[k := row] == rows[k := row];
    }
  }

  /** Change i is the last one of its property. */
  predicate LastOf(changes: Changes, i: nat)
    requires i < |changes|
  {
    forall j | i < j < |changes| :: changes[j].0 != changes[i].0
  }

  predicate Untouched(changes: Changes, q: string) {
    forall i | 0 <= i < |changes| :: changes[i].0 != q
  }

  lemma {:induction false} LastRead(row: Row, changes: Changes, k: nat, i: nat)
    requires i < k <= |changes| && forall j | i < j < k :: changes[j].0 != changes[i].0
    ensures changes[i].0 in WithChanges(row, changes, k)
    ensures WithChanges(row, changes, k)[changes[i].0] == changes[i].1
  {
    if i < k - 1 {
      LastRead(row, changes, k - 1, i);
    }
  }

  lemma {:induction false} UntouchedRead(row: Row, changes: Changes, k: nat, q: string)
    requires k <= |changes| && Untouched(changes, q)
    ensures SameAt(row, WithChanges(row, changes, k), q)
  {
    if k > 0 {
      UntouchedRead(row, changes, k - 1, q);
    }
  }

  /** With unique numbers from 0 up, a signal for the object printed for destination n reaches
      the row of destination n and no other: each property gets the value of its last change,
      and the other keys stay. */
  lemma {:induction false} DestinationSignalHitsEntry(rows: seq<Row>, k: nat, dir: string, name: string,
      changes: Changes)
    requires UniqueDestinations(rows) && k < |rows| && rows[k][DESTINATION_KEY].n >= 0
    requires dir == [] || IsSeparator(dir[|dir| - 1])
    requires forall c | c in name :: !IsDigit(c) && !IsSeparator(c)
    requires forall i | 0 <= i < |changes| :: changes[i].0 != DESTINATION_KEY
    ensures var now := NewDestinationRows(rows, dir + name + Decimal(rows[k][DESTINATION_KEY].n), changes);
            && now.Some?
            && |now.value| == |rows|
            && (forall j | 0 <= j < |rows| && j != k :: now.value[j] == rows[j])
            && (forall i | 0 <= i < |changes| && LastOf(changes, i) ::
                  changes[i].0 in now.value[k] && now.value[k][changes[i].0] == changes[i].1)
            && (forall q :: Untouched(changes, q) ==> SameAt(rows[k], now.value[k], q))
  {
    EntryNoOfPrinted(dir, name, rows[k][DESTINATION_KEY].n);
    ChangesHitRow(rows, k, dir + name + Decimal(rows[k][DESTINATION_KEY].n), changes, |changes|);
    forall i | 0 <= i < |changes| && LastOf(changes, i)
      ensures changes[i].0 in WithChanges(rows[k], changes, |changes|)
      ensures WithChanges(rows[k], changes, |changes|)[changes[i].0] == changes[i].1
    {
      LastRead(rows[k], changes, |changes|, i);
    }
    forall q | Untouched(changes, q)
      ensures SameAt(rows[k], WithChanges(rows[k], changes, |changes|), q)
    {
      UntouchedRead(rows[k], changes, |changes|, q);
    }
  }
}
