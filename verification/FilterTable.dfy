/** Event filtering: from the published filter lists to the filters an event matches
    (eventFilteringProcess up to the call of performPefAction). */
module FilterTable {
  import opened Types
  import opened Bits
  import opened Tables

  datatype EventMsgData = EventMsgData(
    recordId: uint16,
    generatorId1: uint8,
    generatorId2: uint8,
    sensorNum: uint8,
    sensorType: uint8,
    eventType: uint8,
    eventData1: uint8,
    eventData2: uint8,
    eventData3: uint8)

  datatype EvtFilterTblEntry = EvtFilterTblEntry(
    filterConfig: uint8,
    evtFilterAction: uint8,
    alertPolicyNum: uint8,
    eventSeverity: uint8,
    genIdByte1: uint8,
    genIdByte2: uint8,
    sensorType: uint8,
    sensorNum: uint8,
    eventTrigger: uint8,
    eventData1OffsetMask: uint16,
    eventData1AndMask: uint8,
    eventData1Cmp1: uint8,
    eventData1Cmp2: uint8,
    eventData2AndMask: uint8,
    eventData2Cmp1: uint8,
    eventData2Cmp2: uint8,
    eventData3AndMask: uint8,
    eventData3Cmp1: uint8,
    eventData3Cmp2: uint8)

  const FILTER_SPEC := TableSpec("EventFilterTable", 10, FILTER_KINDS)

  const FILTER_KINDS: map<string, Kind> :=
    map p | p in FILTER_PROPERTIES :: if p == "EventData1OffsetMask" then U16 else U8

  const FILTER_PROPERTIES: set<string> := {
    "EventFilterTableEntry", "FilterConfig", "EvtFilterAction", "AlertPolicyNum", "EventSeverity",
    "GenIDByte1", "GenIDByte2", "SensorType", "SensorNum", "EventTrigger", "EventData1OffsetMask",
    "EventData1ANDMask", "EventData1Cmp1", "EventData1Cmp2", "EventData2ANDMask", "EventData2Cmp1",
    "EventData2Cmp2", "EventData3ANDMask", "EventData3Cmp1", "EventData3Cmp2" }

  // ---- the meaning: which rows of the JSON table an event matches

  /** The filter a JSON row stands for. */
  function EntryOf(row: Row): EvtFilterTblEntry {
    EvtFilterTblEntry(
      U8Of(row, "FilterConfig"), U8Of(row, "EvtFilterAction"), U8Of(row, "AlertPolicyNum"),
      U8Of(row, "EventSeverity"), U8Of(row, "GenIDByte1"), U8Of(row, "GenIDByte2"),
      U8Of(row, "SensorType"), U8Of(row, "SensorNum"), U8Of(row, "EventTrigger"),
      CastU16(NumberOf(row, "EventData1OffsetMask")),
      U8Of(row, "EventData1ANDMask"), U8Of(row, "EventData1Cmp1"), U8Of(row, "EventData1Cmp2"),
      U8Of(row, "EventData2ANDMask"), U8Of(row, "EventData2Cmp1"), U8Of(row, "EventData2Cmp2"),
      U8Of(row, "EventData3ANDMask"), U8Of(row, "EventData3Cmp1"), U8Of(row, "EventData3Cmp2"))
  }

  function Entries(rows: seq<Row>): seq<EvtFilterTblEntry> {
    seq(|rows|, i requires 0 <= i < |rows| => EntryOf(rows[i]))
  }

  /** 0xFF in a filter field matches anything. */
  predicate FieldMatches(field: uint8, eventField: uint8) {
    field == 0xFF || field == eventField
  }

  ghost predicate DataMatches(value: uint8, andMask: uint8, cmp1: uint8, cmp2: uint8) {
    MaskedMatch(ToBits(value, 8), ToBits(andMask, 8), ToBits(cmp1, 8), ToBits(cmp2, 8))
  }

  /** The row predicate: bit 7 enables the filter, the five fields match, the three data bytes
      match, and the offset mask has the bit numbered by the low half of the first data byte. */
  ghost predicate Matches(e: EvtFilterTblEntry, ev: EventMsgData) {
    && ToBits(e.filterConfig, 8)[7]
    && FieldMatches(e.genIdByte1, ev.generatorId1)
    && FieldMatches(e.genIdByte2, ev.generatorId2)
    && ev.sensorType != 0
    && FieldMatches(e.sensorType, ev.sensorType)
    && FieldMatches(e.sensorNum, ev.sensorNum)
    && FieldMatches(e.eventTrigger, ev.eventType)
    && DataMatches(ev.eventData1, e.eventData1AndMask, e.eventData1Cmp1, e.eventData1Cmp2)
    && DataMatches(ev.eventData2, e.eventData2AndMask, e.eventData2Cmp1, e.eventData2Cmp2)
    && DataMatches(ev.eventData3, e.eventData3AndMask, e.eventData3Cmp1, e.eventData3Cmp2)
    && ToBits(e.eventData1OffsetMask, 16)[ev.eventData1 % 16]
  }

  /** The matching rows, in table order. */
  ghost function Select(rows: seq<EvtFilterTblEntry>, ev: EventMsgData): seq<EvtFilterTblEntry> {
    if rows == [] then []
    else
      var last := rows[|rows| - 1];
      Select(rows[..|rows| - 1], ev) + if Matches(last, ev) then [last] else []
  }

  lemma {:induction false} SelectConcat(a: seq<EvtFilterTblEntry>, b: seq<EvtFilterTblEntry>, ev: EventMsgData)
    ensures Select(a + b, ev) == Select(a, ev) + Select(b, ev)
  {
    if b == [] {
      assert a + b == a;
    } else {
      assert (a + b)[..|a + b| - 1] == a + b[..|b| - 1];
      SelectConcat(a, b[..|b| - 1], ev);
    }
  }

  // ---- the columns of one list

  datatype FilterColumns = FilterColumns(
    filterConfig: seq<uint8>,
    evtFilterAction: seq<uint8>,
    alertPolicyNum: seq<uint8>,
    eventSeverity: seq<uint8>,
    genIdByte1: seq<uint8>,
    genIdByte2: seq<uint8>,
    sensorType: seq<uint8>,
    sensorNum: seq<uint8>,
    eventTrigger: seq<uint8>,
    eventData1OffsetMask: seq<uint16>,
    eventData1AndMask: seq<uint8>,
    eventData1Cmp1: seq<uint8>,
    eventData1Cmp2: seq<uint8>,
    eventData2AndMask: seq<uint8>,
    eventData2Cmp1: seq<uint8>,
    eventData2Cmp2: seq<uint8>,
    eventData3AndMask: seq<uint8>,
    eventData3Cmp1: seq<uint8>,
    eventData3Cmp2: seq<uint8>)

  /** The list has every filter property, with its type. */
  ghost predicate WellTyped(list: Object) {
    forall p | p in FILTER_KINDS :: p in list && list[p].KindOf() == FILTER_KINDS[p]
  }

  function ByteColumn(list: Object, p: string): seq<uint8> {
    if p in list && list[p].Bytes? then list[p].bytes else []
  }

  function WordColumn(list: Object, p: string): seq<uint16> {
    if p in list && list[p].Words? then list[p].words else []
  }

  function ReadColumns(list: Object): FilterColumns {
    FilterColumns(
      ByteColumn(list, "FilterConfig"), ByteColumn(list, "EvtFilterAction"), ByteColumn(list, "AlertPolicyNum"),
      ByteColumn(list, "EventSeverity"), ByteColumn(list, "GenIDByte1"), ByteColumn(list, "GenIDByte2"),
      ByteColumn(list, "SensorType"), ByteColumn(list, "SensorNum"), ByteColumn(list, "EventTrigger"),
      WordColumn(list, "EventData1OffsetMask"),
      ByteColumn(list, "EventData1ANDMask"), ByteColumn(list, "EventData1Cmp1"), ByteColumn(list, "EventData1Cmp2"),
      ByteColumn(list, "EventData2ANDMask"), ByteColumn(list, "EventData2Cmp1"), ByteColumn(list, "EventData2Cmp2"),
      ByteColumn(list, "EventData3ANDMask"), ByteColumn(list, "EventData3Cmp1"), ByteColumn(list, "EventData3Cmp2"))
  }

  /** Every column has an element at idx. */
  predicate InRange(c: FilterColumns, idx: nat) {
    && idx < |c.filterConfig| && idx < |c.genIdByte1| && idx < |c.genIdByte2| && idx < |c.sensorType|
    && idx < |c.sensorNum| && idx < |c.eventTrigger| && idx < |c.eventData1AndMask| && idx < |c.eventData1Cmp1|
    && idx < |c.eventData1Cmp2| && idx < |c.eventData2AndMask| && idx < |c.eventData2Cmp1|
    && idx < |c.eventData2Cmp2| && idx < |c.eventData3AndMask| && idx < |c.eventData3Cmp1|
    && idx < |c.eventData3Cmp2| && idx < |c.eventData1OffsetMask| && idx < |c.evtFilterAction|
    && idx < |c.alertPolicyNum| && idx < |c.eventSeverity|
  }

  function EntryAt(c: FilterColumns, idx: nat): EvtFilterTblEntry
    requires InRange(c, idx)
  {
    EvtFilterTblEntry(
      c.filterConfig[idx], c.evtFilterAction[idx], c.alertPolicyNum[idx], c.eventSeverity[idx],
      c.genIdByte1[idx], c.genIdByte2[idx], c.sensorType[idx], c.sensorNum[idx], c.eventTrigger[idx],
      c.eventData1OffsetMask[idx],
      c.eventData1AndMask[idx], c.eventData1Cmp1[idx], c.eventData1Cmp2[idx],
      c.eventData2AndMask[idx], c.eventData2Cmp1[idx], c.eventData2Cmp2[idx],
      c.eventData3AndMask[idx], c.eventData3Cmp1[idx], c.eventData3Cmp2[idx])
  }

  /** The rows the columns hold up to index n: those every column reaches. */
  function RowsUpTo(c: FilterColumns, n: nat): seq<EvtFilterTblEntry> {
    if n == 0 then []
    else RowsUpTo(c, n - 1) + if InRange(c, n - 1) then [EntryAt(c, n - 1)] else []
  }

  function RowsOf(list: Object): seq<EvtFilterTblEntry> {
    var c := ReadColumns(list);
    RowsUpTo(c, |c.filterConfig|)
  }

  /** The rows list b holds; a list that cannot be read has none. */
  function ListEntries(reply: map<nat, Object>, b: nat): seq<EvtFilterTblEntry> {
    if b in reply then RowsOf(reply[b]) else []
  }

  // ---- the code

  method EntryMatches(e: EvtFilterTblEntry, ev: EventMsgData) returns (matched: bool)
    ensures matched <==> Matches(e, ev)
  {
    HasIsBit(e.filterConfig, 8, 7);
    assert Pow2(7) == 0x80;
    if !Has(e.filterConfig, 0x80) {
      return false;
    }
    if (e.genIdByte1 != 0xFF && e.genIdByte1 != ev.generatorId1)
       || (e.genIdByte2 != 0xFF && e.genIdByte2 != ev.generatorId2)
       || 0 == ev.sensorType
       || (e.sensorType != 0xFF && e.sensorType != ev.sensorType)
       || (e.sensorNum != 0xFF && e.sensorNum != ev.sensorNum)
       || (e.eventTrigger != 0xFF && e.eventTrigger != ev.eventType)
    {
      return false;
    }
    var match1 := PefEveDataMatch(ToBits(ev.eventData1, 8), ToBits(e.eventData1AndMask, 8),
                                  ToBits(e.eventData1Cmp1, 8), ToBits(e.eventData1Cmp2, 8));
    if 0 == match1 {
      return false;
    }
    var match2 := PefEveDataMatch(ToBits(ev.eventData2, 8), ToBits(e.eventData2AndMask, 8),
                                  ToBits(e.eventData2Cmp1, 8), ToBits(e.eventData2Cmp2, 8));
    if 0 == match2 {
      return false;
    }
    var match3 := PefEveDataMatch(ToBits(ev.eventData3, 8), ToBits(e.eventData3AndMask, 8),
                                  ToBits(e.eventData3Cmp1, 8), ToBits(e.eventData3Cmp2, 8));
    if 0 == match3 {
      return false;
    }
    var offsetMask := Pow2(ev.eventData1 % 16);
    HasIsBit(e.eventData1OffsetMask, 16, ev.eventData1 % 16);
    return Has(e.eventData1OffsetMask, offsetMask);
  }

  /** What the loop over the lists collects when the mapper reports `count` lists and
      `reply` holds the lists whose properties could be read. */
  ghost function Gather(count: nat, reply: map<nat, Object>, ev: EventMsgData): seq<EvtFilterTblEntry> {
    if count == 0 then []
    else
      Gather(count - 1, reply, ev) + Select(ListEntries(reply, count - 1), ev)
  }

  method CollectMatches(count: nat, reply: map<nat, Object>, ev: EventMsgData)
    returns (matchedEveFltEntries: seq<EvtFilterTblEntry>)
    requires forall b | b in reply :: WellTyped(reply[b])
    ensures matchedEveFltEntries == Gather(count, reply, ev)
  {
    matchedEveFltEntries := [];
    for groupIndex := 1 to count + 1
      invariant matchedEveFltEntries == Gather(groupIndex - 1, reply, ev)
    {
      if groupIndex - 1 !in reply {
        continue;
      }
      matchedEveFltEntries := CollectList(ReadColumns(reply[groupIndex - 1]), ev, matchedEveFltEntries);
    }
  }

  method CollectList(c: FilterColumns, ev: EventMsgData, before: seq<EvtFilterTblEntry>)
    returns (matchedEveFltEntries: seq<EvtFilterTblEntry>)
    ensures matchedEveFltEntries == before + Select(RowsUpTo(c, |c.filterConfig|), ev)
  {
    matchedEveFltEntries := before;
    for idx := 0 to |c.filterConfig|
      invariant matchedEveFltEntries == before + Select(RowsUpTo(c, idx), ev)
    {
      SelectNext(c, idx, ev);
      if !InRange(c, idx) {
        continue;
      }
      var entry := EntryAt(c, idx);
      var matched := EntryMatches(entry, ev);
      if !matched {
        continue;
      }
      matchedEveFltEntries := matchedEveFltEntries + [entry];
    }
  }

  lemma {:induction false} SelectNext(c: FilterColumns, idx: nat, ev: EventMsgData)
    ensures Select(RowsUpTo(c, idx + 1), ev)
            == Select(RowsUpTo(c, idx), ev)
               + if InRange(c, idx) && Matches(EntryAt(c, idx), ev) then [EntryAt(c, idx)] else []
  {
    var rows := RowsUpTo(c, idx);
    var more := RowsUpTo(c, idx + 1);
    if InRange(c, idx) {
      assert more == rows + [EntryAt(c, idx)];
      assert more[..|more| - 1] == rows;
    } else {
      assert more == rows;
    }
  }

  // ---- publishing and filtering together

  lemma {:induction false} PublishedBytes(rows: seq<Row>, p: string)
    requires p in FILTER_PROPERTIES && p != "EventData1OffsetMask"
    ensures var c := ByteColumn(Columns(FILTER_KINDS, rows), p);
            |c| == |rows| && forall i | 0 <= i < |rows| :: c[i] == U8Of(rows[i], p)
  {
    assert Columns(FILTER_KINDS, rows)[p] == Column(U8, p, rows);
  }

  lemma {:induction false} PublishedWords(rows: seq<Row>)
    ensures var c := WordColumn(Columns(FILTER_KINDS, rows), "EventData1OffsetMask");
            |c| == |rows| && forall i | 0 <= i < |rows| :: c[i] == CastU16(NumberOf(rows[i], "EventData1OffsetMask"))
  {
    var p := "EventData1OffsetMask";
    assert Columns(FILTER_KINDS, rows)[p] == Column(U16, p, rows);
  }

  /** Row i can be read back from the published columns. */
  lemma {:induction false} ReadPublishedRow(rows: seq<Row>, i: nat)
    requires i < |rows|
    ensures var c := ReadColumns(Columns(FILTER_KINDS, rows));
            InRange(c, i) && EntryAt(c, i) == EntryOf(rows[i]) && |c.filterConfig| == |rows|
  {
    PublishedBytes(rows, "FilterConfig");
    PublishedBytes(rows, "EvtFilterAction");
    PublishedBytes(rows, "AlertPolicyNum");
    PublishedBytes(rows, "EventSeverity");
    PublishedBytes(rows, "GenIDByte1");
    PublishedBytes(rows, "GenIDByte2");
    PublishedBytes(rows, "SensorType");
    PublishedBytes(rows, "SensorNum");
    PublishedBytes(rows, "EventTrigger");
    PublishedWords(rows);
    PublishedBytes(rows, "EventData1ANDMask");
    PublishedBytes(rows, "EventData1Cmp1");
    PublishedBytes(rows, "EventData1Cmp2");
    PublishedBytes(rows, "EventData2ANDMask");
    PublishedBytes(rows, "EventData2Cmp1");
    PublishedBytes(rows, "EventData2Cmp2");
    PublishedBytes(rows, "EventData3ANDMask");
    PublishedBytes(rows, "EventData3Cmp1");
    PublishedBytes(rows, "EventData3Cmp2");
  }

  lemma {:induction false} RowsFromColumns(c: FilterColumns, entries: seq<EvtFilterTblEntry>, n: nat)
    requires n <= |entries|
    requires forall i | 0 <= i < n :: InRange(c, i) && EntryAt(c, i) == entries[i]
    ensures RowsUpTo(c, n) == entries[..n]
  {
    if n > 0 {
      RowsFromColumns(c, entries, n - 1);
      assert entries[..n] == entries[..n - 1] + [entries[n - 1]];
    }
  }

  lemma {:induction false} PublishedWellTyped(rows: seq<Row>)
    ensures WellTyped(Columns(FILTER_KINDS, rows))
  {
  }

  /** Transposing rows into columns and back loses nothing. */
  lemma {:induction false} ReadPublished(rows: seq<Row>)
    ensures RowsOf(Columns(FILTER_KINDS, rows)) == Entries(rows)
  {
    var c := ReadColumns(Columns(FILTER_KINDS, rows));
    PublishedBytes(rows, "FilterConfig");
    forall i | 0 <= i < |rows|
      ensures InRange(c, i) && EntryAt(c, i) == Entries(rows)[i]
    {
      ReadPublishedRow(rows, i);
    }
    RowsFromColumns(c, Entries(rows), |rows|);
  }

  /** The lists are numbered without gaps and hold the rows of the table's buckets. */
  ghost predicate ListsHold(lists: map<nat, Object>, rows: seq<Row>) {
    && (forall b: nat | b in lists :: b < |lists|)
    && (forall b: nat | b < LISTS :: HoldsBucket(lists, rows, b))
  }

  ghost predicate HoldsBucket(lists: map<nat, Object>, rows: seq<Row>, b: nat)
    requires b < LISTS
  {
    ListEntries(lists, b) == Entries(Bucket(10, rows, b))
  }

  lemma {:induction false} PublishedListsHold(rows: seq<Row>)
    ensures var lists := Published(FILTER_SPEC, rows);
            && ListsHold(lists, rows)
            && |lists| <= LISTS
            && forall b | b in lists :: WellTyped(lists[b])
  {
    var lists := Published(FILTER_SPEC, rows);
    PublishedContiguous(FILTER_SPEC, rows);
    forall b: nat | b < LISTS
      ensures HoldsBucket(lists, rows, b)
      ensures b in lists ==> WellTyped(lists[b])
    {
      PublishedUpToAt(FILTER_SPEC, rows, LISTS, b);
      ReadPublished(Bucket(10, rows, b));
      PublishedWellTyped(Bucket(10, rows, b));
    }
  }

  lemma {:induction false} EntriesConcat(a: seq<Row>, b: seq<Row>)
    ensures Entries(a + b) == Entries(a) + Entries(b)
  {
  }

  lemma {:induction false} EntriesExtend(rows: seq<Row>, k: nat)
    requires k < LISTS
    ensures Entries(rows[..Covered(10, |rows|, k)]) + Entries(Bucket(10, rows, k))
            == Entries(rows[..Covered(10, |rows|, k + 1)])
  {
    BucketExtends(10, rows, k);
    EntriesConcat(rows[..Covered(10, |rows|, k)], Bucket(10, rows, k));
  }

  /** The rows of the first k lists, one after the other. */
  function Joined(lists: map<nat, Object>, k: nat): seq<EvtFilterTblEntry> {
    if k == 0 then [] else Joined(lists, k - 1) + ListEntries(lists, k - 1)
  }

  lemma {:induction false} GatherSelects(lists: map<nat, Object>, ev: EventMsgData, k: nat)
    ensures Gather(k, lists, ev) == Select(Joined(lists, k), ev)
  {
    if k > 0 {
      GatherSelects(lists, ev, k - 1);
      SelectConcat(Joined(lists, k - 1), ListEntries(lists, k - 1), ev);
    }
  }

  lemma {:induction false} JoinedNext(lists: map<nat, Object>, rows: seq<Row>, k: nat)
    requires k < LISTS && HoldsBucket(lists, rows, k)
    requires Joined(lists, k) == Entries(rows[..Covered(10, |rows|, k)])
    ensures Joined(lists, k + 1) == Entries(rows[..Covered(10, |rows|, k + 1)])
  {
    EntriesExtend(rows, k);
  }

  lemma {:induction false} JoinedRows(lists: map<nat, Object>, rows: seq<Row>, k: nat)
    requires k <= LISTS && forall b: nat | b < k :: HoldsBucket(lists, rows, b)
    ensures Joined(lists, k) == Entries(rows[..Covered(10, |rows|, k)])
  {
    if k > 0 {
      JoinedRows(lists, rows, k - 1);
      JoinedNext(lists, rows, k - 1);
    }
  }

  /** What filtering collects over lists that hold a table is the order-preserving filter of
      the table by the row predicate, for every table length and every event. */
  lemma {:induction false} FilteringMeaning(lists: map<nat, Object>, rows: seq<Row>, ev: EventMsgData)
    requires ListsHold(lists, rows) && |lists| <= LISTS
    ensures Gather(|lists|, lists, ev) == Select(Entries(rows), ev)
  {
    GatherMore(lists, ev, LISTS);
    GatherSelects(lists, ev, LISTS);
    JoinedRows(lists, rows, LISTS);
    assert rows[..|rows|] == rows;
  }

  /** Lists beyond the last one add nothing. */
  lemma {:induction false} GatherMore(lists: map<nat, Object>, ev: EventMsgData, k: nat)
    requires forall b: nat | b in lists :: b < |lists|
    requires |lists| <= k
    ensures Gather(k, lists, ev) == Gather(|lists|, lists, ev)
  {
    if |lists| < k {
      GatherMore(lists, ev, k - 1);
    }
  }
}
