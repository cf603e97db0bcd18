/** From the message that brings an event to its effects on the outside, in the terms of the JSON
    tables alone: which rows the message matches and what each of them calls for. */
module EndToEnd {
  import opened Types
  import opened Bits
  import opened Json
  import opened Tables
  import opened Monitors
  import opened FilterTable
  import opened AlertPolicy
  import opened PefAction
  import opened ActionProperties
  import opened ConfigSync

  /** The arguments of doPefTask. */
  datatype Message = Message(
    recId: uint16, senType: uint8, senNum: uint8, eveType: uint8, eveData1: uint8, eveData2: uint8,
    eveData3: uint8, genId: uint16)

  predicate Carried(ev: EventMsgData, m: Message) {
    Carries(ev, m.recId, m.senType, m.senNum, m.eveType, m.eveData1, m.eveData2, m.eveData3, m.genId)
  }

  // ---- what a row of the filter table says

  const POWERS := [0x1, 0x2, 0x4, 0x8, 0x10, 0x20, 0x40, 0x80, 0x100, 0x200, 0x400, 0x800, 0x1000, 0x2000, 0x4000,
                   0x8000]

  /** Bit i of a number. */
  predicate Bit(n: nat, i: nat)
    requires i < 16
  {
    n / POWERS[i] % 2 == 1
  }

  /** The number under a key as the byte it is published as; 0 for a missing key. */
  function Byte(row: Row, key: string): uint8 {
    (if key in row && row[key].Num? then row[key].n else 0) % 0x100
  }

  function TwoBytes(row: Row, key: string): uint16 {
    (if key in row && row[key].Num? then row[key].n else 0) % 0x1_0000
  }

  predicate AnyOr(field: uint8, value: uint8) {
    field == 0xFF || field == value
  }

  /** Bit i of the masked value is the wanted one. */
  predicate Agrees(value: uint8, mask: uint8, want: uint8, i: nat)
    requires i < 8
  {
    (Bit(value, i) && Bit(mask, i)) == Bit(want, i)
  }

  predicate DataByte(value: uint8, mask: uint8, exact: uint8, want: uint8) {
    && (forall i | 0 <= i < 8 && Bit(exact, i) :: Agrees(value, mask, want, i))
    && (|| (forall i | 0 <= i < 8 :: Bit(exact, i))
        || exists i | 0 <= i < 8 :: !Bit(exact, i) && Agrees(value, mask, want, i))
  }

  predicate RowMatches(row: Row, m: Message) {
    && Bit(Byte(row, "FilterConfig"), 7)
    && AnyOr(Byte(row, "GenIDByte1"), m.genId / 0x100)
    && AnyOr(Byte(row, "GenIDByte2"), m.genId % 0x100)
    && m.senType != 0
    && AnyOr(Byte(row, "SensorType"), m.senType)
    && AnyOr(Byte(row, "SensorNum"), m.senNum)
    && AnyOr(Byte(row, "EventTrigger"), m.eveType)
    && DataByte(m.eveData1, Byte(row, "EventData1ANDMask"), Byte(row, "EventData1Cmp1"), Byte(row, "EventData1Cmp2"))
    && DataByte(m.eveData2, Byte(row, "EventData2ANDMask"), Byte(row, "EventData2Cmp1"), Byte(row, "EventData2Cmp2"))
    && DataByte(m.eveData3, Byte(row, "EventData3ANDMask"), Byte(row, "EventData3Cmp1"), Byte(row, "EventData3Cmp2"))
    && Bit(TwoBytes(row, "EventData1OffsetMask"), m.eveData1 % 16)
  }

  lemma {:induction false} PowerAt(i: nat)
    requires i < 16
    ensures POWERS[i] == Pow2(i)
  {
    if i > 0 {
      PowerAt(i - 1);
      assert POWERS[i] == 2 * POWERS[i - 1];
    }
  }

  lemma {:induction false} BitMeaning(n: nat, w: nat, i: nat)
    requires i < w <= 16
    ensures ToBits(n, w)[i] <==> Bit(n, i)
  {
    PowerAt(i);
    HasIsBit(n, w, i);
  }

  lemma {:induction false} DataByteMeaning(value: uint8, mask: uint8, exact: uint8, want: uint8)
    ensures DataMatches(value, mask, exact, want) <==> DataByte(value, mask, exact, want)
  {
    var v, a, c, w := ToBits(value, 8), ToBits(mask, 8), ToBits(exact, 8), ToBits(want, 8);
    forall i | 0 <= i < 8
      ensures c[i] == Bit(exact, i)
      ensures ((v[i] && a[i]) == w[i]) == Agrees(value, mask, want, i)
    {
      BitMeaning(value, 8, i);
      BitMeaning(mask, 8, i);
      BitMeaning(exact, 8, i);
      BitMeaning(want, 8, i);
    }
  }

  lemma {:induction false} MatchesMeaning(row: Row, ev: EventMsgData, m: Message)
    requires Carried(ev, m)
    ensures Matches(EntryOf(row), ev) <==> RowMatches(row, m)
  {
    var e := EntryOf(row);
    assert ev.generatorId1 == m.genId / 0x100 && ev.generatorId2 == m.genId % 0x100;
    BitMeaning(e.filterConfig, 8, 7);
    BitMeaning(e.eventData1OffsetMask, 16, m.eveData1 % 16);
    DataByteMeaning(m.eveData1, e.eventData1AndMask, e.eventData1Cmp1, e.eventData1Cmp2);
    DataByteMeaning(m.eveData2, e.eventData2AndMask, e.eventData2Cmp1, e.eventData2Cmp2);
    DataByteMeaning(m.eveData3, e.eventData3AndMask, e.eventData3Cmp1, e.eventData3Cmp2);
  }

  // ---- rows that pass a test, and their places

  /** How many rows before row j pass. */
  function Place(passes: seq<bool>, j: nat): nat
    requires j <= |passes|
  {
    if j == 0 then 0 else Place(passes, j - 1) + if passes[j - 1] then 1 else 0
  }

  /** The rows that pass, in order. */
  function Pick<T>(xs: seq<T>, passes: seq<bool>): (r: seq<T>)
    requires |xs| == |passes|
  {
    if xs == [] then []
    else
      var n := |xs| - 1;
      Pick(xs[..n], passes[..n]) + if passes[n] then [xs[n]] else []
  }

  lemma {:induction false} PlaceInPrefix(passes: seq<bool>, n: nat, j: nat)
    requires j <= n <= |passes|
    ensures Place(passes[..n], j) == Place(passes, j)
  {
    if j > 0 {
      PlaceInPrefix(passes, n, j - 1);
    }
  }

  lemma {:induction false} PickSize<T>(xs: seq<T>, passes: seq<bool>)
    requires |xs| == |passes|
    ensures |Pick(xs, passes)| == Place(passes, |passes|)
  {
    if xs != [] {
      var n := |xs| - 1;
      PickSize(xs[..n], passes[..n]);
      PlaceInPrefix(passes, n, n);
    }
  }

  /** A row that passes is picked at its place. */
  lemma {:induction false} PickAt<T>(xs: seq<T>, passes: seq<bool>, j: nat)
    requires |xs| == |passes| && j < |xs| && passes[j]
    ensures Place(passes, j) < |Pick(xs, passes)| && Pick(xs, passes)[Place(passes, j)] == xs[j]
  {
    var n := |xs| - 1;
    PlaceInPrefix(passes, n, j);
    PickSize(xs[..n], passes[..n]);
    if j < n {
      PickAt(xs[..n], passes[..n], j);
    }
  }

  /** And whatever is picked is a row that passes, at its place. */
  lemma {:induction false} PickFrom<T>(xs: seq<T>, passes: seq<bool>, r: nat) returns (j: nat)
    requires |xs| == |passes| && r < |Pick(xs, passes)|
    ensures j < |xs| && passes[j] && Place(passes, j) == r && Pick(xs, passes)[r] == xs[j]
  {
    var n := |xs| - 1;
    PickSize(xs[..n], passes[..n]);
    if r < |Pick(xs[..n], passes[..n])| {
      j := PickFrom(xs[..n], passes[..n], r);
      PlaceInPrefix(passes, n, j);
    } else {
      j := n;
      PlaceInPrefix(passes, n, n);
    }
  }

  /** For every row of the filter table, whether the message matches it. */
  function Matching(rows: seq<Row>, m: Message): seq<bool> {
    seq(|rows|, j requires 0 <= j < |rows| => RowMatches(rows[j], m))
  }

  lemma {:induction false} SelectPicks(rows: seq<Row>, ev: EventMsgData, m: Message)
    requires Carried(ev, m)
    ensures Select(Entries(rows), ev) == Pick(Entries(rows), Matching(rows, m))
  {
    if rows != [] {
      var n := |rows| - 1;
      SelectPicks(rows[..n], ev, m);
      MatchesMeaning(rows[n], ev, m);
      assert Entries(rows)[..n] == Entries(rows[..n]) && Matching(rows, m)[..n] == Matching(rows[..n], m);
    }
  }

  // ---- what a matched row calls for

  /** The effects of the power action of a row that is r-th among the matched. */
  predicate PowerEffect(e: Effect, row: Row, r: nat, cfg: PefConfInfo, answers: Answers) {
    var action, control := Byte(row, "EvtFilterAction"), cfg.pefActionGblControl;
    var off := Bit(action, 1) && Bit(control, 1);
    var reset := Bit(action, 2) && Bit(control, 2);
    var cycle := Bit(action, 3) && Bit(control, 3);
    match e
    case ChassisOff => off
    case QueryPower => !off && (cycle || reset)
    case HostReboot => !off && (cycle || reset) && answers.powerOn(r)
    case SelRecord(code) =>
      Bit(cfg.pefControl, 1) && if off then code == 2 else if cycle then code == 8 else reset && code == 4
    case _ => false
  }

  /** The policy row is enabled and in the group. */
  predicate PolicyApplies(row: Row, group: int) {
    group > 0 && Byte(row, "AlertPolicyGroupNum") == group && Byte(row, "EnableAlert") == 1
  }

  /** For every row of the policy table, whether it applies to the group. */
  function Applying(rows: seq<Row>, group: int): seq<bool> {
    seq(|rows|, k requires 0 <= k < |rows| => PolicyApplies(rows[k], group))
  }

  /** The user name of destination sel, and the address the user's mail goes to. */
  function UserOf(lan: Object, sel: uint8): string
    requires sel >= 1
  {
    if "userName" in lan && lan["userName"].Texts? && sel <= |lan["userName"].texts| then lan["userName"].texts[sel - 1]
    else ""
  }

  function AddressOf(answer: Option<string>): string {
    match answer
    case Some(address) => address
    case None => ""
  }

  /** The effects of an alert to destination sel of a LAN object. */
  predicate SentTo(e: Effect, channelNo: uint8, sel: uint8, lan: Option<Object>, r: nat, p: nat, m: Message,
      cfg: PefConfInfo, answers: Answers)
  {
    && lan.Some? && "Type" in lan.value && lan.value["Type"].Bytes?
    && 1 <= sel < |lan.value["Type"].bytes|
    && var t, user := lan.value["Type"].bytes[sel - 1], UserOf(lan.value, sel);
       var mailed, address := t == 3 && user != "", AddressOf(answers.mailId(r, p, user));
       match e
       case SelRecord(code) => Bit(cfg.pefControl, 1) && code == 1 && (t <= 2 || mailed)
       case SnmpAlert(channel, destination) => t <= 2 && channel == channelNo && destination == sel
       case SmtpAlert(mailId) => mailed && mailId == address
       case SetLastBmcProcessedEventId(id) =>
         mailed && address != "" && answers.smtpStatus(r, p) == 0 && id == m.recId
       case _ => false
  }

  /** The effects of a policy row that is p-th of its group, for a row that is r-th matched. */
  ghost predicate AlertEffect(e: Effect, row: Row, r: nat, p: nat, m: Message, ethMap: EthChannelMap,
      cfg: PefConfInfo, answers: Answers)
  {
    var channelNo, sel := Byte(row, "ChannelNo"), Byte(row, "DestinationSel");
    exists iface: string ::
      && NamesInterface(ethMap, channelNo, iface)
      && iface != ""
      && SentTo(e, channelNo, sel, answers.lanParams(r, p, iface), r, p, m, cfg, answers)
  }

  /** The k-th policy row applies and has the effect. */
  ghost predicate PolicyActs(e: Effect, policyRows: seq<Row>, k: nat, group: int, r: nat, m: Message,
      ethMap: EthChannelMap, cfg: PefConfInfo, answers: Answers)
    requires k < |policyRows|
  {
    && PolicyApplies(policyRows[k], group)
    && AlertEffect(e, policyRows[k], r, Place(Applying(policyRows, group), k), m, ethMap, cfg, answers)
  }

  /** The effects of a matched row: of its power action, and of every enabled policy of its
      group when alerts are asked for and allowed. */
  ghost predicate RowActs(e: Effect, row: Row, r: nat, m: Message, policies: seq<Row>, ethMap: EthChannelMap,
      cfg: PefConfInfo, answers: Answers)
  {
    var group := Byte(row, "AlertPolicyNum") % 16;
    || PowerEffect(e, row, r, cfg, answers)
    || (&& Bit(Byte(row, "EvtFilterAction"), 0) && Bit(cfg.pefActionGblControl, 0)
        && exists k: nat ::
             k < |policies| && PolicyActs(e, policies, k, group, r, m, ethMap, cfg, answers))
  }

  lemma {:induction false} PowerMeaning(e: Effect, row: Row, r: nat, cfg: PefConfInfo, answers: Answers)
    ensures var step := PowerStep(EntryOf(row), r, cfg, answers.powerOn(r));
            step.Some? && e in Render(step.value, Has(cfg.pefControl, 0x02)) <==> PowerEffect(e, row, r, cfg, answers)
  {
  }

  lemma {:induction false} PolicyMeaning(row: Row)
    ensures var policy := PolicyOf(row);
            && policy.alertPolicyGroupNum == Byte(row, "AlertPolicyGroupNum")
            && policy.enableAlert == Byte(row, "EnableAlert")
            && policy.channelNo == Byte(row, "ChannelNo")
            && policy.destinationSel == Byte(row, "DestinationSel")
  {
  }

  /** The step for a destination of a LAN object, once the interface is known. */
  lemma {:induction false} SentMeaning(e: Effect, policy: AlertPolicyTbl, iface: string, r: nat, p: nat,
      ev: EventMsgData, m: Message, ethMap: EthChannelMap, cfg: PefConfInfo, answers: Answers)
    requires ev.recordId == m.recId
    requires iface == InterfaceName(policy.channelNo, ethMap) != "" && policy.alertPolicyGroupNum != 0
    ensures var step := AlertStep(policy, r, p, ev, ethMap, answers);
            step.Some? && e in Render(step.value, Has(cfg.pefControl, 0x02))
            <==> SentTo(e, policy.channelNo, policy.destinationSel, answers.lanParams(r, p, iface), r, p, m, cfg,
                        answers)
  {
  }

  lemma {:induction false} AlertMeaning(e: Effect, row: Row, group: int, r: nat, p: nat, ev: EventMsgData, m: Message,
      ethMap: EthChannelMap, cfg: PefConfInfo, answers: Answers)
    requires ev.recordId == m.recId && PolicyApplies(row, group)
    ensures var step := AlertStep(PolicyOf(row), r, p, ev, ethMap, answers);
            step.Some? && e in Render(step.value, Has(cfg.pefControl, 0x02))
            <==> AlertEffect(e, row, r, p, m, ethMap, cfg, answers)
  {
    var policy := PolicyOf(row);
    var iface := InterfaceName(policy.channelNo, ethMap);
    PolicyMeaning(row);
    forall name: string
      ensures NamesInterface(ethMap, policy.channelNo, name) <==> name == iface
    {
      InterfaceNameMeaning(ethMap, policy.channelNo, name);
    }
    if iface != "" {
      SentMeaning(e, policy, iface, r, p, ev, m, ethMap, cfg, answers);
    }
  }

  function PoliciesIn(rows: seq<Row>): seq<AlertPolicyTbl> {
    seq(|rows|, k requires 0 <= k < |rows| => PolicyOf(rows[k]))
  }

  lemma {:induction false} PoliciesPicked(rows: seq<Row>, group: uint8)
    requires 0 < group
    ensures PoliciesOf(rows, group) == Pick(PoliciesIn(rows), Applying(rows, group))
  {
    if rows != [] {
      var n := |rows| - 1;
      PoliciesPicked(rows[..n], group);
      PolicyMeaning(rows[n]);
      assert PoliciesIn(rows)[..n] == PoliciesIn(rows[..n]);
      assert Applying(rows, group)[..n] == Applying(rows[..n], group);
    }
  }

  /** Row r's p-th policy has the effect. */
  ghost predicate PolicyCauses(e: Effect, policies: seq<AlertPolicyTbl>, r: nat, p: nat, ev: EventMsgData,
      ethMap: EthChannelMap, cfg: PefConfInfo, answers: Answers)
    requires p < |policies|
  {
    var step := AlertStep(policies[p], r, p, ev, ethMap, answers);
    step.Some? && e in Render(step.value, Has(cfg.pefControl, 0x02))
  }

  lemma {:induction false} PickedPolicyActs(e: Effect, policyRows: seq<Row>, group: uint8, r: nat, p: nat,
      ev: EventMsgData, m: Message, ethMap: EthChannelMap, cfg: PefConfInfo, answers: Answers)
    returns (k: nat)
    requires ev.recordId == m.recId && 0 < group && p < |PoliciesOf(policyRows, group)|
    requires PolicyCauses(e, PoliciesOf(policyRows, group), r, p, ev, ethMap, cfg, answers)
    ensures k < |policyRows| && PolicyActs(e, policyRows, k, group, r, m, ethMap, cfg, answers)
  {
    PoliciesPicked(policyRows, group);
    k := PickFrom(PoliciesIn(policyRows), Applying(policyRows, group), p);
    AlertMeaning(e, policyRows[k], group, r, p, ev, m, ethMap, cfg, answers);
  }

  lemma {:induction false} ActingPolicyPicked(e: Effect, policyRows: seq<Row>, group: uint8, r: nat, k: nat,
      ev: EventMsgData, m: Message, ethMap: EthChannelMap, cfg: PefConfInfo, answers: Answers)
    requires ev.recordId == m.recId && 0 < group && k < |policyRows|
    requires PolicyActs(e, policyRows, k, group, r, m, ethMap, cfg, answers)
    ensures var p := Place(Applying(policyRows, group), k);
            && p < |PoliciesOf(policyRows, group)|
            && PolicyCauses(e, PoliciesOf(policyRows, group), r, p, ev, ethMap, cfg, answers)
  {
    PoliciesPicked(policyRows, group);
    PickAt(PoliciesIn(policyRows), Applying(policyRows, group), k);
    AlertMeaning(e, policyRows[k], group, r, Place(Applying(policyRows, group), k), ev, m, ethMap, cfg, answers);
  }

  lemma {:induction false} AlertsOfGroup(e: Effect, policyRows: seq<Row>, group: uint8, r: nat, ev: EventMsgData,
      m: Message, ethMap: EthChannelMap, cfg: PefConfInfo, answers: Answers)
    requires ev.recordId == m.recId && 0 < group
    ensures var policies := PoliciesOf(policyRows, group);
            (exists p: nat :: p < |policies| && PolicyCauses(e, policies, r, p, ev, ethMap, cfg, answers))
            <==> exists k: nat ::
                   k < |policyRows| && PolicyActs(e, policyRows, k, group, r, m, ethMap, cfg, answers)
  {
    var policies := PoliciesOf(policyRows, group);
    if p: nat :| p < |policies| && PolicyCauses(e, policies, r, p, ev, ethMap, cfg, answers) {
      var k := PickedPolicyActs(e, policyRows, group, r, p, ev, m, ethMap, cfg, answers);
    }
    if k: nat :| k < |policyRows| && PolicyActs(e, policyRows, k, group, r, m, ethMap, cfg, answers) {
      ActingPolicyPicked(e, policyRows, group, r, k, ev, m, ethMap, cfg, answers);
    }
  }

  /** The selection answers with the enabled rows of the group, in table order. */
  ghost predicate SelectsFrom(answers: Answers, policyRows: seq<Row>) {
    forall r: nat, group: uint8 :: SelectsAt(answers, policyRows, r, group)
  }

  ghost predicate SelectsAt(answers: Answers, policyRows: seq<Row>, r: nat, group: uint8) {
    Selected(answers.policyObjects(r), group) == if group > 0 then PoliciesOf(policyRows, group) else []
  }

  /** What a due action of a matched row causes is what the JSON row calls for. */
  lemma {:induction false} RowMeaning(e: Effect, row: Row, r: nat, ev: EventMsgData, m: Message, policyRows: seq<Row>,
      ethMap: EthChannelMap, cfg: PefConfInfo, answers: Answers)
    requires Carried(ev, m) && SelectsFrom(answers, policyRows)
    ensures RowCauses(e, EntryOf(row), r, ev, ethMap, cfg, answers, Has(cfg.pefControl, 0x02))
            <==> RowActs(e, row, r, m, policyRows, ethMap, cfg, answers)
  {
    var entry, group := EntryOf(row), Byte(row, "AlertPolicyNum") % 16;
    var policies := RowPolicies(entry, r, cfg, answers);
    assert SelectsAt(answers, policyRows, r, group);
    PowerMeaning(e, row, r, cfg, answers);
    CausesSplit(e, entry, r, ev, ethMap, cfg, answers);
    if group > 0 {
      AlertsOfGroup(e, policyRows, group, r, ev, m, ethMap, cfg, answers);
    }
    assert Asked(entry, cfg, ALERT_ACTION) <==> Bit(Byte(row, "EvtFilterAction"), 0) && Bit(cfg.pefActionGblControl, 0);
    assert entry.alertPolicyNum % 16 == group;
  }

  /** A due action is the power action or the alert of a policy. */
  lemma {:induction false} CausesSplit(e: Effect, row: EvtFilterTblEntry, r: nat, ev: EventMsgData,
      ethMap: EthChannelMap, cfg: PefConfInfo, answers: Answers)
    ensures var log := Has(cfg.pefControl, 0x02);
            var step, policies := PowerStep(row, r, cfg, answers.powerOn(r)), RowPolicies(row, r, cfg, answers);
            RowCauses(e, row, r, ev, ethMap, cfg, answers, log)
            <==> || (step.Some? && e in Render(step.value, log))
                 || exists p: nat :: p < |policies| && PolicyCauses(e, policies, r, p, ev, ethMap, cfg, answers)
  {
    var log := Has(cfg.pefControl, 0x02);
    if s :| Due(s, row, r, ev, ethMap, cfg, answers) && e in Render(s, log) {
      CauseIsOne(e, s, row, r, ev, ethMap, cfg, answers);
    }
    var step, policies := PowerStep(row, r, cfg, answers.powerOn(r)), RowPolicies(row, r, cfg, answers);
    if step.Some? && e in Render(step.value, log) {
      PowerIsDue(step.value, row, r, ev, ethMap, cfg, answers);
    }
    if p: nat :| p < |policies| && PolicyCauses(e, policies, r, p, ev, ethMap, cfg, answers) {
      AlertIsDue(row, r, p, ev, ethMap, cfg, answers);
    }
  }

  lemma {:induction false} CauseIsOne(e: Effect, s: Step, row: EvtFilterTblEntry, r: nat, ev: EventMsgData,
      ethMap: EthChannelMap, cfg: PefConfInfo, answers: Answers)
    requires Due(s, row, r, ev, ethMap, cfg, answers) && e in Render(s, Has(cfg.pefControl, 0x02))
    ensures var policies := RowPolicies(row, r, cfg, answers);
            if s.policy.None? then PowerStep(row, r, cfg, answers.powerOn(r)) == Some(s)
            else s.policy.value < |policies| && PolicyCauses(e, policies, r, s.policy.value, ev, ethMap, cfg, answers)
  {
  }

  lemma {:induction false} PowerIsDue(s: Step, row: EvtFilterTblEntry, r: nat, ev: EventMsgData,
      ethMap: EthChannelMap, cfg: PefConfInfo, answers: Answers)
    requires PowerStep(row, r, cfg, answers.powerOn(r)) == Some(s)
    ensures Due(s, row, r, ev, ethMap, cfg, answers)
  {
  }

  lemma {:induction false} AlertIsDue(row: EvtFilterTblEntry, r: nat, p: nat, ev: EventMsgData, ethMap: EthChannelMap,
      cfg: PefConfInfo, answers: Answers)
    requires p < |RowPolicies(row, r, cfg, answers)|
    requires AlertStep(RowPolicies(row, r, cfg, answers)[p], r, p, ev, ethMap, answers).Some?
    ensures Due(AlertStep(RowPolicies(row, r, cfg, answers)[p], r, p, ev, ethMap, answers).value, row, r, ev, ethMap,
                cfg, answers)
  {
    var s := AlertStep(RowPolicies(row, r, cfg, answers)[p], r, p, ev, ethMap, answers).value;
    AlertPlace(RowPolicies(row, r, cfg, answers)[p], r, p, ev, ethMap, answers, s);
  }

  // ---- the whole chain

  /** Row j matches the message and calls for the effect. */
  ghost predicate RowCalls(e: Effect, j: nat, m: Message, filterRows: seq<Row>, policyRows: seq<Row>,
      ethMap: EthChannelMap, cfg: PefConfInfo, answers: Answers)
    requires j < |filterRows|
  {
    && RowMatches(filterRows[j], m)
    && RowActs(e, filterRows[j], Place(Matching(filterRows, m), j), m, policyRows, ethMap, cfg, answers)
  }

  ghost predicate CalledFor(e: Effect, m: Message, filterRows: seq<Row>, policyRows: seq<Row>, ethMap: EthChannelMap,
      cfg: PefConfInfo, answers: Answers)
  {
    exists j: nat :: j < |filterRows| && RowCalls(e, j, m, filterRows, policyRows, ethMap, cfg, answers)
  }


  lemma {:induction false} CallingRowCauses(filterRows: seq<Row>, policyRows: seq<Row>, m: Message, ev: EventMsgData,
      ethMap: EthChannelMap, cfg: PefConfInfo, answers: Answers, e: Effect, j: nat)
    requires Carried(ev, m) && SelectsFrom(answers, policyRows)
    requires j < |filterRows| && RowMatches(filterRows[j], m)
    ensures var matched, r := Select(Entries(filterRows), ev), Place(Matching(filterRows, m), j);
            && r < |matched|
            && (RowCauses(e, matched[r], r, ev, ethMap, cfg, answers, Has(cfg.pefControl, 0x02))
                <==> RowCalls(e, j, m, filterRows, policyRows, ethMap, cfg, answers))
  {
    SelectPicks(filterRows, ev, m);
    PickAt(Entries(filterRows), Matching(filterRows, m), j);
    RowMeaning(e, filterRows[j], Place(Matching(filterRows, m), j), ev, m, policyRows, ethMap, cfg, answers);
  }

  lemma {:induction false} RowOfMatch(filterRows: seq<Row>, m: Message, ev: EventMsgData, r: nat) returns (j: nat)
    requires Carried(ev, m) && r < |Select(Entries(filterRows), ev)|
    ensures j < |filterRows| && RowMatches(filterRows[j], m) && Place(Matching(filterRows, m), j) == r
  {
    SelectPicks(filterRows, ev, m);
    j := PickFrom(Entries(filterRows), Matching(filterRows, m), r);
  }

  lemma {:induction false} EffectsOfRows(filterRows: seq<Row>, policyRows: seq<Row>, m: Message, ev: EventMsgData,
      ethMap: EthChannelMap, cfg: PefConfInfo, answers: Answers, e: Effect)
    requires Carried(ev, m) && SelectsFrom(answers, policyRows)
    ensures e in Outcome(Select(Entries(filterRows), ev), ev, ethMap, Some(cfg), answers)
            <==> CalledFor(e, m, filterRows, policyRows, ethMap, cfg, answers)
  {
    var matched, log := Select(Entries(filterRows), ev), Has(cfg.pefControl, 0x02);
    EffectsExact(matched, ev, ethMap, cfg, answers, log, e);
    if r: nat :| r < |matched| && RowCauses(e, matched[r], r, ev, ethMap, cfg, answers, log) {
      var j := RowOfMatch(filterRows, m, ev, r);
      CallingRowCauses(filterRows, policyRows, m, ev, ethMap, cfg, answers, e, j);
    }
    if j: nat :| j < |filterRows| && RowCalls(e, j, m, filterRows, policyRows, ethMap, cfg, answers) {
      CallingRowCauses(filterRows, policyRows, m, ev, ethMap, cfg, answers, e, j);
    }
  }

  /** The two tables with the pending signals replayed. */
  ghost predicate HoldsTables(st: State, filterRows: seq<Row>, policyRows: seq<Row>)
    requires InSync(st)
  {
    && filterRows == Rows(Replay(st.doc, st.queue), Filters)
    && policyRows == Rows(Replay(st.doc, st.queue), Policies)
  }

  lemma {:induction false} SelectionFromTable(st: State, filterRows: seq<Row>, policyRows: seq<Row>, answers: Answers,
      replies: seq<PolicyReply>)
    requires InSync(st) && HoldsTables(st, filterRows, policyRows) && ListReplies(replies, st.policies)
    requires forall r: nat :: answers.policyObjects(r) == Some(replies)
    ensures SelectsFrom(answers, policyRows)
  {
    forall r: nat, group: uint8
      ensures SelectsAt(answers, policyRows, r, group)
    {
      SelectionSeesTable(st, replies, group);
    }
  }

  /** While the processes are in sync and the lists answer, an event has an effect of any kind
      exactly when a row of the JSON filter table matches its message and calls for the effect,
      by itself or by an enabled row of its group in the JSON policy table. */
  lemma {:induction false} EffectsFromTables(st: State, filterRows: seq<Row>, policyRows: seq<Row>, m: Message,
      ev: EventMsgData, ethMap: EthChannelMap, cfg: PefConfInfo, answers: Answers, replies: seq<PolicyReply>,
      e: Effect)
    requires InSync(st) && HoldsTables(st, filterRows, policyRows) && ListReplies(replies, st.policies)
    requires Carried(ev, m) && forall r: nat :: answers.policyObjects(r) == Some(replies)
    ensures e in Outcome(Gather(|st.filters|, st.filters, ev), ev, ethMap, Some(cfg), answers)
            <==> CalledFor(e, m, filterRows, policyRows, ethMap, cfg, answers)
  {
    FilteringSeesTable(st, ev);
    SelectionFromTable(st, filterRows, policyRows, answers, replies);
    EffectsOfRows(filterRows, policyRows, m, ev, ethMap, cfg, answers, e);
  }

  /** The registered D-Bus method: behind the gate, and with the configuration answered, the
      trace has exactly the effects the message and the two JSON tables call for. */
  method DoPefTask(m: Message, pefCtl: Option<uint8>, armed: Option<uint8>, filters: map<nat, Object>,
      ethMap: EthChannelMap, cfg: Option<PefConfInfo>, answers: Answers, ghost st: State, ghost filterRows: seq<Row>,
      ghost policyRows: seq<Row>, ghost replies: seq<PolicyReply>)
    returns (trace: seq<Effect>)
    requires InSync(st) && HoldsTables(st, filterRows, policyRows)
    requires filters == st.filters && ListReplies(replies, st.policies)
    requires forall r: nat :: answers.policyObjects(r) == Some(replies)
    requires cfg.Some? ==> forall ev | Carried(ev, m) ::
               SelectorsValid(Gather(|filters|, filters, ev), ethMap, cfg.value, answers)
    ensures forall e :: e in trace
                        <==> && pefCtl.Some? && Bit(pefCtl.value, 0)
                             && (armed == Some(0) || armed == Some(0xFF))
                             && cfg.Some?
                             && CalledFor(e, m, filterRows, policyRows, ethMap, cfg.value, answers)
  {
    var eveMsg: EventMsgData;
    eveMsg, trace := RunTask(m, pefCtl, armed, filters, ethMap, cfg, answers, st);
    if cfg.Some? {
      forall e
        ensures e in Outcome(Gather(|filters|, filters, eveMsg), eveMsg, ethMap, cfg, answers)
                <==> CalledFor(e, m, filterRows, policyRows, ethMap, cfg.value, answers)
      {
        EffectsFromTables(st, filterRows, policyRows, m, eveMsg, ethMap, cfg.value, answers, replies, e);
      }
    }
  }

  method RunTask(m: Message, pefCtl: Option<uint8>, armed: Option<uint8>, filters: map<nat, Object>,
      ethMap: EthChannelMap, cfg: Option<PefConfInfo>, answers: Answers, ghost st: State)
    returns (eveMsg: EventMsgData, trace: seq<Effect>)
    requires InSync(st) && filters == st.filters
    requires cfg.Some? ==> forall ev | Carried(ev, m) ::
               SelectorsValid(Gather(|filters|, filters, ev), ethMap, cfg.value, answers)
    ensures Carried(eveMsg, m)
    ensures trace
            == if Enabled(pefCtl, armed) then Outcome(Gather(|filters|, filters, eveMsg), eveMsg, ethMap, cfg, answers)
               else []
  {
    FilteringSeesTable(st, EventMsgData(0, 0, 0, 0, 0, 0, 0, 0, 0));
    eveMsg, trace := PefTask(m.recId, m.senType, m.senNum, m.eveType, m.eveData1, m.eveData2, m.eveData3, m.genId,
                             pefCtl, armed, |filters|, filters, ethMap, cfg, answers);
  }
}
