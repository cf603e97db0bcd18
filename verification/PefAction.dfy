/** From matched filters to actions: the ordered trace of SEL records, power transitions and
    alerts of one event (performPefAction, eventFilteringProcess, pefTask). */
module PefAction {
  import opened Types
  import opened Bits
  import opened Tables
  import opened FilterTable
  import opened AlertPolicy

  const ALERT_ACTION: uint8 := 0x01
  const POWER_OFF_ACTION: uint8 := 0x02
  const RESET_ACTION: uint8 := 0x04
  const POWER_CYCLE_ACTION: uint8 := 0x08

  datatype PefConfInfo = PefConfInfo(pefControl: uint8, pefActionGblControl: uint8)

  /** What the code does to the outside, in order. */
  datatype Effect =
    | SelRecord(action: uint8)
    | ChassisOff
    | QueryPower
    | HostReboot
    | SmtpAlert(mailId: string)
    | SetLastBmcProcessedEventId(recordId: uint16)
    | SnmpAlert(channelNo: uint8, destinationSel: uint8)

  type EthChannelMap = seq<(uint8, string)>

  /** The answers of other processes. Every call is made at most once for a row, or for a
      policy of a row, so its answer is a function of that position. */
  datatype Answers = Answers(
    powerOn: nat -> bool,
    policyObjects: nat -> Option<seq<PolicyReply>>,
    lanParams: (nat, nat, string) -> Option<Object>,
    mailId: (nat, nat, string) -> Option<string>,
    smtpStatus: (nat, nat) -> uint16)

  // ---- which actions an event asks for

  /** The row asks for the action and the global control allows it. */
  predicate Asked(row: EvtFilterTblEntry, cfg: PefConfInfo, action: uint8)
    requires action > 0
  {
    Has(row.evtFilterAction, action) && Has(cfg.pefActionGblControl, action)
  }

  /** One attempted action with the row and policy it is for, the code of its SEL record and
      what follows it directly. */
  datatype Step = Step(row: nat, policy: Option<nat>, code: uint8, attempt: Effect, follow: seq<Effect>)

  /** Power-off wins over cycle and reset; the latter two both reboot a host that is on. */
  function PowerStep(row: EvtFilterTblEntry, r: nat, cfg: PefConfInfo, powerOn: bool): Option<Step> {
    if Asked(row, cfg, POWER_OFF_ACTION) then
      Some(Step(r, None, POWER_OFF_ACTION, ChassisOff, []))
    else if Asked(row, cfg, POWER_CYCLE_ACTION) || Asked(row, cfg, RESET_ACTION) then
      var code := if Asked(row, cfg, POWER_CYCLE_ACTION) then POWER_CYCLE_ACTION else RESET_ACTION;
      Some(Step(r, None, code, QueryPower, if powerOn then [HostReboot] else []))
    else None
  }

  /** The name of the first interface of a channel, empty when there is none. */
  function InterfaceName(channelNo: uint8, ethMap: EthChannelMap): string {
    if ethMap == [] then ""
    else if ethMap[0].0 == channelNo then ethMap[0].1
    else InterfaceName(channelNo, ethMap[1..])
  }

  /** The name of the first pair with the channel, or empty when no pair has it. */
  ghost predicate NamesInterface(ethMap: EthChannelMap, channelNo: uint8, name: string) {
    || (exists i :: 0 <= i < |ethMap| && FirstOfChannel(ethMap, channelNo, i) && name == ethMap[i].1)
    || (name == "" && forall i | 0 <= i < |ethMap| :: ethMap[i].0 != channelNo)
  }

  ghost predicate FirstOfChannel(ethMap: EthChannelMap, channelNo: uint8, i: nat)
    requires i < |ethMap|
  {
    ethMap[i].0 == channelNo && forall j | 0 <= j < i :: ethMap[j].0 != channelNo
  }

  lemma {:induction false} InterfaceNameMeaning(ethMap: EthChannelMap, channelNo: uint8, name: string)
    ensures NamesInterface(ethMap, channelNo, name) <==> name == InterfaceName(channelNo, ethMap)
  {
    if ethMap != [] && ethMap[0].0 != channelNo {
      var rest := ethMap[1..];
      InterfaceNameMeaning(rest, channelNo, name);
      if i :| 0 <= i < |ethMap| && FirstOfChannel(ethMap, channelNo, i) && name == ethMap[i].1 {
        assert rest[i - 1] == ethMap[i] && FirstOfChannel(rest, channelNo, i - 1);
      }
      if i :| 0 <= i < |rest| && FirstOfChannel(rest, channelNo, i) && name == rest[i].1 {
        assert ethMap[i + 1] == rest[i];
        assert forall j | 1 <= j < i + 1 :: ethMap[j] == rest[j - 1];
        assert FirstOfChannel(ethMap, channelNo, i + 1);
      }
      assert forall i | 1 <= i < |ethMap| :: ethMap[i] == rest[i - 1];
    } else if ethMap != [] {
      assert FirstOfChannel(ethMap, channelNo, 0);
    }
  }

  /** The type array of a LAN object, empty when it cannot be read. */
  function TypesOf(lanParams: Option<Object>): seq<uint8> {
    if lanParams.None? then []
    else
      var types := ByteProperty(lanParams.value, "Type");
      if types.Some? then types.value else []
  }

  /** The index of the selected destination: the selector must lie below the array's size, and
      one is subtracted afterwards. Selector 0 has no index; what the code does with it on a
      type array that has elements is not defined (SelectorValid). */
  function ActionIndex(types: seq<uint8>, sel: uint8): Option<nat> {
    if 1 <= sel < |types| then Some(sel - 1) else None
  }

  function UserAt(lanParams: Option<Object>, i: nat): string {
    if lanParams.None? then ""
    else
      var users := TextProperty(lanParams.value, "userName");
      if users.Some? && i < |users.value| then users.value[i] else ""
  }

  /** The destination a policy selects: its type and user name, None when it cannot be resolved. */
  function Destination(policy: AlertPolicyTbl, lanParams: Option<Object>): Option<(uint8, string)> {
    var i := ActionIndex(TypesOf(lanParams), policy.destinationSel);
    if i.None? then None
    else
      var destinationType, user := TypesOf(lanParams)[i.value], UserAt(lanParams, i.value);
      if destinationType == 3 && user == "" then None else Some((destinationType, user))
  }

  /** Where the type array is reached and has elements, the selector is not 0, which would
      index before the array. */
  predicate SelectorValid(policy: AlertPolicyTbl, r: nat, p: nat, ethMap: EthChannelMap, answers: Answers) {
    var iface := InterfaceName(policy.channelNo, ethMap);
    policy.destinationSel == 0 ==>
      policy.alertPolicyGroupNum == 0 || iface == "" || TypesOf(answers.lanParams(r, p, iface)) == []
  }

  /** The mail address an SMTP alert for the user is sent to. */
  function MailId(answer: Option<string>): string {
    if answer.Some? then answer.value else ""
  }

  /** The status of sending mail; without an address nothing is sent. */
  function SmtpStatus(mailId: string, answer: uint16): uint16 {
    if mailId == "" then 0xFFFF else answer
  }

  function AlertStep(policy: AlertPolicyTbl, r: nat, p: nat, ev: EventMsgData, ethMap: EthChannelMap,
      answers: Answers): Option<Step>
  {
    var iface := InterfaceName(policy.channelNo, ethMap);
    if policy.alertPolicyGroupNum == 0 || iface == "" then None
    else
      match Destination(policy, answers.lanParams(r, p, iface))
      case None => None
      case Some((destinationType, user)) =>
        if destinationType == 3 then
          var mailId := MailId(answers.mailId(r, p, user));
          var sent := SmtpStatus(mailId, answers.smtpStatus(r, p)) == 0;
          Some(Step(r, Some(p), ALERT_ACTION, SmtpAlert(mailId),
                    if sent then [SetLastBmcProcessedEventId(ev.recordId)] else []))
        else if destinationType <= 2 then
          Some(Step(r, Some(p), ALERT_ACTION, SnmpAlert(policy.channelNo, policy.destinationSel), []))
        else None
  }

  function ListOf<T>(o: Option<T>): seq<T> {
    if o.Some? then [o.value] else []
  }

  /** The policies of a row that asks for alerts. */
  function RowPolicies(row: EvtFilterTblEntry, r: nat, cfg: PefConfInfo, answers: Answers): seq<AlertPolicyTbl> {
    if Asked(row, cfg, ALERT_ACTION) then Selected(answers.policyObjects(r), row.alertPolicyNum % 16) else []
  }

  predicate RowSelectorsValid(row: EvtFilterTblEntry, r: nat, ethMap: EthChannelMap, cfg: PefConfInfo, answers: Answers)
  {
    var policies := RowPolicies(row, r, cfg, answers);
    forall p | 0 <= p < |policies| :: SelectorValid(policies[p], r, p, ethMap, answers)
  }

  predicate SelectorsValid(rows: seq<EvtFilterTblEntry>, ethMap: EthChannelMap, cfg: PefConfInfo, answers: Answers) {
    forall r | 0 <= r < |rows| :: RowSelectorsValid(rows[r], r, ethMap, cfg, answers)
  }

  function AlertSteps(policies: seq<AlertPolicyTbl>, n: nat, r: nat, ev: EventMsgData, ethMap: EthChannelMap,
      answers: Answers): seq<Step>
    requires n <= |policies|
  {
    if n == 0 then []
    else
      AlertSteps(policies, n - 1, r, ev, ethMap, answers)
      + ListOf(AlertStep(policies[n - 1], r, n - 1, ev, ethMap, answers))
  }

  function RowSteps(row: EvtFilterTblEntry, r: nat, ev: EventMsgData, ethMap: EthChannelMap, cfg: PefConfInfo,
      answers: Answers): seq<Step>
  {
    var policies := RowPolicies(row, r, cfg, answers);
    ListOf(PowerStep(row, r, cfg, answers.powerOn(r))) + AlertSteps(policies, |policies|, r, ev, ethMap, answers)
  }

  function Steps(rows: seq<EvtFilterTblEntry>, n: nat, ev: EventMsgData, ethMap: EthChannelMap, cfg: PefConfInfo,
      answers: Answers): seq<Step>
    requires n <= |rows|
  {
    if n == 0 then []
    else Steps(rows, n - 1, ev, ethMap, cfg, answers) + RowSteps(rows[n - 1], n - 1, ev, ethMap, cfg, answers)
  }

  // ---- the trace of the steps

  function Render(s: Step, log: bool): seq<Effect> {
    (if log then [SelRecord(s.code)] else []) + [s.attempt] + s.follow
  }

  function Trace(steps: seq<Step>, log: bool): seq<Effect> {
    if steps == [] then [] else Trace(steps[..|steps| - 1], log) + Render(steps[|steps| - 1], log)
  }

  lemma {:induction false} TraceConcat(a: seq<Step>, b: seq<Step>, log: bool)
    ensures Trace(a + b, log) == Trace(a, log) + Trace(b, log)
  {
    if b == [] {
      assert a + b == a;
    } else {
      assert (a + b)[..|a + b| - 1] == a + b[..|b| - 1];
      TraceConcat(a, b[..|b| - 1], log);
    }
  }

  lemma {:induction false} TraceOne(s: Step, log: bool)
    ensures Trace([s], log) == Render(s, log)
  {
    assert [s][..0] == [];
  }

  // ---- the code

  method GetInterfaceNameForChannel(channelNo: uint8, ethMap: EthChannelMap) returns (iface: string)
    ensures NamesInterface(ethMap, channelNo, iface)
  {
    for i := 0 to |ethMap|
      invariant forall j | 0 <= j < i :: ethMap[j].0 != channelNo
    {
      if ethMap[i].0 == channelNo {
        assert FirstOfChannel(ethMap, channelNo, i);
        return ethMap[i].1;
      }
    }
    return "";
  }

  method PerformPower(row: EvtFilterTblEntry, ghost r: nat, cfg: PefConfInfo, powerOn: bool)
    returns (trace: seq<Effect>)
    ensures trace == Trace(ListOf(PowerStep(row, r, cfg, powerOn)), Has(cfg.pefControl, 0x02))
  {
    trace := [];
    ghost var step := PowerStep(row, r, cfg, powerOn);
    if step.Some? {
      TraceOne(step.value, Has(cfg.pefControl, 0x02));
    }
    if Has(row.evtFilterAction, POWER_OFF_ACTION) || Has(row.evtFilterAction, POWER_CYCLE_ACTION)
       || Has(row.evtFilterAction, RESET_ACTION) {
      if Has(row.evtFilterAction, POWER_OFF_ACTION) && Has(cfg.pefActionGblControl, POWER_OFF_ACTION) {
        if Has(cfg.pefControl, 0x02) {
          trace := trace + [SelRecord(POWER_OFF_ACTION)];
        }
        trace := trace + [ChassisOff];
      } else if (Has(row.evtFilterAction, POWER_CYCLE_ACTION) && Has(cfg.pefActionGblControl, POWER_CYCLE_ACTION))
                || (Has(row.evtFilterAction, RESET_ACTION) && Has(cfg.pefActionGblControl, RESET_ACTION)) {
        if Has(cfg.pefControl, 0x02) {
          if Has(row.evtFilterAction, POWER_CYCLE_ACTION) && Has(cfg.pefActionGblControl, POWER_CYCLE_ACTION) {
            trace := trace + [SelRecord(POWER_CYCLE_ACTION)];
          } else if Has(row.evtFilterAction, RESET_ACTION) && Has(cfg.pefActionGblControl, RESET_ACTION) {
            trace := trace + [SelRecord(RESET_ACTION)];
          }
        }
        trace := trace + [QueryPower];
        if powerOn {
          trace := trace + [HostReboot];
        }
      }
    }
  }

  /** One policy of a row: the body of the loop over the selected policies. */
  method PerformAlert(policy: AlertPolicyTbl, r: nat, p: nat, ev: EventMsgData, ethMap: EthChannelMap,
      cfg: PefConfInfo, answers: Answers)
    returns (trace: seq<Effect>)
    requires SelectorValid(policy, r, p, ethMap, answers)
    ensures trace == Trace(ListOf(AlertStep(policy, r, p, ev, ethMap, answers)), Has(cfg.pefControl, 0x02))
  {
    trace := [];
    ghost var step := AlertStep(policy, r, p, ev, ethMap, answers);
    if step.Some? {
      TraceOne(step.value, Has(cfg.pefControl, 0x02));
    }
    if 0 != policy.alertPolicyGroupNum {
      var selectedUserName := "";
      var iface := GetInterfaceNameForChannel(policy.channelNo, ethMap);
      InterfaceNameMeaning(ethMap, policy.channelNo, iface);
      if iface == "" {
        return;
      }
      var lanParamValues := answers.lanParams(r, p, iface);
      if lanParamValues.None? {
        return;
      }
      var typeEntries := ByteProperty(lanParamValues.value, "Type");
      if typeEntries.None? || |typeEntries.value| == 0 {
        return;
      }
      var selectedIndex := 0;
      if policy.destinationSel < |typeEntries.value| {
        selectedIndex := policy.destinationSel;
      } else {
        return;
      }
      selectedIndex := selectedIndex - 1;
      var destinationType := typeEntries.value[selectedIndex];
      var userNameEntries := TextProperty(lanParamValues.value, "userName");
      if userNameEntries.Some? && selectedIndex < |userNameEntries.value| {
        selectedUserName := userNameEntries.value[selectedIndex];
      }
      if destinationType == 3 && selectedUserName == "" {
        return;
      }
      if destinationType == 3 {
        if Has(cfg.pefControl, 0x02) {
          trace := trace + [SelRecord(ALERT_ACTION)];
        }
        var smtpMailId := MailId(answers.mailId(r, p, selectedUserName));
        trace := trace + [SmtpAlert(smtpMailId)];
        var alertStatus := SmtpStatus(smtpMailId, answers.smtpStatus(r, p));
        if alertStatus == 0 {
          trace := trace + [SetLastBmcProcessedEventId(ev.recordId)];
        }
      }
      if destinationType <= 2 {
        if Has(cfg.pefControl, 0x02) {
          trace := trace + [SelRecord(ALERT_ACTION)];
        }
        trace := trace + [SnmpAlert(policy.channelNo, policy.destinationSel)];
      }
    }
  }

  method PerformAlerts(policies: seq<AlertPolicyTbl>, r: nat, ev: EventMsgData, ethMap: EthChannelMap,
      cfg: PefConfInfo, answers: Answers)
    returns (trace: seq<Effect>)
    requires forall p | 0 <= p < |policies| :: SelectorValid(policies[p], r, p, ethMap, answers)
    ensures trace == Trace(AlertSteps(policies, |policies|, r, ev, ethMap, answers), Has(cfg.pefControl, 0x02))
  {
    trace := [];
    for p := 0 to |policies|
      invariant trace == Trace(AlertSteps(policies, p, r, ev, ethMap, answers), Has(cfg.pefControl, 0x02))
    {
      var alertTrace := PerformAlert(policies[p], r, p, ev, ethMap, cfg, answers);
      TraceConcat(AlertSteps(policies, p, r, ev, ethMap, answers),
                  ListOf(AlertStep(policies[p], r, p, ev, ethMap, answers)), Has(cfg.pefControl, 0x02));
      trace := trace + alertTrace;
    }
  }

  method PerformRow(row: EvtFilterTblEntry, r: nat, ev: EventMsgData, ethMap: EthChannelMap, cfg: PefConfInfo,
      answers: Answers)
    returns (trace: seq<Effect>)
    requires RowSelectorsValid(row, r, ethMap, cfg, answers)
    ensures trace == Trace(RowSteps(row, r, ev, ethMap, cfg, answers), Has(cfg.pefControl, 0x02))
  {
    trace := PerformPower(row, r, cfg, answers.powerOn(r));
    ghost var policies := RowPolicies(row, r, cfg, answers);
    TraceConcat(ListOf(PowerStep(row, r, cfg, answers.powerOn(r))),
                AlertSteps(policies, |policies|, r, ev, ethMap, answers), Has(cfg.pefControl, 0x02));
    if Has(row.evtFilterAction, ALERT_ACTION) && Has(cfg.pefActionGblControl, ALERT_ACTION) {
      var alertPolicies := CheckAlertPolicyTbl(row.alertPolicyNum % 16, answers.policyObjects(r));
      var alertTrace := PerformAlerts(alertPolicies, r, ev, ethMap, cfg, answers);
      trace := trace + alertTrace;
    }
  }

  method PerformPefAction(rows: seq<EvtFilterTblEntry>, ev: EventMsgData, ethMap: EthChannelMap, cfg: PefConfInfo,
      answers: Answers)
    returns (trace: seq<Effect>)
    requires SelectorsValid(rows, ethMap, cfg, answers)
    ensures trace == Trace(Steps(rows, |rows|, ev, ethMap, cfg, answers), Has(cfg.pefControl, 0x02))
  {
    trace := [];
    for r := 0 to |rows|
      invariant trace == Trace(Steps(rows, r, ev, ethMap, cfg, answers), Has(cfg.pefControl, 0x02))
    {
      var rowTrace := PerformRow(rows[r], r, ev, ethMap, cfg, answers);
      TraceConcat(Steps(rows, r, ev, ethMap, cfg, answers), RowSteps(rows[r], r, ev, ethMap, cfg, answers),
                  Has(cfg.pefControl, 0x02));
      trace := trace + rowTrace;
    }
  }

  method EventFilteringProcess(count: nat, reply: map<nat, Object>, ev: EventMsgData, ethMap: EthChannelMap,
      cfg: Option<PefConfInfo>, answers: Answers)
    returns (trace: seq<Effect>)
    requires forall b | b in reply :: WellTyped(reply[b])
    requires cfg.Some? ==> SelectorsValid(Gather(count, reply, ev), ethMap, cfg.value, answers)
    ensures trace == Outcome(Gather(count, reply, ev), ev, ethMap, cfg, answers)
  {
    trace := [];
    if count == 0 {
      return;
    }
    var matchedEveFltEntries := CollectMatches(count, reply, ev);
    if 0 != |matchedEveFltEntries| {
      if cfg.None? {
        return;
      }
      trace := PerformPefAction(matchedEveFltEntries, ev, ethMap, cfg.value, answers);
    }
  }

  /** The trace for the matched rows; without the PEF configuration nothing is done. */
  ghost function Outcome(rows: seq<EvtFilterTblEntry>, ev: EventMsgData, ethMap: EthChannelMap,
      cfg: Option<PefConfInfo>, answers: Answers): seq<Effect>
  {
    if cfg.None? then []
    else Trace(Steps(rows, |rows|, ev, ethMap, cfg.value, answers), Has(cfg.value.pefControl, 0x02))
  }

  /** Filtering is open: the postpone timer is not armed and PEF is enabled; None is a failed read. */
  predicate Enabled(pefCtl: Option<uint8>, armed: Option<uint8>) {
    && pefCtl.Some? && Has(pefCtl.value, 0x01)
    && armed.Some? && (armed.value == 0x00 || armed.value == 0xFF)
  }

  /** The event carries the message: the generator id is split into its high and low byte, and
      every other field is the message's. */
  predicate Carries(ev: EventMsgData, recId: uint16, senType: uint8, senNum: uint8, eveType: uint8, eveData1: uint8,
      eveData2: uint8, eveData3: uint8, genId: uint16)
  {
    && ev.generatorId1 * 0x100 + ev.generatorId2 == genId
    && ev.recordId == recId && ev.sensorType == senType && ev.sensorNum == senNum && ev.eventType == eveType
    && ev.eventData1 == eveData1 && ev.eventData2 == eveData2 && ev.eventData3 == eveData3
  }

  lemma {:induction false} CarriesOne(ev: EventMsgData, other: EventMsgData, recId: uint16, senType: uint8,
      senNum: uint8, eveType: uint8, eveData1: uint8, eveData2: uint8, eveData3: uint8, genId: uint16)
    requires Carries(ev, recId, senType, senNum, eveType, eveData1, eveData2, eveData3, genId)
    requires Carries(other, recId, senType, senNum, eveType, eveData1, eveData2, eveData3, genId)
    ensures ev == other
  {
    assert ev.generatorId1 == genId / 0x100 == other.generatorId1;
  }

  method PefTask(recId: uint16, senType: uint8, senNum: uint8, eveType: uint8, eveData1: uint8, eveData2: uint8,
      eveData3: uint8, genId: uint16, pefCtl: Option<uint8>, armed: Option<uint8>, count: nat,
      reply: map<nat, Object>, ethMap: EthChannelMap, cfg: Option<PefConfInfo>, answers: Answers)
    returns (eveMsg: EventMsgData, trace: seq<Effect>)
    requires Enabled(pefCtl, armed) ==> forall b | b in reply :: WellTyped(reply[b])
    requires Enabled(pefCtl, armed) && cfg.Some? ==>
               forall ev | Carries(ev, recId, senType, senNum, eveType, eveData1, eveData2, eveData3, genId) ::
                 SelectorsValid(Gather(count, reply, ev), ethMap, cfg.value, answers)
    ensures Carries(eveMsg, recId, senType, senNum, eveType, eveData1, eveData2, eveData3, genId)
    ensures trace == if Enabled(pefCtl, armed) then Outcome(Gather(count, reply, eveMsg), eveMsg, ethMap, cfg, answers)
                     else []
  {
    trace := [];
    eveMsg := EventMsgData(recId, genId / 0x100, genId % 0x100, senNum, senType, eveType,
                           eveData1, eveData2, eveData3);
    if pefCtl.None? || armed.None? {
      return;
    }
    if armed.value == 0xFE || (armed.value != 0x00 && armed.value != 0xFF) {
      return;
    }
    if !Has(pefCtl.value, 0x01) {
      return;
    }
    trace := EventFilteringProcess(count, reply, eveMsg, ethMap, cfg, answers);
  }
}
