/** What every action trace satisfies: soundness, completeness, order and logging. */
module ActionProperties {
  import opened Types
  import opened Bits
  import opened FilterTable
  import opened AlertPolicy
  import opened PefAction

  // ---- the steps are exactly the actions that are due

  /** The step is the power action of row r, or the alert of row r and one of its policies. */
  ghost predicate Due(s: Step, row: EvtFilterTblEntry, r: nat, ev: EventMsgData, ethMap: EthChannelMap,
      cfg: PefConfInfo, answers: Answers)
  {
    match s.policy
    case None => PowerStep(row, r, cfg, answers.powerOn(r)) == Some(s)
    case Some(p) =>
      var policies := RowPolicies(row, r, cfg, answers);
      p < |policies| && AlertStep(policies[p], r, p, ev, ethMap, answers) == Some(s)
  }

  /** Rows in order; within a row the power action first, then the policies in order. */
  predicate Before(s: Step, t: Step) {
    s.row < t.row || (s.row == t.row && t.policy.Some? && (s.policy.None? || s.policy.value < t.policy.value))
  }

  predicate Ordered(steps: seq<Step>) {
    forall i, j | 0 <= i < j < |steps| :: Before(steps[i], steps[j])
  }

  lemma {:induction false} OrderedConcat(a: seq<Step>, b: seq<Step>)
    requires Ordered(a) && Ordered(b)
    requires forall s, t | s in a && t in b :: Before(s, t)
    ensures Ordered(a + b)
  {
    forall i, j | 0 <= i < j < |a + b|
      ensures Before((a + b)[i], (a + b)[j])
    {
      if i < |a| <= j {
        assert a[i] in a && b[j - |a|] in b;
      }
    }
  }

  /** Lists of steps, one after the other. */
  function Flatten(parts: seq<seq<Step>>): seq<Step> {
    if parts == [] then [] else Flatten(parts[..|parts| - 1]) + parts[|parts| - 1]
  }

  lemma {:induction false} FlattenMember(parts: seq<seq<Step>>, s: Step)
    ensures s in Flatten(parts) <==> exists i :: 0 <= i < |parts| && s in parts[i]
  {
    if parts != [] {
      var init := parts[..|parts| - 1];
      FlattenMember(init, s);
      assert forall i | 0 <= i < |init| :: parts[i] == init[i];
    }
  }

  lemma {:induction false} FlattenOrdered(parts: seq<seq<Step>>)
    requires forall i | 0 <= i < |parts| :: Ordered(parts[i])
    requires forall i, j, s, t | 0 <= i < j < |parts| && s in parts[i] && t in parts[j] :: Before(s, t)
    ensures Ordered(Flatten(parts))
  {
    if parts != [] {
      var init, last := parts[..|parts| - 1], parts[|parts| - 1];
      assert forall i | 0 <= i < |init| :: parts[i] == init[i];
      FlattenOrdered(init);
      forall s, t | s in Flatten(init) && t in last
        ensures Before(s, t)
      {
        FlattenMember(init, s);
      }
      OrderedConcat(Flatten(init), last);
    }
  }

  function AlertParts(policies: seq<AlertPolicyTbl>, n: nat, r: nat, ev: EventMsgData, ethMap: EthChannelMap,
      answers: Answers): seq<seq<Step>>
    requires n <= |policies|
  {
    seq(n, p requires 0 <= p < n => ListOf(AlertStep(policies[p], r, p, ev, ethMap, answers)))
  }

  lemma {:induction false} AlertStepsFlatten(policies: seq<AlertPolicyTbl>, n: nat, r: nat, ev: EventMsgData,
      ethMap: EthChannelMap, answers: Answers)
    requires n <= |policies|
    ensures AlertSteps(policies, n, r, ev, ethMap, answers)
            == Flatten(AlertParts(policies, n, r, ev, ethMap, answers))
  {
    if n > 0 {
      AlertStepsFlatten(policies, n - 1, r, ev, ethMap, answers);
      var parts := AlertParts(policies, n, r, ev, ethMap, answers);
      assert parts[..n - 1] == AlertParts(policies, n - 1, r, ev, ethMap, answers);
    }
  }

  /** A step carries the place it is taken at. */
  lemma {:induction false} AlertPlace(policy: AlertPolicyTbl, r: nat, p: nat, ev: EventMsgData, ethMap: EthChannelMap,
      answers: Answers, s: Step)
    requires s in ListOf(AlertStep(policy, r, p, ev, ethMap, answers))
    ensures s.row == r && s.policy == Some(p)
  {
  }

  lemma {:induction false} AlertTaken(policies: seq<AlertPolicyTbl>, n: nat, r: nat, ev: EventMsgData,
      ethMap: EthChannelMap, answers: Answers, s: Step)
    requires n <= |policies|
    ensures s in AlertSteps(policies, n, r, ev, ethMap, answers)
            <==> s.policy.Some? && s.policy.value < n
                 && AlertStep(policies[s.policy.value], r, s.policy.value, ev, ethMap, answers) == Some(s)
    ensures s in AlertSteps(policies, n, r, ev, ethMap, answers) ==> s.row == r
  {
    var parts := AlertParts(policies, n, r, ev, ethMap, answers);
    AlertStepsFlatten(policies, n, r, ev, ethMap, answers);
    FlattenMember(parts, s);
    if p :| 0 <= p < |parts| && s in parts[p] {
      AlertPlace(policies[p], r, p, ev, ethMap, answers, s);
    }
    if s.policy.Some? && s.policy.value < n {
      var p := s.policy.value;
      assert parts[p] == ListOf(AlertStep(policies[p], r, p, ev, ethMap, answers));
    }
  }

  /** Part p holds steps of row r and policy p only. */
  predicate ByPolicy(parts: seq<seq<Step>>, r: nat) {
    forall p, s | 0 <= p < |parts| && s in parts[p] :: s.row == r && s.policy == Some(p)
  }

  lemma {:induction false} AlertPartsByPolicy(policies: seq<AlertPolicyTbl>, n: nat, r: nat, ev: EventMsgData,
      ethMap: EthChannelMap, answers: Answers)
    requires n <= |policies|
    ensures ByPolicy(AlertParts(policies, n, r, ev, ethMap, answers), r)
    ensures forall p | 0 <= p < n :: |AlertParts(policies, n, r, ev, ethMap, answers)[p]| <= 1
  {
    var parts := AlertParts(policies, n, r, ev, ethMap, answers);
    forall p, s: Step | 0 <= p < n && s in parts[p]
      ensures s.row == r && s.policy == Some(p)
    {
      AlertPlace(policies[p], r, p, ev, ethMap, answers, s);
    }
  }

  lemma {:induction false} ByPolicyOrdered(parts: seq<seq<Step>>, r: nat)
    requires ByPolicy(parts, r) && forall p | 0 <= p < |parts| :: |parts[p]| <= 1
    ensures Ordered(Flatten(parts))
  {
    FlattenOrdered(parts);
  }

  lemma {:induction false} AlertStepsOrdered(policies: seq<AlertPolicyTbl>, n: nat, r: nat, ev: EventMsgData,
      ethMap: EthChannelMap, answers: Answers)
    requires n <= |policies|
    ensures Ordered(AlertSteps(policies, n, r, ev, ethMap, answers))
  {
    var parts := AlertParts(policies, n, r, ev, ethMap, answers);
    AlertStepsFlatten(policies, n, r, ev, ethMap, answers);
    AlertPartsByPolicy(policies, n, r, ev, ethMap, answers);
    ByPolicyOrdered(parts, r);
  }

  lemma {:induction false} RowStepTaken(row: EvtFilterTblEntry, r: nat, ev: EventMsgData, ethMap: EthChannelMap,
      cfg: PefConfInfo, answers: Answers, s: Step)
    ensures s in RowSteps(row, r, ev, ethMap, cfg, answers) <==> Due(s, row, r, ev, ethMap, cfg, answers)
    ensures s in RowSteps(row, r, ev, ethMap, cfg, answers) ==> s.row == r
  {
    var policies := RowPolicies(row, r, cfg, answers);
    AlertTaken(policies, |policies|, r, ev, ethMap, answers, s);
  }

  lemma {:induction false} RowStepsOrdered(row: EvtFilterTblEntry, r: nat, ev: EventMsgData, ethMap: EthChannelMap,
      cfg: PefConfInfo, answers: Answers)
    ensures Ordered(RowSteps(row, r, ev, ethMap, cfg, answers))
  {
    var policies := RowPolicies(row, r, cfg, answers);
    var power, alerts := ListOf(PowerStep(row, r, cfg, answers.powerOn(r))),
                         AlertSteps(policies, |policies|, r, ev, ethMap, answers);
    AlertStepsOrdered(policies, |policies|, r, ev, ethMap, answers);
    forall s, t | s in power && t in alerts
      ensures Before(s, t)
    {
      AlertTaken(policies, |policies|, r, ev, ethMap, answers, t);
    }
    OrderedConcat(power, alerts);
  }

  function RowParts(rows: seq<EvtFilterTblEntry>, n: nat, ev: EventMsgData, ethMap: EthChannelMap, cfg: PefConfInfo,
      answers: Answers): seq<seq<Step>>
    requires n <= |rows|
  {
    seq(n, r requires 0 <= r < n => RowSteps(rows[r], r, ev, ethMap, cfg, answers))
  }

  lemma {:induction false} StepsFlatten(rows: seq<EvtFilterTblEntry>, n: nat, ev: EventMsgData, ethMap: EthChannelMap,
      cfg: PefConfInfo, answers: Answers)
    requires n <= |rows|
    ensures Steps(rows, n, ev, ethMap, cfg, answers) == Flatten(RowParts(rows, n, ev, ethMap, cfg, answers))
  {
    if n > 0 {
      StepsFlatten(rows, n - 1, ev, ethMap, cfg, answers);
      var parts := RowParts(rows, n, ev, ethMap, cfg, answers);
      assert parts[..n - 1] == RowParts(rows, n - 1, ev, ethMap, cfg, answers);
    }
  }

  /** Part r holds steps of row r only. */
  predicate ByRow(parts: seq<seq<Step>>) {
    forall r, s | 0 <= r < |parts| && s in parts[r] :: s.row == r
  }

  lemma {:induction false} RowPartsByRow(rows: seq<EvtFilterTblEntry>, n: nat, ev: EventMsgData,
      ethMap: EthChannelMap, cfg: PefConfInfo, answers: Answers)
    requires n <= |rows|
    ensures ByRow(RowParts(rows, n, ev, ethMap, cfg, answers))
    ensures forall r | 0 <= r < n :: Ordered(RowParts(rows, n, ev, ethMap, cfg, answers)[r])
  {
    var parts := RowParts(rows, n, ev, ethMap, cfg, answers);
    forall r, s: Step | 0 <= r < n && s in parts[r]
      ensures s.row == r
    {
      RowStepTaken(rows[r], r, ev, ethMap, cfg, answers, s);
    }
    forall r | 0 <= r < n
      ensures Ordered(parts[r])
    {
      RowStepsOrdered(rows[r], r, ev, ethMap, cfg, answers);
    }
  }

  lemma {:induction false} ByRowMember(parts: seq<seq<Step>>, s: Step)
    requires ByRow(parts)
    ensures s in Flatten(parts) <==> s.row < |parts| && s in parts[s.row]
  {
    FlattenMember(parts, s);
  }

  lemma {:induction false} ByRowOrdered(parts: seq<seq<Step>>)
    requires ByRow(parts) && forall r | 0 <= r < |parts| :: Ordered(parts[r])
    ensures Ordered(Flatten(parts))
  {
    FlattenOrdered(parts);
  }

  lemma {:induction false} StepIsDue(rows: seq<EvtFilterTblEntry>, n: nat, ev: EventMsgData, ethMap: EthChannelMap,
      cfg: PefConfInfo, answers: Answers, s: Step)
    requires n <= |rows|
    ensures s in Steps(rows, n, ev, ethMap, cfg, answers)
            <==> s.row < n && Due(s, rows[s.row], s.row, ev, ethMap, cfg, answers)
  {
    StepsFlatten(rows, n, ev, ethMap, cfg, answers);
    RowPartsByRow(rows, n, ev, ethMap, cfg, answers);
    ByRowMember(RowParts(rows, n, ev, ethMap, cfg, answers), s);
    if s.row < n {
      RowStepTaken(rows[s.row], s.row, ev, ethMap, cfg, answers, s);
    }
  }

  /** Soundness and completeness: a step is taken just when it is due, and, as the steps are
      strictly ordered, each due action is taken exactly once. */
  lemma {:induction false} StepsExact(rows: seq<EvtFilterTblEntry>, n: nat, ev: EventMsgData, ethMap: EthChannelMap,
      cfg: PefConfInfo, answers: Answers)
    requires n <= |rows|
    ensures Ordered(Steps(rows, n, ev, ethMap, cfg, answers))
    ensures forall s :: s in Steps(rows, n, ev, ethMap, cfg, answers)
                        <==> s.row < n && Due(s, rows[s.row], s.row, ev, ethMap, cfg, answers)
  {
    StepsFlatten(rows, n, ev, ethMap, cfg, answers);
    RowPartsByRow(rows, n, ev, ethMap, cfg, answers);
    ByRowOrdered(RowParts(rows, n, ev, ethMap, cfg, answers));
    forall s
      ensures s in Steps(rows, n, ev, ethMap, cfg, answers)
              <==> s.row < n && Due(s, rows[s.row], s.row, ev, ethMap, cfg, answers)
    {
      StepIsDue(rows, n, ev, ethMap, cfg, answers, s);
    }
  }

  // ---- the effects and their causes

  lemma {:induction false} EffectsOfSteps(steps: seq<Step>, log: bool)
    ensures forall e :: e in Trace(steps, log) <==> exists s :: s in steps && e in Render(s, log)
  {
    if steps != [] {
      var init, last := steps[..|steps| - 1], steps[|steps| - 1];
      EffectsOfSteps(init, log);
      assert steps == init + [last];
      assert forall s :: s in steps <==> s in init || s == last;
    }
  }

  /** A due action of row r has the effect. */
  ghost predicate RowCauses(e: Effect, row: EvtFilterTblEntry, r: nat, ev: EventMsgData, ethMap: EthChannelMap,
      cfg: PefConfInfo, answers: Answers, log: bool)
  {
    exists s :: Due(s, row, r, ev, ethMap, cfg, answers) && e in Render(s, log)
  }

  /** The trace has an effect of any kind just when a due action of some row has it. */
  lemma {:induction false} EffectsExact(rows: seq<EvtFilterTblEntry>, ev: EventMsgData, ethMap: EthChannelMap,
      cfg: PefConfInfo, answers: Answers, log: bool, e: Effect)
    ensures e in Trace(Steps(rows, |rows|, ev, ethMap, cfg, answers), log)
            <==> exists r: nat :: r < |rows| && RowCauses(e, rows[r], r, ev, ethMap, cfg, answers, log)
  {
    var steps := Steps(rows, |rows|, ev, ethMap, cfg, answers);
    EffectsOfSteps(steps, log);
    if e in Trace(steps, log) {
      var s :| s in steps && e in Render(s, log);
      StepIsDue(rows, |rows|, ev, ethMap, cfg, answers, s);
      assert RowCauses(e, rows[s.row], s.row, ev, ethMap, cfg, answers, log);
    }
    if r: nat :| r < |rows| && RowCauses(e, rows[r], r, ev, ethMap, cfg, answers, log) {
      var s :| Due(s, rows[r], r, ev, ethMap, cfg, answers) && e in Render(s, log);
      DueHere(s, rows[r], r, ev, ethMap, cfg, answers);
      StepIsDue(rows, |rows|, ev, ethMap, cfg, answers, s);
    }
  }

  lemma {:induction false} DueHere(s: Step, row: EvtFilterTblEntry, r: nat, ev: EventMsgData, ethMap: EthChannelMap,
      cfg: PefConfInfo, answers: Answers)
    requires Due(s, row, r, ev, ethMap, cfg, answers)
    ensures s.row == r
  {
    RowStepTaken(row, r, ev, ethMap, cfg, answers, s);
  }

  /** Row r makes the code reach the power transition. */
  ghost predicate PowerCause(e: Effect, row: EvtFilterTblEntry, r: nat, cfg: PefConfInfo, answers: Answers) {
    if e.ChassisOff? then Asked(row, cfg, POWER_OFF_ACTION)
    else
      && e.HostReboot?
      && !Asked(row, cfg, POWER_OFF_ACTION)
      && (Asked(row, cfg, POWER_CYCLE_ACTION) || Asked(row, cfg, RESET_ACTION))
      && answers.powerOn(r)
  }

  /** Policy p of row r has a channel with an interface and selects a destination of the
      alert's type. */
  ghost predicate Alerts(e: Effect, policy: AlertPolicyTbl, r: nat, p: nat, ethMap: EthChannelMap, answers: Answers)
  {
    && policy.alertPolicyGroupNum != 0
    && exists iface: string ::
         && NamesInterface(ethMap, policy.channelNo, iface)
         && iface != ""
         && AlertsAt(e, policy, r, p, iface, answers)
  }

  /** The LAN object of the interface has the selected destination, of the alert's type. */
  ghost predicate AlertsAt(e: Effect, policy: AlertPolicyTbl, r: nat, p: nat, iface: string, answers: Answers) {
    var d := Destination(policy, answers.lanParams(r, p, iface));
    && d.Some?
    && (if e.SmtpAlert? then d.value.0 == 3 && e.mailId == MailId(answers.mailId(r, p, d.value.1))
        else d.value.0 <= 2 && e == SnmpAlert(policy.channelNo, policy.destinationSel))
  }

  /** Row r asks for alerts, and its policy p makes the code send this one. */
  ghost predicate AlertCause(e: Effect, row: EvtFilterTblEntry, r: nat, p: nat, ethMap: EthChannelMap,
      cfg: PefConfInfo, answers: Answers)
  {
    && Asked(row, cfg, ALERT_ACTION)
    && p < |RowPolicies(row, r, cfg, answers)|
    && Alerts(e, RowPolicies(row, r, cfg, answers)[p], r, p, ethMap, answers)
  }

  /** A power transition happens just when some row is its cause. */
  lemma {:induction false} TransitionsExact(rows: seq<EvtFilterTblEntry>, ev: EventMsgData, ethMap: EthChannelMap,
      cfg: PefConfInfo, answers: Answers, log: bool, e: Effect)
    requires e.ChassisOff? || e.HostReboot?
    ensures e in Trace(Steps(rows, |rows|, ev, ethMap, cfg, answers), log)
            <==> exists r: nat :: r < |rows| && PowerCause(e, rows[r], r, cfg, answers)
  {
    var steps := Steps(rows, |rows|, ev, ethMap, cfg, answers);
    StepsExact(rows, |rows|, ev, ethMap, cfg, answers);
    EffectsOfSteps(steps, log);
    if e in Trace(steps, log) {
      var s :| s in steps && e in Render(s, log);
      assert Due(s, rows[s.row], s.row, ev, ethMap, cfg, answers);
      TransitionHasCause(s, e, rows[s.row], ev, ethMap, cfg, answers, log);
    }
    if r: nat :| r < |rows| && PowerCause(e, rows[r], r, cfg, answers) {
      var s := CauseHasTransition(e, rows[r], r, ev, ethMap, cfg, answers, log);
      assert s in steps && e in Render(s, log);
    }
  }

  lemma {:induction false} TransitionHasCause(s: Step, e: Effect, row: EvtFilterTblEntry, ev: EventMsgData,
      ethMap: EthChannelMap, cfg: PefConfInfo, answers: Answers, log: bool)
    requires Due(s, row, s.row, ev, ethMap, cfg, answers)
    requires (e.ChassisOff? || e.HostReboot?) && e in Render(s, log)
    ensures PowerCause(e, row, s.row, cfg, answers)
  {
  }

  lemma {:induction false} CauseHasTransition(e: Effect, row: EvtFilterTblEntry, r: nat, ev: EventMsgData,
      ethMap: EthChannelMap, cfg: PefConfInfo, answers: Answers, log: bool)
    returns (s: Step)
    requires (e.ChassisOff? || e.HostReboot?) && PowerCause(e, row, r, cfg, answers)
    ensures s.row == r && Due(s, row, r, ev, ethMap, cfg, answers) && e in Render(s, log)
  {
    s := PowerStep(row, r, cfg, answers.powerOn(r)).value;
    assert e == s.attempt || e in s.follow;
  }

  /** An alert is sent just when some row and policy are its cause. */
  lemma {:induction false} AlertsExact(rows: seq<EvtFilterTblEntry>, ev: EventMsgData, ethMap: EthChannelMap,
      cfg: PefConfInfo, answers: Answers, log: bool, e: Effect)
    requires e.SmtpAlert? || e.SnmpAlert?
    ensures e in Trace(Steps(rows, |rows|, ev, ethMap, cfg, answers), log)
            <==> exists r: nat, p: nat :: r < |rows| && AlertCause(e, rows[r], r, p, ethMap, cfg, answers)
  {
    var steps := Steps(rows, |rows|, ev, ethMap, cfg, answers);
    StepsExact(rows, |rows|, ev, ethMap, cfg, answers);
    EffectsOfSteps(steps, log);
    if e in Trace(steps, log) {
      var s :| s in steps && e in Render(s, log);
      assert Due(s, rows[s.row], s.row, ev, ethMap, cfg, answers);
      AlertHasCause(s, e, rows[s.row], ev, ethMap, cfg, answers, log);
    }
    if r: nat, p: nat :| r < |rows| && AlertCause(e, rows[r], r, p, ethMap, cfg, answers) {
      var s := CauseHasStep(e, rows[r], r, p, ev, ethMap, cfg, answers, log);
      assert s in steps && e in Render(s, log);
    }
  }

  lemma {:induction false} AlertHasCause(s: Step, e: Effect, row: EvtFilterTblEntry, ev: EventMsgData,
      ethMap: EthChannelMap, cfg: PefConfInfo, answers: Answers, log: bool)
    requires Due(s, row, s.row, ev, ethMap, cfg, answers)
    requires (e.SmtpAlert? || e.SnmpAlert?) && e in Render(s, log)
    ensures s.policy.Some? && AlertCause(e, row, s.row, s.policy.value, ethMap, cfg, answers)
  {
    var p := s.policy.value;
    var policy := RowPolicies(row, s.row, cfg, answers)[p];
    var iface := InterfaceName(policy.channelNo, ethMap);
    InterfaceNameMeaning(ethMap, policy.channelNo, iface);
    assert AlertsAt(e, policy, s.row, p, iface, answers);
  }

  lemma {:induction false} CauseHasStep(e: Effect, row: EvtFilterTblEntry, r: nat, p: nat, ev: EventMsgData,
      ethMap: EthChannelMap, cfg: PefConfInfo, answers: Answers, log: bool)
    returns (s: Step)
    requires (e.SmtpAlert? || e.SnmpAlert?) && AlertCause(e, row, r, p, ethMap, cfg, answers)
    ensures s.row == r && Due(s, row, r, ev, ethMap, cfg, answers) && e in Render(s, log)
  {
    var policy := RowPolicies(row, r, cfg, answers)[p];
    var iface :| NamesInterface(ethMap, policy.channelNo, iface) && iface != ""
                 && AlertsAt(e, policy, r, p, iface, answers);
    InterfaceNameMeaning(ethMap, policy.channelNo, iface);
    s := AlertStep(policy, r, p, ev, ethMap, answers).value;
    assert e == s.attempt;
  }

  // ---- SEL records

  predicate IsAttempt(e: Effect) {
    e.ChassisOff? || e.QueryPower? || e.SmtpAlert? || e.SnmpAlert?
  }

  /** The action code of a SEL record fits the attempt. */
  predicate Fits(code: uint8, e: Effect) {
    match e
    case ChassisOff => code == POWER_OFF_ACTION
    case QueryPower => code == POWER_CYCLE_ACTION || code == RESET_ACTION
    case SmtpAlert(_) => code == ALERT_ACTION
    case SnmpAlert(_, _) => code == ALERT_ACTION
    case _ => false
  }

  predicate Regular(s: Step) {
    && Fits(s.code, s.attempt)
    && (s.follow == []
        || (s.attempt.QueryPower? && s.follow == [HostReboot])
        || (s.attempt.SmtpAlert? && |s.follow| == 1 && s.follow[0].SetLastBmcProcessedEventId?))
  }

  /** When logging, every attempt directly follows a record of its code and every record
      directly precedes an attempt; without logging there is no record. A reboot directly
      follows the power query, and an event id is set directly after an SMTP alert. */
  predicate Orderly(t: seq<Effect>, log: bool) {
    forall k | 0 <= k < |t| :: OrderlyAt(t, k, log)
  }

  predicate OrderlyAt(t: seq<Effect>, k: nat, log: bool)
    requires k < |t|
  {
    && (log && IsAttempt(t[k]) ==> k > 0 && t[k - 1].SelRecord? && Fits(t[k - 1].action, t[k]))
    && (t[k].SelRecord? ==> log && k + 1 < |t| && IsAttempt(t[k + 1]))
    && (t[k].HostReboot? ==> k > 0 && t[k - 1].QueryPower?)
    && (t[k].SetLastBmcProcessedEventId? ==> k > 0 && t[k - 1].SmtpAlert?)
  }

  lemma {:induction false} DueRegular(s: Step, row: EvtFilterTblEntry, ev: EventMsgData, ethMap: EthChannelMap,
      cfg: PefConfInfo, answers: Answers)
    requires Due(s, row, s.row, ev, ethMap, cfg, answers)
    ensures Regular(s)
  {
  }

  lemma {:induction false} StepsRegular(rows: seq<EvtFilterTblEntry>, ev: EventMsgData, ethMap: EthChannelMap,
      cfg: PefConfInfo, answers: Answers)
    ensures forall s | s in Steps(rows, |rows|, ev, ethMap, cfg, answers) :: Regular(s)
  {
    forall s | s in Steps(rows, |rows|, ev, ethMap, cfg, answers)
      ensures Regular(s)
    {
      StepIsDue(rows, |rows|, ev, ethMap, cfg, answers, s);
      DueRegular(s, rows[s.row], ev, ethMap, cfg, answers);
    }
  }

  /** The record of a reboot names the cycle when the row asks for one and the reset otherwise,
      and an event id that is set is the event's. */
  lemma {:induction false} StepDetails(rows: seq<EvtFilterTblEntry>, ev: EventMsgData, ethMap: EthChannelMap,
      cfg: PefConfInfo, answers: Answers, s: Step)
    requires s in Steps(rows, |rows|, ev, ethMap, cfg, answers)
    ensures s.row < |rows|
    ensures s.attempt.QueryPower? ==>
              s.code == if Asked(rows[s.row], cfg, POWER_CYCLE_ACTION) then POWER_CYCLE_ACTION else RESET_ACTION
    ensures forall e | e in s.follow && e.SetLastBmcProcessedEventId? :: e.recordId == ev.recordId
  {
    StepIsDue(rows, |rows|, ev, ethMap, cfg, answers, s);
  }

  lemma {:induction false} TraceOrderly(steps: seq<Step>, log: bool)
    requires forall s | s in steps :: Regular(s)
    ensures Orderly(Trace(steps, log), log)
  {
    if steps != [] {
      var init, last := steps[..|steps| - 1], steps[|steps| - 1];
      TraceOrderly(init, log);
      RenderOrderly(last, log);
      OrderlyConcat(Trace(init, log), Render(last, log), log);
    }
  }

  lemma {:induction false} RenderOrderly(s: Step, log: bool)
    requires Regular(s)
    ensures Orderly(Render(s, log), log)
  {
    if log {
      assert Render(s, log) == [SelRecord(s.code), s.attempt] + s.follow;
    } else {
      assert Render(s, log) == [s.attempt] + s.follow;
    }
  }

  lemma {:induction false} OrderlyConcat(a: seq<Effect>, b: seq<Effect>, log: bool)
    requires Orderly(a, log) && Orderly(b, log)
    ensures Orderly(a + b, log)
  {
    forall k | 0 <= k < |a + b|
      ensures OrderlyAt(a + b, k, log)
    {
      if k < |a| {
        assert OrderlyAt(a, k, log);
      } else {
        assert OrderlyAt(b, k - |a|, log);
      }
    }
  }

  datatype Class = Record | Attempted | EventIdSet | Transition

  predicate In(e: Effect, c: Class) {
    match c
    case Record => e.SelRecord?
    case Attempted => IsAttempt(e)
    case EventIdSet => e.SetLastBmcProcessedEventId?
    case Transition => e.ChassisOff? || e.HostReboot?
  }

  function Count(t: seq<Effect>, c: Class): nat {
    if t == [] then 0 else Count(t[..|t| - 1], c) + if In(t[|t| - 1], c) then 1 else 0
  }

  lemma {:induction false} CountConcat(a: seq<Effect>, b: seq<Effect>, c: Class)
    ensures Count(a + b, c) == Count(a, c) + Count(b, c)
  {
    if b == [] {
      assert a + b == a;
    } else {
      assert (a + b)[..|a + b| - 1] == a + b[..|b| - 1];
      CountConcat(a, b[..|b| - 1], c);
    }
  }

  lemma {:induction false} CountOne(e: Effect, c: Class)
    ensures Count([e], c) == if In(e, c) then 1 else 0
  {
    assert [e][..0] == [];
  }

  /** What a step adds to each count. */
  lemma {:induction false} CountRender(s: Step, log: bool, c: Class)
    requires Regular(s)
    ensures Count(Render(s, log), c)
            == (if log && c.Record? then 1 else 0)
               + (if In(s.attempt, c) then 1 else 0)
               + (if s.follow != [] && In(s.follow[0], c) then 1 else 0)
  {
    var record := if log then [SelRecord(s.code)] else [];
    CountConcat(record + [s.attempt], s.follow, c);
    CountConcat(record, [s.attempt], c);
    CountOne(SelRecord(s.code), c);
    CountOne(s.attempt, c);
    if s.follow != [] {
      assert s.follow == [s.follow[0]];
      CountOne(s.follow[0], c);
    }
  }

  /** As many records as attempts when logging, none otherwise. */
  lemma {:induction false} RecordsMatchAttempts(steps: seq<Step>, log: bool)
    requires forall s | s in steps :: Regular(s)
    ensures Count(Trace(steps, log), Attempted) == |steps|
    ensures Count(Trace(steps, log), Record) == if log then |steps| else 0
  {
    if steps != [] {
      var init, last := steps[..|steps| - 1], steps[|steps| - 1];
      RecordsMatchAttempts(init, log);
      CountConcat(Trace(init, log), Render(last, log), Attempted);
      CountConcat(Trace(init, log), Render(last, log), Record);
      CountRender(last, log, Attempted);
      CountRender(last, log, Record);
    }
  }

  /** The step sent mail and got status 0. */
  predicate Mailed(s: Step, answers: Answers) {
    && s.policy.Some?
    && s.attempt.SmtpAlert?
    && SmtpStatus(s.attempt.mailId, answers.smtpStatus(s.row, s.policy.value)) == 0
  }

  function CountMailed(steps: seq<Step>, answers: Answers): nat {
    if steps == [] then 0
    else CountMailed(steps[..|steps| - 1], answers) + if Mailed(steps[|steps| - 1], answers) then 1 else 0
  }

  lemma {:induction false} DueMailed(s: Step, row: EvtFilterTblEntry, ev: EventMsgData, ethMap: EthChannelMap,
      cfg: PefConfInfo, answers: Answers)
    requires Due(s, row, s.row, ev, ethMap, cfg, answers)
    ensures Regular(s) && (Mailed(s, answers) <==> s.follow != [] && In(s.follow[0], EventIdSet))
  {
  }

  /** LastBMCProcessedEventID is requested once for every SMTP send that returned status 0. */
  lemma {:induction false} EventIdPerMail(rows: seq<EvtFilterTblEntry>, n: nat, ev: EventMsgData,
      ethMap: EthChannelMap, cfg: PefConfInfo, answers: Answers, log: bool)
    requires n <= |rows|
    ensures var steps := Steps(rows, n, ev, ethMap, cfg, answers);
            Count(Trace(steps, log), EventIdSet) == CountMailed(steps, answers)
  {
    var steps := Steps(rows, n, ev, ethMap, cfg, answers);
    forall s | s in steps
      ensures Regular(s) && (Mailed(s, answers) <==> s.follow != [] && In(s.follow[0], EventIdSet))
    {
      StepIsDue(rows, n, ev, ethMap, cfg, answers, s);
      DueMailed(s, rows[s.row], ev, ethMap, cfg, answers);
    }
    CountFollow(steps, answers, log);
  }

  lemma {:induction false} CountFollow(steps: seq<Step>, answers: Answers, log: bool)
    requires forall s | s in steps ::
               Regular(s) && (Mailed(s, answers) <==> s.follow != [] && In(s.follow[0], EventIdSet))
    ensures Count(Trace(steps, log), EventIdSet) == CountMailed(steps, answers)
  {
    if steps != [] {
      var init, last := steps[..|steps| - 1], steps[|steps| - 1];
      CountFollow(init, answers, log);
      CountConcat(Trace(init, log), Render(last, log), EventIdSet);
      CountRender(last, log, EventIdSet);
    }
  }

  /** A row causes one power transition when it has a cause for one, and otherwise none. */
  lemma {:induction false} OneTransitionPerRow(row: EvtFilterTblEntry, r: nat, ev: EventMsgData,
      ethMap: EthChannelMap, cfg: PefConfInfo, answers: Answers, log: bool)
    ensures Count(Trace(RowSteps(row, r, ev, ethMap, cfg, answers), log), Transition)
            == if PowerCause(ChassisOff, row, r, cfg, answers) || PowerCause(HostReboot, row, r, cfg, answers) then 1
               else 0
  {
    var step := PowerStep(row, r, cfg, answers.powerOn(r));
    var policies := RowPolicies(row, r, cfg, answers);
    var alerts := AlertSteps(policies, |policies|, r, ev, ethMap, answers);
    TraceConcat(ListOf(step), alerts, log);
    CountConcat(Trace(ListOf(step), log), Trace(alerts, log), Transition);
    AlertStepsAreAlerts(policies, r, ev, ethMap, answers);
    NoTransitionInAlerts(alerts, log);
    PowerTransitions(row, r, cfg, answers, log);
  }

  lemma {:induction false} PowerTransitions(row: EvtFilterTblEntry, r: nat, cfg: PefConfInfo, answers: Answers,
      log: bool)
    ensures Count(Trace(ListOf(PowerStep(row, r, cfg, answers.powerOn(r))), log), Transition)
            == if PowerCause(ChassisOff, row, r, cfg, answers) || PowerCause(HostReboot, row, r, cfg, answers) then 1
               else 0
  {
    var step := PowerStep(row, r, cfg, answers.powerOn(r));
    if step.Some? {
      TraceOne(step.value, log);
      CountRender(step.value, log, Transition);
    }
  }

  lemma {:induction false} AlertStepsAreAlerts(policies: seq<AlertPolicyTbl>, r: nat, ev: EventMsgData,
      ethMap: EthChannelMap, answers: Answers)
    ensures forall s | s in AlertSteps(policies, |policies|, r, ev, ethMap, answers) ::
              Regular(s) && (s.attempt.SmtpAlert? || s.attempt.SnmpAlert?)
  {
    forall s | s in AlertSteps(policies, |policies|, r, ev, ethMap, answers)
      ensures Regular(s) && (s.attempt.SmtpAlert? || s.attempt.SnmpAlert?)
    {
      AlertTaken(policies, |policies|, r, ev, ethMap, answers, s);
    }
  }

  lemma {:induction false} NoTransitionInAlerts(steps: seq<Step>, log: bool)
    requires forall s | s in steps :: Regular(s) && (s.attempt.SmtpAlert? || s.attempt.SnmpAlert?)
    ensures Count(Trace(steps, log), Transition) == 0
  {
    if steps != [] {
      var init, last := steps[..|steps| - 1], steps[|steps| - 1];
      NoTransitionInAlerts(init, log);
      CountConcat(Trace(init, log), Render(last, log), Transition);
      CountRender(last, log, Transition);
    }
  }

  /** The record of a power action. */
  predicate PowerRecord(e: Effect) {
    e.SelRecord? && e.action != ALERT_ACTION
  }

  /** A row leaves the record of a power action without a transition exactly when records are
      written, no power-off is due, a cycle or reset is, and the host is off. */
  lemma {:induction false} RecordWithoutTransition(row: EvtFilterTblEntry, r: nat, ev: EventMsgData,
      ethMap: EthChannelMap, cfg: PefConfInfo, answers: Answers, log: bool)
    ensures var trace := Trace(RowSteps(row, r, ev, ethMap, cfg, answers), log);
            (exists e :: e in trace && PowerRecord(e)) && Count(trace, Transition) == 0
            <==> && log
                 && !Asked(row, cfg, POWER_OFF_ACTION)
                 && (Asked(row, cfg, POWER_CYCLE_ACTION) || Asked(row, cfg, RESET_ACTION))
                 && !answers.powerOn(r)
  {
    OneTransitionPerRow(row, r, ev, ethMap, cfg, answers, log);
    PowerRecordOfRow(row, r, ev, ethMap, cfg, answers, log);
  }

  lemma {:induction false} RecordIsOfPower(s: Step, e: Effect, row: EvtFilterTblEntry, r: nat, ev: EventMsgData,
      ethMap: EthChannelMap, cfg: PefConfInfo, answers: Answers, log: bool)
    requires Due(s, row, r, ev, ethMap, cfg, answers)
    requires e in Render(s, log) && PowerRecord(e)
    ensures log && PowerStep(row, r, cfg, answers.powerOn(r)).Some?
  {
  }

  lemma {:induction false} PowerLeavesRecord(row: EvtFilterTblEntry, r: nat, cfg: PefConfInfo, answers: Answers)
    requires PowerStep(row, r, cfg, answers.powerOn(r)).Some?
    ensures var s := PowerStep(row, r, cfg, answers.powerOn(r)).value;
            && s.policy == None && s.row == r
            && PowerRecord(SelRecord(s.code))
            && SelRecord(s.code) in Render(s, true)
  {
    var s := PowerStep(row, r, cfg, answers.powerOn(r)).value;
    assert Render(s, true)[0] == SelRecord(s.code);
  }

  lemma {:induction false} PowerRecordOfRow(row: EvtFilterTblEntry, r: nat, ev: EventMsgData, ethMap: EthChannelMap,
      cfg: PefConfInfo, answers: Answers, log: bool)
    ensures (exists e :: e in Trace(RowSteps(row, r, ev, ethMap, cfg, answers), log) && PowerRecord(e))
            <==> log && PowerStep(row, r, cfg, answers.powerOn(r)).Some?
  {
    var steps, step := RowSteps(row, r, ev, ethMap, cfg, answers), PowerStep(row, r, cfg, answers.powerOn(r));
    EffectsOfSteps(steps, log);
    if e :| e in Trace(steps, log) && PowerRecord(e) {
      var s :| s in steps && e in Render(s, log);
      RowStepTaken(row, r, ev, ethMap, cfg, answers, s);
      RecordIsOfPower(s, e, row, r, ev, ethMap, cfg, answers, log);
    }
    if log && step.Some? {
      PowerLeavesRecord(row, r, cfg, answers);
      RowStepTaken(row, r, ev, ethMap, cfg, answers, step.value);
      assert SelRecord(step.value.code) in Trace(steps, log);
    }
  }
}
