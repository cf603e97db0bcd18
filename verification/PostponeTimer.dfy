/** The postpone timer: arming it, its blocking countdown, and the gate it puts before event
    filtering. */
module PostponeTimer {
  import opened Types
  import opened PefAction

  // ---- the callback

  /** The property sets the callback makes. */
  datatype TimerSet =
    | SetCountdown(value: uint8)
    | SetArmed(value: uint8)

  /** The countdown from n: n-1 down to 0. */
  function Descending(n: nat): seq<TimerSet>
    requires n <= 0x100
  {
    seq(n, i requires 0 <= i < n => SetCountdown(n - 1 - i))
  }

  /** What the callback sets for an armed value. */
  function Sets(armed: uint8): seq<TimerSet> {
    if armed == 0x00 || armed == 0xFF then []
    else if armed == 0xFE then [SetCountdown(0xFE)]
    else Descending(armed) + [SetArmed(0)]
  }

  method PostponeTimerCallback(armed: uint8) returns (sets: seq<TimerSet>)
    ensures sets == Sets(armed)
  {
    sets := [];
    var timer := armed;
    if timer == 0x00 || timer == 0xFF {
      return;
    } else if timer == 0xFE {
      sets := sets + [SetCountdown(timer)];
      return;
    }
    while timer != 0
      invariant 0 <= timer <= armed
      invariant sets == Descending(armed)[..armed - timer]
    {
      timer := timer - 1;
      sets := sets + [SetCountdown(timer)];
    }
    sets := sets + [SetArmed(timer)];
  }

  // ---- the two processes

  /** What waits for the event filtering process, in order of arrival. */
  datatype Message =
    | ArmChanged(value: uint8)
    | Task(id: nat)

  /** The armed and control properties on D-Bus, the countdown property, the remaining seconds
      while the callback sleeps, the waiting messages, and the events that were taken up, each
      with whether it reached filtering. */
  datatype State = State(
    armed: uint8, pefControl: uint8, countdown: uint8, remaining: Option<uint8>, inbox: seq<Message>,
    handled: seq<(nat, bool)>)

  datatype Event =
    | Arm(value: uint8)
    | Control(value: uint8)
    | Submit(id: nat)
    | Process

  /** A client's write takes effect at once, also while the callback sleeps; everything the
      filtering process does waits until the callback returns. */
  function Next(st: State, e: Event): State {
    match e
    case Arm(v) => st.(armed := v, inbox := st.inbox + [ArmChanged(v)])
    case Control(v) => st.(pefControl := v)
    case Submit(id) => st.(inbox := st.inbox + [Task(id)])
    case Process =>
      if st.remaining.Some? then Tick(st, st.remaining.value)
      else if st.inbox == [] then st
      else Handle(st.(inbox := st.inbox[1..]), st.inbox[0])
  }

  /** One second of the countdown; at its end the property is set to 0, whatever it holds. */
  function Tick(st: State, left: uint8): State {
    if left == 0 then st.(armed := 0, remaining := None, inbox := st.inbox + [ArmChanged(0)])
    else st.(countdown := left - 1, remaining := Some(left - 1))
  }

  function Handle(st: State, m: Message): State {
    match m
    case ArmChanged(v) =>
      if v == 0x00 || v == 0xFF then st
      else if v == 0xFE then st.(countdown := 0xFE)
      else st.(remaining := Some(v))
    case Task(id) => st.(handled := st.handled + [(id, Enabled(Some(st.pefControl), Some(st.armed)))])
  }

  function Run(st: State, events: seq<Event>): State
    decreases |events|
  {
    if events == [] then st else Run(Next(st, events[0]), events[1..])
  }

  // ---- what passes

  /** The timer is not armed and PEF is enabled. */
  predicate Open(st: State) {
    (st.armed == 0x00 || st.armed == 0xFF) && st.pefControl % 2 == 1
  }

  /** The gate stands as given at every state of the run. */
  predicate Stays(st: State, events: seq<Event>, open: bool)
    decreases |events|
  {
    Open(st) == open && (events == [] || Stays(Next(st, events[0]), events[1..], open))
  }

  /** The events taken up since were all let through, or none was. */
  predicate Decided(before: State, now: State, open: bool) {
    && before.handled <= now.handled
    && forall j | |before.handled| <= j < |now.handled| :: now.handled[j].1 == open
  }

  /** In a run whose states all have the timer armed in 1..0xFE or PEF disabled no event reaches
      filtering, and in one whose states all have neither every event taken up does. */
  lemma {:induction false} GateDecides(st: State, events: seq<Event>, open: bool)
    requires Stays(st, events, open)
    ensures Decided(st, Run(st, events), open)
    decreases |events|
  {
    if events != [] {
      GateDecides(Next(st, events[0]), events[1..], open);
    }
  }

  /** The submitted events among the messages, and those of a run. */
  function Waiting(inbox: seq<Message>): seq<nat> {
    if inbox == [] then []
    else Waiting(inbox[..|inbox| - 1]) + if inbox[|inbox| - 1].Task? then [inbox[|inbox| - 1].id] else []
  }

  function Submitted(events: seq<Event>): seq<nat> {
    if events == [] then [] else (if events[0].Submit? then [events[0].id] else []) + Submitted(events[1..])
  }

  function TakenUp(handled: seq<(nat, bool)>): seq<nat> {
    seq(|handled|, i requires 0 <= i < |handled| => handled[i].0)
  }

  lemma {:induction false} WaitingFirst(inbox: seq<Message>)
    requires inbox != []
    ensures Waiting(inbox) == (if inbox[0].Task? then [inbox[0].id] else []) + Waiting(inbox[1..])
  {
    var init := inbox[..|inbox| - 1];
    if init != [] {
      WaitingFirst(init);
      assert inbox[1..][..|inbox[1..]| - 1] == init[1..];
    } else {
      assert inbox[1..] == [] && inbox == [inbox[0]];
    }
  }

  lemma {:induction false} WaitingMore(inbox: seq<Message>, m: Message)
    ensures Waiting(inbox + [m]) == Waiting(inbox) + if m.Task? then [m.id] else []
  {
    assert (inbox + [m])[..|inbox|] == inbox;
  }

  lemma {:induction false} StepConserves(st: State, e: Event)
    ensures TakenUp(Next(st, e).handled) + Waiting(Next(st, e).inbox)
            == TakenUp(st.handled) + Waiting(st.inbox) + if e.Submit? then [e.id] else []
  {
    match e
    case Arm(v) => WaitingMore(st.inbox, ArmChanged(v));
    case Control(_) =>
    case Submit(id) => WaitingMore(st.inbox, Task(id));
    case Process =>
      if st.remaining.Some? {
        WaitingMore(st.inbox, ArmChanged(0));
      } else if st.inbox != [] {
        WaitingFirst(st.inbox);
        if st.inbox[0].Task? {
          assert TakenUp(Next(st, e).handled) == TakenUp(st.handled) + [st.inbox[0].id];
        }
      }
  }

  /** Every submitted event is taken up once, in the order of submission, however the run
      mixes countdowns and writes. */
  lemma {:induction false} EventsConserved(st: State, events: seq<Event>)
    ensures var now := Run(st, events);
            TakenUp(now.handled) + Waiting(now.inbox)
            == TakenUp(st.handled) + Waiting(st.inbox) + Submitted(events)
    decreases |events|
  {
    if events != [] {
      StepConserves(st, events[0]);
      EventsConserved(Next(st, events[0]), events[1..]);
    }
  }

  // ---- the countdown

  /** The steps of the event filtering process among the events. */
  function Processes(events: seq<Event>): nat {
    if events == [] then 0 else (if events[0].Process? then 1 else 0) + Processes(events[1..])
  }

  predicate NoArm(events: seq<Event>) {
    forall i | 0 <= i < |events| :: !events[i].Arm?
  }

  /** Before its last second, whatever the clients do meanwhile, the countdown shows the seconds
      left, nothing is taken up, and the armed property changes only by a client's write. */
  lemma {:induction false} CountdownHolds(st: State, n: uint8, events: seq<Event>)
    requires st.remaining == Some(n) && Processes(events) <= n
    ensures var now, k := Run(st, events), Processes(events);
            && now.remaining == Some(n - k)
            && now.countdown == (if k == 0 then st.countdown else n - k)
            && now.handled == st.handled
            && (NoArm(events) ==> now.armed == st.armed)
    decreases |events|
  {
    if events != [] {
      var left: uint8 := if events[0].Process? then n - 1 else n;
      CountdownHolds(Next(st, events[0]), left, events[1..]);
    }
  }

  /** With one step more the timer is disarmed, also when clients have armed it again. */
  lemma {:induction false} CountdownDisarms(st: State, n: uint8, events: seq<Event>)
    requires st.remaining == Some(n) && Processes(events) == n + 1
    requires events[|events| - 1].Process?
    ensures var now := Run(st, events);
            && now.armed == 0
            && now.remaining == None
            && now.countdown == (if n == 0 then st.countdown else 0)
            && now.handled == st.handled
    decreases |events|
  {
    var rest := events[1..];
    if events[0].Process? && n == 0 {
      assert rest == [] by {
        if rest != [] {
          LastProcess(rest);
        }
      }
    } else {
      assert rest != [];
      CountdownDisarms(Next(st, events[0]), if events[0].Process? then n - 1 else n, rest);
    }
  }

  lemma {:induction false} LastProcess(events: seq<Event>)
    requires events != [] && events[|events| - 1].Process?
    ensures Processes(events) > 0
  {
    if |events| > 1 {
      LastProcess(events[1..]);
    }
  }

  // ---- when a request to arm is honoured

  /** Handling the message starts a countdown. */
  predicate Blocking(m: Message) {
    m.ArmChanged? && 0x01 <= m.value <= 0xFD
  }

  /** No countdown is running and none is waiting to run. */
  predicate Clear(st: State) {
    st.remaining.None? && forall i | 0 <= i < |st.inbox| :: !Blocking(st.inbox[i])
  }

  /** The steps that handling the messages takes, with the countdowns they start. */
  function Wait(inbox: seq<Message>): nat {
    if inbox == [] then 0 else (if Blocking(inbox[0]) then inbox[0].value + 2 else 1) + Wait(inbox[1..])
  }

  /** The steps until the first m messages are handled. */
  function StepsUntil(st: State, m: nat): nat
    requires m <= |st.inbox|
  {
    (if st.remaining.Some? then st.remaining.value + 1 else 0) + Wait(st.inbox[..m])
  }

  /** Arming v at this state stays in force until its own countdown is over: without another
      write the armed property is v for as many steps as it takes to get to the request, take
      it up and count down from v; for 0xFE always. */
  ghost predicate InForce(st: State, v: uint8) {
    forall events: seq<Event> |
      NoArm(events) && (v == 0xFE || Processes(events) < StepsUntil(st, |st.inbox|) + v + 2) ::
      Run(Next(st, Arm(v)), events).armed == v
  }

  lemma {:induction false} WaitClear(inbox: seq<Message>)
    requires forall i | 0 <= i < |inbox| :: !Blocking(inbox[i])
    ensures Wait(inbox) == |inbox|
  {
    if inbox != [] {
      WaitClear(inbox[1..]);
    }
  }

  /** 0xFE never counts down: armed with it and clear of countdowns, the timer keeps it until
      the next write and no event reaches filtering. */
  lemma {:induction false} IndefiniteStays(st: State, events: seq<Event>)
    requires st.armed == 0xFE && Clear(st) && NoArm(events)
    ensures Run(st, events).armed == 0xFE && Decided(st, Run(st, events), false)
    decreases |events|
  {
    if events != [] {
      IndefiniteStays(Next(st, events[0]), events[1..]);
    }
  }

  /** The same for a request from 1 to 0xFD with m messages before it, none of them blocking. */
  lemma {:induction false} RequestStays(st: State, m: nat, v: uint8, events: seq<Event>)
    requires 0x01 <= v <= 0xFD && st.armed == v && st.remaining.None? && NoArm(events)
    requires m < |st.inbox| && st.inbox[m] == ArmChanged(v)
    requires forall i | 0 <= i < m :: !Blocking(st.inbox[i])
    requires Processes(events) < m + v + 2
    ensures Run(st, events).armed == v && Decided(st, Run(st, events), false)
    decreases |events|
  {
    if events != [] {
      var next := Next(st, events[0]);
      if events[0].Process? && m == 0 {
        CountdownHolds(next, v, events[1..]);
      } else {
        RequestStays(next, if events[0].Process? then m - 1 else m, v, events[1..]);
      }
    }
  }

  function Ticks(n: nat): (events: seq<Event>)
    ensures NoArm(events) && Processes(events) == n
  {
    if n == 0 then [] else [Process] + Ticks(n - 1)
  }

  /** A countdown is running or among the first m messages. */
  predicate Disturbed(st: State, m: nat)
    requires m <= |st.inbox|
  {
    st.remaining.Some? || exists i | 0 <= i < m :: Blocking(st.inbox[i])
  }

  /** The messages left to handle after one step. */
  function Left(st: State, m: nat): (k: nat)
    requires m <= |st.inbox| && StepsUntil(st, m) > 0
    ensures k <= |Next(st, Process).inbox|
  {
    if st.remaining.Some? then m else m - 1
  }

  lemma {:induction false} OneStep(st: State, m: nat)
    requires m <= |st.inbox| && StepsUntil(st, m) > 0
    ensures var next, k := Next(st, Process), Left(st, m);
            StepsUntil(next, k) == StepsUntil(st, m) - 1 && st.inbox[m..] <= next.inbox[k..]
  {
    var next := Next(st, Process);
    if st.remaining.Some? {
      assert next.inbox[..m] == st.inbox[..m];
    } else {
      assert st.inbox[..m][1..] == next.inbox[..m - 1] && st.inbox[m..] == next.inbox[m - 1..];
    }
  }

  lemma {:induction false} StillDisturbed(st: State, m: nat)
    requires m <= |st.inbox| && StepsUntil(st, m) > 0
    ensures var next := Next(st, Process);
            if Disturbed(st, m) then Disturbed(next, Left(st, m)) || next.armed == 0
            else !Disturbed(next, Left(st, m)) && next.armed == st.armed
  {
    var next := Next(st, Process);
    if st.remaining.None? {
      assert forall i | 1 <= i < m :: st.inbox[i] == next.inbox[i - 1];
      if Disturbed(st, m) {
        var i :| 0 <= i < m && Blocking(st.inbox[i]);
        assert i > 0 ==> Blocking(next.inbox[i - 1]);
      } else {
        assert !Blocking(st.inbox[0]);
      }
    }
  }

  /** Handling the first m messages disarms the timer when a countdown disturbs it, and
      otherwise leaves the armed property as it is. */
  lemma {:induction false} AfterSteps(st: State, m: nat)
    requires m <= |st.inbox|
    ensures var now := Run(st, Ticks(StepsUntil(st, m)));
            && now.remaining == None
            && st.inbox[m..] <= now.inbox
            && now.armed == if Disturbed(st, m) then 0 else st.armed
    decreases StepsUntil(st, m)
  {
    var k := StepsUntil(st, m);
    if k > 0 {
      assert Ticks(k)[1..] == Ticks(k - 1);
      OneStep(st, m);
      StillDisturbed(st, m);
      AfterSteps(Next(st, Process), Left(st, m));
    }
  }

  /** A request that is not clear of countdowns is lost: the property is overwritten with 0
      before the request has even been taken up. */
  lemma {:induction false} RearmIsLost(st: State, v: uint8)
    requires 0x01 <= v <= 0xFE && !Clear(st)
    ensures var now := Run(Next(st, Arm(v)), Ticks(StepsUntil(st, |st.inbox|)));
            now.armed == 0 && now.remaining == None && now.inbox != [] && now.inbox[0] == ArmChanged(v)
  {
    var armed := Next(st, Arm(v));
    assert armed.inbox[..|st.inbox|] == st.inbox == st.inbox[..|st.inbox|];
    assert armed.inbox[|st.inbox|..] == [ArmChanged(v)];
    if st.remaining.None? {
      var i :| 0 <= i < |st.inbox| && Blocking(st.inbox[i]);
      assert Blocking(armed.inbox[i]);
    }
    AfterSteps(armed, |st.inbox|);
  }

  /** A request to arm stays in force until its own countdown or the next write exactly when
      at its time no countdown is running and none is waiting. */
  lemma {:induction false} RequestHonoured(st: State, v: uint8)
    requires 0x01 <= v <= 0xFE
    ensures InForce(st, v) <==> Clear(st)
  {
    if Clear(st) {
      assert st.inbox[..|st.inbox|] == st.inbox;
      WaitClear(st.inbox);
      forall events: seq<Event> |
          NoArm(events) && (v == 0xFE || Processes(events) < StepsUntil(st, |st.inbox|) + v + 2)
        ensures Run(Next(st, Arm(v)), events).armed == v
      {
        if v == 0xFE {
          IndefiniteStays(Next(st, Arm(v)), events);
        } else {
          RequestStays(Next(st, Arm(v)), |st.inbox|, v, events);
        }
      }
    } else {
      RearmIsLost(st, v);
      var events := Ticks(StepsUntil(st, |st.inbox|));
      assert NoArm(events) && Run(Next(st, Arm(v)), events).armed != v;
    }
  }

  lemma {:induction false} CountdownStarts(st: State, m: nat, v: uint8, events: seq<Event>)
    requires m < |st.inbox| && st.inbox[m] == ArmChanged(v) && 0x01 <= v <= 0xFD
    requires Processes(events) == StepsUntil(st, m) + v + 2 && events[|events| - 1].Process?
    ensures Run(st, events).armed == 0 && Run(st, events).remaining == None
    decreases |events|
  {
    var next, rest := Next(st, events[0]), events[1..];
    assert rest != [];
    if !events[0].Process? || st.remaining.Some? {
      assert next.inbox[..m] == st.inbox[..m];
      CountdownStarts(next, m, v, rest);
    } else if m == 0 {
      CountdownDisarms(next, v, rest);
    } else {
      assert st.inbox[..m][1..] == next.inbox[..m - 1];
      CountdownStarts(next, m - 1, v, rest);
    }
  }

  /** And that countdown is over after exactly that many steps, whatever the clients do. */
  lemma {:induction false} RequestEnds(st: State, v: uint8, events: seq<Event>)
    requires 0x01 <= v <= 0xFD
    requires Processes(events) == StepsUntil(st, |st.inbox|) + v + 2 && events[|events| - 1].Process?
    ensures Run(Next(st, Arm(v)), events).armed == 0 && Run(Next(st, Arm(v)), events).remaining == None
  {
    var armed := Next(st, Arm(v));
    assert armed.inbox[..|st.inbox|] == st.inbox[..|st.inbox|];
    CountdownStarts(armed, |st.inbox|, v, events);
  }

  /** The property a set names has its value. */
  predicate Shows(st: State, s: TimerSet) {
    match s
    case SetCountdown(value) => st.countdown == value
    case SetArmed(value) => st.armed == value
  }

  /** Taking up an arm message shows, step by step, exactly what the callback sets: 0xFE at once;
      a value from 1 to 0xFD in the seconds after the first, the last of them disarming; and
      nothing for 0 and 0xFF. */
  lemma {:induction false} HandlingShows(st: State, v: uint8, k: nat)
    requires st.remaining.None? && st.inbox != [] && st.inbox[0] == ArmChanged(v) && k < |Sets(v)|
    ensures Shows(Run(st, Ticks(if v == 0xFE then 1 else k + 2)), Sets(v)[k])
  {
    var next := Next(st, Process);
    if v == 0xFE {
      assert Ticks(1)[1..] == Ticks(0);
      assert Run(st, Ticks(1)) == next;
    } else {
      assert Ticks(k + 2)[1..] == Ticks(k + 1);
      if k < v {
        CountdownHolds(next, v, Ticks(k + 1));
      } else {
        TicksEnd(v);
        CountdownDisarms(next, v, Ticks(v + 1));
      }
    }
  }

  lemma {:induction false} TicksEnd(n: nat)
    ensures |Ticks(n + 1)| == n + 1 && Ticks(n + 1)[n].Process?
  {
    if n > 0 {
      TicksEnd(n - 1);
    }
  }

  /** Without anything to set, taking the message up changes nothing else. */
  lemma {:induction false} HandlingNothing(st: State, v: uint8)
    requires st.remaining.None? && st.inbox != [] && st.inbox[0] == ArmChanged(v) && Sets(v) == []
    ensures Next(st, Process) == st.(inbox := st.inbox[1..])
  {
  }

  /** An event that waited for a countdown to end reaches filtering although the timer was
      armed again meanwhile. */
  lemma {:induction false} WaitingEventPasses(st: State, n: uint8, id: nat, v: uint8)
    requires st.remaining == Some(n) && st.inbox != [] && st.inbox[0] == Task(id) && st.pefControl % 2 == 1
    ensures Run(Next(st, Arm(v)), Ticks(n + 2)).handled == st.handled + [(id, true)]
  {
    TaskAfterCountdown(Next(st, Arm(v)), n, id);
  }

  lemma {:induction false} TaskAfterCountdown(st: State, n: uint8, id: nat)
    requires st.remaining == Some(n) && st.inbox != [] && st.inbox[0] == Task(id) && st.pefControl % 2 == 1
    ensures Run(st, Ticks(n + 2)).handled == st.handled + [(id, true)]
    decreases n
  {
    var next := Next(st, Process);
    assert Ticks(n + 2)[1..] == Ticks(n + 1);
    if n > 0 {
      TaskAfterCountdown(next, n - 1, id);
    } else {
      assert Ticks(1)[1..] == Ticks(0);
      assert Run(next, Ticks(1)) == Next(next, Process);
    }
  }
}
