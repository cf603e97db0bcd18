/** The retry settings: their D-Bus setters, the file they are saved to and its loading. */
module RetryConfig {
  import opened Types

  const MAX_ALERTS_LIMIT := 100
  const MAX_RETRY := 10
  const MAX_INTERVAL := 3600

  type uint32 = n: int | 0 <= n < 0x1_0000_0000

  datatype Settings = Settings(retryEnable: bool, retryCount: uint8, timeInterval: uint32, alertsLimit: uint8)

  const DEFAULTS := Settings(false, 0, 0, 0)

  // ---- the file

  /** A member of the saved object; Other is a value of a type that cannot be converted. */
  datatype Field = Absent | Number(n: int) | Flag(b: bool) | Other

  datatype File =
    | Missing
    | Unparsable
    | Parsed(retryEnable: Field, retryCount: Field, timeInterval: Field, alertsLimit: Field)

  /** The conversion of a JSON integer to a 32-bit int. */
  function ToInt32(n: int): int {
    (n + 0x8000_0000) % 0x1_0000_0000 - 0x8000_0000
  }

  /** `config.value(key, 0)`, None when it throws. */
  function IntValue(f: Field): Option<int> {
    match f
    case Absent => Some(0)
    case Number(n) => Some(ToInt32(n))
    case Flag(b) => Some(if b then 1 else 0)
    case Other => None
  }

  /** `config.value(key, false)`. */
  function BoolValue(f: Field): Option<bool> {
    match f
    case Absent => Some(false)
    case Flag(b) => Some(b)
    case _ => None
  }

  /** What the start of the process makes of the file: members are taken in order, and the
      first that cannot be converted leaves it and the rest at their defaults. */
  function Load(f: File): Settings {
    if !f.Parsed? then DEFAULTS
    else
      var enable, count := BoolValue(f.retryEnable), IntValue(f.retryCount);
      var interval, limit := IntValue(f.timeInterval), IntValue(f.alertsLimit);
      if enable.None? then DEFAULTS
      else if count.None? then DEFAULTS.(retryEnable := enable.value)
      else if interval.None? then
        DEFAULTS.(retryEnable := enable.value, retryCount := CastU8(Min(count.value, MAX_RETRY)))
      else
        Settings(enable.value, CastU8(Min(count.value, MAX_RETRY)), Min(interval.value, MAX_INTERVAL) % 0x1_0000_0000,
                 if limit.None? then 0 else CastU8(Min(limit.value, MAX_ALERTS_LIMIT)))
  }

  function Saved(s: Settings): File {
    Parsed(Flag(s.retryEnable), Number(s.retryCount), Number(s.timeInterval), Number(s.alertsLimit))
  }

  /** How saving fares: written, not opened, or broken off while writing. */
  datatype SaveResult = Written | NotOpened | BrokenOff

  function FileAfter(f: File, s: Settings, r: SaveResult): File {
    match r
    case Written => Saved(s)
    case NotOpened => f
    case BrokenOff => Unparsable
  }

  // ---- the steps

  datatype State = State(live: Settings, file: File)

  datatype Operation =
    | SetRetryEnable(b: bool, r: SaveResult)
    | SetRetryCount(n: uint8, r: SaveResult)
    | SetTimeInterval(t: uint32, r: SaveResult)
    | SetAlertsLimit(n: uint8, r: SaveResult)
    | Restart

  datatype Error = NotPermitted | InvalidValue

  /** The value to store, or the error the setter throws. */
  function Change(live: Settings, op: Operation): Option<Settings>
    requires !op.Restart?
  {
    match op
    case SetRetryEnable(b, _) => Some(live.(retryEnable := b))
    case SetRetryCount(n, _) =>
      if live.retryEnable && n <= MAX_RETRY then Some(live.(retryCount := n)) else None
    case SetTimeInterval(t, _) =>
      if live.retryEnable && t <= MAX_INTERVAL then Some(live.(timeInterval := t)) else None
    case SetAlertsLimit(n, _) =>
      if live.retryEnable && n <= MAX_ALERTS_LIMIT then Some(live.(alertsLimit := n)) else None
  }

  function Next(st: State, op: Operation): State {
    if op.Restart? then State(Load(st.file), st.file)
    else
      var changed := Change(st.live, op);
      if changed.None? then st else State(changed.value, FileAfter(st.file, changed.value, op.r))
  }

  // ---- the code

  class RetrySettings {
    var retryEnable: bool
    var retryCount: uint8
    var timeInterval: uint32
    var alertsLimit: uint8
    var file: File

    ghost function Abstract(): State
      reads this
    {
      State(Settings(retryEnable, retryCount, timeInterval, alertsLimit), file)
    }

    constructor (f: File)
      ensures Abstract() == State(Load(f), f)
    {
      retryEnable, retryCount, timeInterval, alertsLimit := false, 0, 0, 0;
      file := f;
      new;
      LoadFile();
    }

    /** The load at process start, after the globals got their initial values. */
    method LoadFile()
      requires Abstract().live == DEFAULTS
      modifies this
      ensures Abstract() == State(Load(old(file)), old(file))
    {
      if file.Parsed? {
        var enable := BoolValue(file.retryEnable);
        if enable.None? {
          return;
        }
        retryEnable := enable.value;
        var count := IntValue(file.retryCount);
        if count.None? {
          return;
        }
        retryCount := CastU8(Min(count.value, MAX_RETRY));
        var interval := IntValue(file.timeInterval);
        if interval.None? {
          return;
        }
        timeInterval := Min(interval.value, MAX_INTERVAL) % 0x1_0000_0000;
        var limit := IntValue(file.alertsLimit);
        if limit.None? {
          return;
        }
        alertsLimit := CastU8(Min(limit.value, MAX_ALERTS_LIMIT));
      }
    }

    method SaveConfig(r: SaveResult)
      modifies this`file
      ensures Abstract() == State(old(Abstract()).live, FileAfter(old(file), old(Abstract()).live, r))
    {
      match r
      case NotOpened =>
      case Written => file := Saved(Settings(retryEnable, retryCount, timeInterval, alertsLimit));
      case BrokenOff => file := Unparsable;
    }

    method PutRetryEnable(newVal: bool, r: SaveResult)
      modifies this
      ensures Abstract() == Next(old(Abstract()), SetRetryEnable(newVal, r))
    {
      retryEnable := newVal;
      SaveConfig(r);
    }

    method PutRetryCount(newVal: uint8, r: SaveResult) returns (error: Option<Error>)
      modifies this
      ensures Abstract() == Next(old(Abstract()), SetRetryCount(newVal, r))
      ensures error
              == if !old(retryEnable) then Some(NotPermitted)
                 else if newVal > MAX_RETRY then Some(InvalidValue)
                 else None
    {
      if !retryEnable {
        return Some(NotPermitted);
      }
      if newVal > MAX_RETRY {
        return Some(InvalidValue);
      }
      retryCount := newVal;
      SaveConfig(r);
      return None;
    }

    method PutTimeInterval(newVal: uint32, r: SaveResult) returns (error: Option<Error>)
      modifies this
      ensures Abstract() == Next(old(Abstract()), SetTimeInterval(newVal, r))
      ensures error
              == if !old(retryEnable) then Some(NotPermitted)
                 else if newVal > MAX_INTERVAL then Some(InvalidValue)
                 else None
    {
      if !retryEnable {
        return Some(NotPermitted);
      }
      if newVal > MAX_INTERVAL {
        return Some(InvalidValue);
      }
      timeInterval := newVal;
      SaveConfig(r);
      return None;
    }

    method PutAlertsLimit(newVal: uint8, r: SaveResult) returns (error: Option<Error>)
      modifies this
      ensures Abstract() == Next(old(Abstract()), SetAlertsLimit(newVal, r))
      ensures error
              == if !old(retryEnable) then Some(NotPermitted)
                 else if newVal > MAX_ALERTS_LIMIT then Some(InvalidValue)
                 else None
    {
      if !retryEnable {
        return Some(NotPermitted);
      }
      if newVal > MAX_ALERTS_LIMIT {
        return Some(InvalidValue);
      }
      alertsLimit := newVal;
      SaveConfig(r);
      return None;
    }
  }

  // ---- what every run keeps

  predicate Bounded(s: Settings) {
    s.retryCount <= MAX_RETRY && s.timeInterval <= MAX_INTERVAL && s.alertsLimit <= MAX_ALERTS_LIMIT
  }

  /** A member loaded into a byte ends up in bounds: clamping is from above only, so a negative
      number stays in bounds only when its low byte happens to be small. */
  predicate ByteFits(f: Field, bound: nat) {
    f.Number? ==> ToInt32(f.n) >= 0 || ToInt32(f.n) % 0x100 <= bound
  }

  /** A member loaded into 32 bits ends up in bounds. */
  predicate IntervalFits(f: Field) {
    f.Number? ==> ToInt32(f.n) >= 0
  }

  /** The members of the file that are loaded end up in bounds; those after the first that
      cannot be converted do not matter. */
  predicate FileFits(f: File) {
    f.Parsed? && BoolValue(f.retryEnable).Some? && IntValue(f.retryCount).Some? ==>
      && ByteFits(f.retryCount, MAX_RETRY)
      && (IntValue(f.timeInterval).Some? ==>
            && IntervalFits(f.timeInterval)
            && (IntValue(f.alertsLimit).Some? ==> ByteFits(f.alertsLimit, MAX_ALERTS_LIMIT)))
  }

  /** A saved file loads back to the settings that were saved. */
  lemma {:induction false} SaveThenLoad(s: Settings)
    requires Bounded(s)
    ensures Load(Saved(s)) == s
  {
    assert ToInt32(s.retryCount) == s.retryCount && ToInt32(s.alertsLimit) == s.alertsLimit;
    assert ToInt32(s.timeInterval) == s.timeInterval;
  }

  lemma {:induction false} ByteBounded(n: int, bound: nat)
    requires bound < 0x100
    ensures CastU8(Min(ToInt32(n), bound)) <= bound <==> ByteFits(Number(n), bound)
  {
  }

  /** Loading gives limits in bounds exactly when the file's members fit. */
  lemma {:induction false} LoadBounded(f: File)
    ensures Bounded(Load(f)) <==> FileFits(f)
  {
    if f.Parsed? {
      if f.retryCount.Number? {
        ByteBounded(f.retryCount.n, MAX_RETRY);
      }
      if f.alertsLimit.Number? {
        ByteBounded(f.alertsLimit.n, MAX_ALERTS_LIMIT);
      }
    }
  }

  function Run(st: State, ops: seq<Operation>): State
    decreases |ops|
  {
    if ops == [] then st else Next(Run(st, ops[..|ops| - 1]), ops[|ops| - 1])
  }

  lemma {:induction false} StepBounded(st: State, op: Operation)
    requires Bounded(st.live) && Bounded(Load(st.file))
    ensures Bounded(Next(st, op).live) && Bounded(Load(Next(st, op).file))
  {
    if !op.Restart? && Change(st.live, op).Some? {
      SaveThenLoad(Change(st.live, op).value);
    }
  }

  lemma {:induction false} RunStaysBounded(f: File, ops: seq<Operation>)
    requires Bounded(Load(f))
    ensures var st := Run(State(Load(f), f), ops);
            Bounded(st.live) && Bounded(Load(st.file))
    decreases |ops|
  {
    if ops != [] {
      RunStaysBounded(f, ops[..|ops| - 1]);
      StepBounded(Run(State(Load(f), f), ops[..|ops| - 1]), ops[|ops| - 1]);
    }
  }

  /** The three limits hold in every run of writes, saves and restarts exactly when the file
      the process starts from fits. */
  lemma {:induction false} RunBounded(f: File)
    ensures (forall ops: seq<Operation> :: Bounded(Run(State(Load(f), f), ops).live)) <==> FileFits(f)
  {
    LoadBounded(f);
    if FileFits(f) {
      forall ops: seq<Operation>
        ensures Bounded(Run(State(Load(f), f), ops).live)
      {
        RunStaysBounded(f, ops);
      }
    } else {
      assert !Bounded(Run(State(Load(f), f), []).live);
    }
  }

  /** The conversion wraps into the 32-bit range. */
  lemma {:induction false} ToInt32Meaning(n: int)
    ensures -0x8000_0000 <= ToInt32(n) < 0x8000_0000
    ensures (n - ToInt32(n)) % 0x1_0000_0000 == 0
  {
  }

  /** Members that are a flag and three numbers of the 32-bit range from 0 up load as they are,
      up to 10, 3600 and 100. */
  lemma {:induction false} LoadedValues(b: bool, count: nat, interval: nat, limit: nat)
    requires count < 0x8000_0000 && interval < 0x8000_0000 && limit < 0x8000_0000
    ensures Load(Parsed(Flag(b), Number(count), Number(interval), Number(limit)))
            == Settings(b, if count <= 10 then count else 10, if interval <= 3600 then interval else 3600,
                        if limit <= 100 then limit else 100)
  {
    assert ToInt32(count) == count && ToInt32(interval) == interval && ToInt32(limit) == limit;
  }

  /** What each setter leaves: its own field with the new value when retry is enabled and the
      value within 10, 3600 or 100, and nothing changed otherwise; the flag always. */
  lemma {:induction false} SetterStores(st: State, op: Operation)
    requires !op.Restart?
    ensures var before, now := st.live, Next(st, op).live;
            match op
            case SetRetryEnable(b, _) =>
              && now.retryEnable == b
              && now.retryCount == before.retryCount && now.timeInterval == before.timeInterval
              && now.alertsLimit == before.alertsLimit
            case SetRetryCount(n, _) =>
              && now.retryCount == (if before.retryEnable && n <= 10 then n else before.retryCount)
              && now.retryEnable == before.retryEnable && now.timeInterval == before.timeInterval
              && now.alertsLimit == before.alertsLimit
            case SetTimeInterval(t, _) =>
              && now.timeInterval == (if before.retryEnable && t <= 3600 then t else before.timeInterval)
              && now.retryEnable == before.retryEnable && now.retryCount == before.retryCount
              && now.alertsLimit == before.alertsLimit
            case SetAlertsLimit(n, _) =>
              && now.alertsLimit == (if before.retryEnable && n <= 100 then n else before.alertsLimit)
              && now.retryEnable == before.retryEnable && now.retryCount == before.retryCount
              && now.timeInterval == before.timeInterval
  {
  }

  /** A limit changes only while retry is enabled, or by a restart; a setter that succeeds and
      is written leaves a file that loads back to the live settings. */
  lemma {:induction false} StepEffect(st: State, op: Operation)
    requires Bounded(st.live) && !op.Restart?
    ensures var now := Next(st, op);
            && (!st.live.retryEnable ==> now.live == st.live.(retryEnable := now.live.retryEnable))
            && (Change(st.live, op).Some? && op.r.Written? ==> Load(now.file) == now.live)
  {
    var changed := Change(st.live, op);
    if changed.Some? {
      SaveThenLoad(changed.value);
    }
  }
}
