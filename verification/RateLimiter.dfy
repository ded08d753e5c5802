/** The lock-based send limiter: one call on its own, and any number of threads interleaved. */
module RateLimiter {
  import opened Outcomes

  /** `_min_email_interval`, in seconds. */
  const INTERVAL := 0.6

  /** The sleep asked for when the clock shows `current` and the last send was at `last`. */
  function SleepFor(last: real, current: real): real {
    if current - last < INTERVAL then INTERVAL - (current - last) else 0.0
  }

  // ----- One call -----

  class Limiter {
    var lastSendTime: real

    constructor ()
      ensures lastSendTime == 0.0
    {
      lastSendTime := 0.0;
    }

    /** `current` and `stamp` are the two clock readings; when the clock has advanced by what the call asked to sleep,
        the timestamps are one interval apart. */
    method WaitForRateLimit(current: real, stamp: real) returns (asked: real)
      modifies this
      ensures lastSendTime == stamp && asked == SleepFor(old(lastSendTime), current)
      ensures current - old(lastSendTime) < 0.6 ==> asked == 0.6 - (current - old(lastSendTime))
      ensures current - old(lastSendTime) >= 0.6 ==> asked == 0.0
      ensures asked <= stamp - current ==> old(lastSendTime) + INTERVAL <= lastSendTime
      ensures asked <= INTERVAL <==> old(lastSendTime) <= current
    {
      var elapsed := current - lastSendTime;
      asked := 0.0;
      if elapsed < INTERVAL {
        asked := INTERVAL - elapsed;
      }
      lastSendTime := stamp;
    }
  }

  // ----- Any number of threads -----

  /** Where a thread is in `_wait_for_rate_limit`. */
  datatype Pc =
    | Idle                                     // outside
    | Waiting                                  // blocked on the lock
    | Entered                                  // holds the lock
    | HasRead(current: real)                   // has read the clock
    | Sleeping(current: real, until: real)     // in `time.sleep`
    | Awake(current: real)                     // about to read the clock again
    | HasStamp(current: real, stamp: real)     // about to write the timestamp
    | Leaving                                  // about to release the lock

  type Thread = nat

  /** Sleeping takes elapsed time; `time.time()` reads a clock that can also be set. The last fields are history. */
  datatype State = State(
    elapsed: real,
    clock: real,
    last: real,                  // `_last_email_send_time`
    holder: Option<Thread>,      // `_email_rate_limit_lock`
    pc: map<Thread, Pc>,
    grants: seq<real>,           // every value written to `last`, in order
    sleeps: seq<real>,           // every sleep asked for
    moments: seq<real>,          // the elapsed time of every second clock reading
    shown: real,                 // what the clock showed at the latest of them
    releases: seq<real>)         // the elapsed time of every release of the lock

  datatype Action =
    | Tick(dt: real)             // time passes
    | Adjust(shift: real)        // the clock is set
    | Call(t: Thread) | Acquire(t: Thread) | ReadClock(t: Thread) | Check(t: Thread)
    | Wake(t: Thread) | ReadStamp(t: Thread) | Write(t: Thread) | Release(t: Thread)

  /** The state after some time. */
  function Later(s: State, wait: real): State {
    s.(elapsed := s.elapsed + wait, clock := s.clock + wait)
  }

  /** The state with thread `t` at `pc`. */
  function Move(s: State, t: Thread, pc: Pc): State {
    s.(pc := s.pc[t := pc])
  }

  /** The check of the first reading: sleep for what is missing to an interval. */
  function CheckTime(s: State, t: Thread, current: real): State {
    if current - s.last < INTERVAL then
      var asked := INTERVAL - (current - s.last);
      Move(s, t, Sleeping(current, s.elapsed + asked)).(sleeps := s.sleeps + [asked])
    else Move(s, t, Awake(current))
  }

  /** The state after an action, or nothing when the action is not enabled. */
  function Step(s: State, a: Action): Option<State> {
    match a
    case Tick(dt) => if dt >= 0.0 then Some(Later(s, dt)) else None
    case Adjust(shift) => Some(s.(clock := s.clock + shift))
    case Call(t) => if t in s.pc && s.pc[t].Idle? then Some(Move(s, t, Waiting)) else None
    case Acquire(t) =>
      if t in s.pc && s.pc[t].Waiting? && s.holder == None then Some(Move(s, t, Entered).(holder := Some(t))) else None
    case ReadClock(t) => if t in s.pc && s.pc[t].Entered? then Some(Move(s, t, HasRead(s.clock))) else None
    case Check(t) => if t in s.pc && s.pc[t].HasRead? then Some(CheckTime(s, t, s.pc[t].current)) else None
    case Wake(t) =>
      if t in s.pc && s.pc[t].Sleeping? && s.pc[t].until <= s.elapsed then Some(Move(s, t, Awake(s.pc[t].current)))
      else None
    case ReadStamp(t) =>
      if t in s.pc && s.pc[t].Awake? then
        Some(Move(s, t, HasStamp(s.pc[t].current, s.clock)).(moments := s.moments + [s.elapsed], shown := s.clock))
      else None
    case Write(t) =>
      if t in s.pc && s.pc[t].HasStamp? then
        Some(Move(s, t, Leaving).(last := s.pc[t].stamp, grants := s.grants + [s.pc[t].stamp]))
      else None
    case Release(t) =>
      if t in s.pc && s.pc[t].Leaving? then
        Some(Move(s, t, Idle).(holder := None, releases := s.releases + [s.elapsed]))
      else None
  }

  /** One step of the program: take the lock, read the clock, sleep or not, read it again, write, give the lock back. */
  predicate Follows(p: Pc, q: Pc) {
    match p
    case Idle => q.Waiting?
    case Waiting => q.Entered?
    case Entered => q.HasRead?
    case HasRead(current) => q == Awake(current) || (q.Sleeping? && q.current == current)
    case Sleeping(current, _) => q == Awake(current)
    case Awake(current) => q.HasStamp? && q.current == current
    case HasStamp(_, _) => q.Leaving?
    case Leaving => q.Idle?
  }

  /** Every action moves at most one thread, along its program; only a waiting thread takes the lock, while it is free,
      and only the thread that leaves gives it back. */
  lemma ProgramOrder(s: State, a: Action)
    requires Step(s, a).Some?
    ensures var s' := Step(s, a).value;
      && s'.pc.Keys == s.pc.Keys
      && (forall t <- s.pc :: s'.pc[t] == s.pc[t] || Follows(s.pc[t], s'.pc[t]))
      && (forall t, u :: t in s.pc && u in s.pc && t != u ==> s'.pc[t] == s.pc[t] || s'.pc[u] == s.pc[u])
      && (s'.holder == s.holder
          || (s.holder == None && s'.holder.Some? && s'.holder.value in s.pc && s.pc[s'.holder.value] == Waiting)
          || (s'.holder == None && exists t <- s.pc :: s.pc[t] == Leaving && s'.pc[t] == Idle))
  {
  }

  function Run(s: State, actions: seq<Action>): Option<State>
    decreases |actions|
  {
    if actions == [] then Some(s)
    else
      match Step(s, actions[0])
      case Some(s') => Run(s', actions[1..])
      case None => None
  }

  predicate Initial(s: State) {
    && s.last == s.shown == 0.0 && s.holder == None
    && s.grants == [] && s.sleeps == [] && s.moments == [] && s.releases == []
    && forall t <- s.pc :: s.pc[t] == Idle
  }

  /** Any later time is at least one interval after any earlier one. */
  predicate Spaced(times: seq<real>) {
    forall i, j :: 0 <= i < j < |times| ==> times[i] + INTERVAL <= times[j]
  }

  lemma SpacedAppend(times: seq<real>, time: real)
    requires Spaced(times) && (times != [] ==> times[|times| - 1] + INTERVAL <= time)
    ensures Spaced(times + [time])
  {
    var n := |times|;
    forall i | 0 <= i < n ensures times[i] + INTERVAL <= time {
      assert i == n - 1 || times[i] + INTERVAL <= times[n - 1];
    }
  }

  predicate Critical(pc: Pc) {
    !pc.Idle? && !pc.Waiting?
  }

  /** At most one thread is inside, and it is the one that holds the lock. */
  predicate Exclusive(s: State) {
    && (forall t <- s.pc :: Critical(s.pc[t]) ==> s.holder == Some(t))
    && (s.holder.Some? ==> s.holder.value in s.pc && Critical(s.pc[s.holder.value]))
  }

  lemma StepKeepsExclusive(s: State, a: Action)
    requires Exclusive(s) && Step(s, a).Some?
    ensures Exclusive(Step(s, a).value)
  {
  }

  // ----- Every run is a sequence of calls -----

  /** The two clock readings of a call. */
  datatype Reading = Reading(current: real, stamp: real)

  function Stamps(calls: seq<Reading>): seq<real> {
    if calls == [] then [] else Stamps(calls[..|calls| - 1]) + [calls[|calls| - 1].stamp]
  }

  /** The last timestamp after some calls. */
  function LastStamp(calls: seq<Reading>): real {
    if calls == [] then 0.0 else calls[|calls| - 1].stamp
  }

  function Asked(last: real, current: real): seq<real> {
    if SleepFor(last, current) > 0.0 then [SleepFor(last, current)] else []
  }

  /** What the calls, made one after the other, ask to sleep. */
  function AllAsked(calls: seq<Reading>): seq<real> {
    if calls == [] then []
    else
      var before := calls[..|calls| - 1];
      AllAsked(before) + Asked(LastStamp(before), calls[|calls| - 1].current)
  }

  /** The reading of the thread inside, once it has decided whether to sleep. */
  function Pending(s: State): Option<real> {
    if s.holder.Some? && s.holder.value in s.pc then
      match s.pc[s.holder.value]
      case Sleeping(current, _) => Some(current)
      case Awake(current) => Some(current)
      case HasStamp(current, _) => Some(current)
      case _ => None
    else None
  }

  function PendingAsked(s: State): seq<real> {
    if Pending(s).Some? then Asked(s.last, Pending(s).value) else []
  }

  /** The calls completed in a run, in the order of their writes. */
  function Calls(s: State, actions: seq<Action>): seq<Reading>
    decreases |actions|
  {
    if actions == [] || Step(s, actions[0]).None? then []
    else Written(s, actions[0]) + Calls(Step(s, actions[0]).value, actions[1..])
  }

  function Written(s: State, a: Action): seq<Reading>
    requires Step(s, a).Some?
  {
    if a.Write? then [Reading(s.pc[a.t].current, s.pc[a.t].stamp)] else []
  }

  /** The state is what the given calls, made one after the other, would leave. */
  predicate Records(s: State, calls: seq<Reading>) {
    && s.grants == Stamps(calls) && s.last == LastStamp(calls)
    && s.sleeps == AllAsked(calls) + PendingAsked(s)
  }

  lemma CallsAppend(calls: seq<Reading>, call: Reading)
    ensures Stamps(calls + [call]) == Stamps(calls) + [call.stamp]
    ensures LastStamp(calls + [call]) == call.stamp
    ensures AllAsked(calls + [call]) == AllAsked(calls) + Asked(LastStamp(calls), call.current)
  {
    assert (calls + [call])[..|calls|] == calls;
  }

  /** A thread that is not inside leaves what is pending alone; the thread inside is the holder. */
  lemma StepPending(s: State, a: Action)
    requires Exclusive(s) && Step(s, a).Some?
    ensures var s' := Step(s, a).value;
      && (a.Check? ==> Pending(s) == None && Pending(s') == Some(s.pc[a.t].current))
      && (a.Write? ==> Pending(s) == Some(s.pc[a.t].current) && Pending(s') == None)
      && (!a.Check? && !a.Write? ==> Pending(s') == Pending(s))
  {
  }

  /** A step asks for a sleep when it decides to, and a write moves what was pending to the completed calls. */
  lemma StepAsks(s: State, a: Action)
    requires Exclusive(s) && Step(s, a).Some?
    ensures var s' := Step(s, a).value;
      if a.Write? then
        && s'.sleeps == s.sleeps && PendingAsked(s') == []
        && PendingAsked(s) == Asked(s.last, s.pc[a.t].current)
      else
        && s'.last == s.last
        && exists asked :: s'.sleeps == s.sleeps + asked && PendingAsked(s') == PendingAsked(s) + asked
  {
    StepPending(s, a);
    var s' := Step(s, a).value;
    var asked := if a.Check? then PendingAsked(s') else [];
    if a.Check? {
      assert PendingAsked(s) == [] && [] + asked == asked;
    } else {
      assert s.sleeps + [] == s.sleeps && PendingAsked(s) + [] == PendingAsked(s);
    }
    assert a.Write? || (s'.sleeps == s.sleeps + asked && PendingAsked(s') == PendingAsked(s) + asked);
  }

  lemma SameRecords(s: State, s': State, calls: seq<Reading>, asked: seq<real>)
    requires Records(s, calls) && s'.grants == s.grants && s'.last == s.last
    requires s'.sleeps == s.sleeps + asked && PendingAsked(s') == PendingAsked(s) + asked
    ensures Records(s', calls)
  {
    assert AllAsked(calls) + PendingAsked(s) + asked == AllAsked(calls) + (PendingAsked(s) + asked);
  }

  lemma MoreRecords(s: State, s': State, calls: seq<Reading>, call: Reading)
    requires Records(s, calls) && s'.grants == s.grants + [call.stamp] && s'.last == call.stamp
    requires s'.sleeps == s.sleeps && PendingAsked(s) == Asked(s.last, call.current) && PendingAsked(s') == []
    ensures Records(s', calls + [call])
  {
    CallsAppend(calls, call);
    assert s'.sleeps + [] == s'.sleeps;
  }

  lemma StepRecords(s: State, a: Action, calls: seq<Reading>)
    requires Exclusive(s) && Records(s, calls) && Step(s, a).Some?
    ensures Records(Step(s, a).value, calls + Written(s, a))
  {
    StepAsks(s, a);
    var s' := Step(s, a).value;
    if a.Write? {
      MoreRecords(s, s', calls, Reading(s.pc[a.t].current, s.pc[a.t].stamp));
    } else {
      var asked :| s'.sleeps == s.sleeps + asked && PendingAsked(s') == PendingAsked(s) + asked;
      SameRecords(s, s', calls, asked);
      assert calls + [] == calls;
    }
  }

  lemma CallsCons(s: State, actions: seq<Action>, calls: seq<Reading>)
    requires actions != [] && Step(s, actions[0]).Some?
    ensures calls + Calls(s, actions) == calls + Written(s, actions[0]) + Calls(Step(s, actions[0]).value, actions[1..])
  {
  }

  lemma {:induction false} RunRecords(s: State, actions: seq<Action>, calls: seq<Reading>)
    requires Exclusive(s) && Records(s, calls) && Run(s, actions).Some?
    ensures Exclusive(Run(s, actions).value) && Records(Run(s, actions).value, calls + Calls(s, actions))
    decreases |actions|
  {
    if actions == [] {
      assert calls + [] == calls;
    } else {
      var s', rest, more := Step(s, actions[0]).value, actions[1..], calls + Written(s, actions[0]);
      StepKeepsExclusive(s, actions[0]);
      StepRecords(s, actions[0], calls);
      RunRecords(s', rest, more);
      CallsCons(s, actions, calls);
      assert Run(s, actions) == Run(s', rest);
    }
  }

  /** Whatever the interleaving and the clock, a run leaves the timestamps and the sleeps of its calls made one after
      the other, and what the call under way has asked for. */
  lemma RunIsCalls(s: State, actions: seq<Action>)
    requires Initial(s) && Run(s, actions).Some?
    ensures Records(Run(s, actions).value, Calls(s, actions))
  {
    RunRecords(s, actions, []);
    assert [] + Calls(s, actions) == Calls(s, actions);
  }

  // ----- The sleeps -----

  predicate Within(sleeps: seq<real>) {
    forall asked <- sleeps :: asked <= INTERVAL
  }

  /** No call reads a time before the timestamp of the call before it. */
  predicate NoneEarly(calls: seq<Reading>) {
    calls != [] ==>
      var before := calls[..|calls| - 1]; NoneEarly(before) && LastStamp(before) <= calls[|calls| - 1].current
  }

  lemma AskedOne(last: real, current: real)
    ensures Within(Asked(last, current)) <==> last <= current
  {
    if SleepFor(last, current) > 0.0 {
      assert SleepFor(last, current) in Asked(last, current);
    }
  }

  lemma WithinConcat(a: seq<real>, b: seq<real>)
    ensures Within(a + b) <==> Within(a) && Within(b)
  {
    assert forall x :: x in a + b <==> x in a || x in b;
  }

  lemma {:induction false} AskedWithin(calls: seq<Reading>)
    ensures Within(AllAsked(calls)) <==> NoneEarly(calls)
  {
    if calls != [] {
      var before, current := calls[..|calls| - 1], calls[|calls| - 1].current;
      AskedWithin(before);
      AskedOne(LastStamp(before), current);
      WithinConcat(AllAsked(before), Asked(LastStamp(before), current));
    }
  }

  /** No sleep exceeds the interval exactly when no call reads a time before the last timestamp. */
  lemma SleepsExactly(s: State, actions: seq<Action>)
    requires Initial(s) && Run(s, actions).Some?
    ensures var s' := Run(s, actions).value;
      Within(s'.sleeps)
      <==> NoneEarly(Calls(s, actions)) && (Pending(s').Some? ==> s'.last <= Pending(s').value)
  {
    var s' := Run(s, actions).value;
    RunIsCalls(s, actions);
    AskedWithin(Calls(s, actions));
    WithinConcat(AllAsked(Calls(s, actions)), PendingAsked(s'));
    if Pending(s').Some? {
      AskedOne(s'.last, Pending(s').value);
    }
  }

  // ----- The way to the second reading -----

  /** The thread has read the clock once and will read it again. */
  predicate Between(pc: Pc) {
    pc.HasRead? || pc.Sleeping? || pc.Awake?
  }

  predicate Quiet(s: State) {
    forall t <- s.pc :: !Between(s.pc[t])
  }

  /** How long a thread between its readings still has to sleep. */
  function Wait(s: State, pc: Pc): real {
    match pc
    case HasRead(current) => SleepFor(s.last, current)
    case Sleeping(_, until) => if s.elapsed < until then until - s.elapsed else 0.0
    case _ => 0.0
  }

  /** The clock is not set. */
  predicate Untouched(actions: seq<Action>) {
    forall a <- actions :: !a.Adjust?
  }

  /** The clock is never set back. */
  predicate Forward(actions: seq<Action>) {
    forall a <- actions :: a.Adjust? ==> a.shift >= 0.0
  }

  /** The clock is never set forward. */
  predicate Backward(actions: seq<Action>) {
    forall a <- actions :: a.Adjust? ==> a.shift <= 0.0
  }

  lemma RunCons(s: State, a: Action, rest: seq<Action>)
    ensures Run(s, [a] + rest) == if Step(s, a).Some? then Run(Step(s, a).value, rest) else None
  {
    assert ([a] + rest)[1..] == rest;
  }

  lemma TwoSteps(s: State, s1: State, s2: State, a: Action, b: Action)
    requires Step(s, a) == Some(s1) && Step(s1, b) == Some(s2)
    ensures Run(s, [a, b]) == Some(s2)
  {
    RunCons(s1, b, []);
    RunCons(s, a, [b]);
    assert [b] + [] == [b] && [a] + [b] == [a, b];
  }

  lemma {:induction false} RunConcat(s: State, a: seq<Action>, b: seq<Action>)
    ensures Run(s, a + b) == if Run(s, a).Some? then Run(Run(s, a).value, b) else None
    decreases |a|
  {
    if a == [] {
      assert a + b == b;
    } else {
      assert (a + b)[1..] == a[1..] + b;
      if Step(s, a[0]).Some? {
        RunConcat(Step(s, a[0]).value, a[1..], b);
      }
    }
  }

  function ToStamp(s: State, t: Thread): seq<Action>
    requires t in s.pc && Between(s.pc[t])
  {
    match s.pc[t]
    case HasRead(current) =>
      var asked := SleepFor(s.last, current);
      if asked > 0.0 then [Check(t), Tick(asked), Wake(t)] else [Check(t)]
    case Sleeping(_, _) => [Tick(Wait(s, s.pc[t])), Wake(t)]
    case _ => []
  }

  /** After `wait` nothing has happened but that `t` is about to read the clock again. */
  predicate ReadyAfter(s: State, s': State, t: Thread, wait: real) {
    && t in s'.pc && s'.pc[t].Awake? && s'.elapsed == s.elapsed + wait && s'.clock == s.clock + wait
    && s'.last == s.last && s'.grants == s.grants && s'.moments == s.moments
  }

  lemma WakeStep(s: State, t: Thread, current: real, until: real)
    requires t in s.pc && s.pc[t] == Sleeping(current, until) && until <= s.elapsed
    ensures Step(s, Wake(t)) == Some(Move(s, t, Awake(current)))
  {
  }

  lemma SleepRuns(s: State, t: Thread, current: real, until: real, wait: real)
    requires t in s.pc && s.pc[t] == Sleeping(current, until) && wait >= 0.0 && until <= s.elapsed + wait
    ensures Run(s, [Tick(wait), Wake(t)]) == Some(Move(Later(s, wait), t, Awake(current)))
  {
    WakeStep(Later(s, wait), t, current, until);
    TwoSteps(s, Later(s, wait), Move(Later(s, wait), t, Awake(current)), Tick(wait), Wake(t));
  }

  lemma CheckRuns(s: State, t: Thread, current: real)
    requires t in s.pc && s.pc[t] == HasRead(current) && SleepFor(s.last, current) > 0.0
    ensures var asked := SleepFor(s.last, current);
      Run(s, [Check(t), Tick(asked), Wake(t)]) == Some(Move(Later(CheckTime(s, t, current), asked), t, Awake(current)))
  {
    var asked := SleepFor(s.last, current);
    SleepRuns(CheckTime(s, t, current), t, current, s.elapsed + asked, asked);
    RunCons(s, Check(t), [Tick(asked), Wake(t)]);
    assert [Check(t)] + [Tick(asked), Wake(t)] == [Check(t), Tick(asked), Wake(t)];
  }

  lemma ToStampRuns(s: State, t: Thread)
    requires t in s.pc && Between(s.pc[t])
    ensures Untouched(ToStamp(s, t))
    ensures Run(s, ToStamp(s, t)).Some? && ReadyAfter(s, Run(s, ToStamp(s, t)).value, t, Wait(s, s.pc[t]))
  {
    match s.pc[t]
    case HasRead(current) =>
      if SleepFor(s.last, current) > 0.0 {
        CheckRuns(s, t, current);
      } else {
        RunCons(s, Check(t), []);
        assert [Check(t)] + [] == ToStamp(s, t);
      }
    case Sleeping(current, until) => SleepRuns(s, t, current, until, Wait(s, s.pc[t]));
    case _ =>
  }

  // ----- The written timestamps -----

  /** The timestamp that the thread will write, or holds, is an interval after the last one written. */
  predicate Timed(s: State, pc: Pc) {
    && (Between(pc) ==> s.last + INTERVAL <= s.clock + Wait(s, pc))
    && (pc.HasStamp? ==> s.last + INTERVAL <= pc.stamp)
  }

  predicate Apart(s: State) {
    && Exclusive(s)
    && (forall t <- s.pc :: Timed(s, s.pc[t]))
    && Spaced(s.grants)
    && (s.grants != [] ==> s.grants[|s.grants| - 1] == s.last)
  }

  /** A setting of the clock leaves enough time to the thread between its readings. */
  predicate LeavesTime(s: State, shift: real) {
    forall t <- s.pc :: Between(s.pc[t]) ==> s.last + INTERVAL <= s.clock + shift + Wait(s, s.pc[t])
  }

  lemma StepKeepsTimed(s: State, a: Action)
    requires Apart(s) && Step(s, a).Some? && (a.Adjust? ==> LeavesTime(s, a.shift))
    ensures forall t <- Step(s, a).value.pc :: Timed(Step(s, a).value, Step(s, a).value.pc[t])
  {
  }

  lemma StepKeepsApart(s: State, a: Action)
    requires Apart(s) && Step(s, a).Some? && (a.Adjust? ==> LeavesTime(s, a.shift))
    ensures Apart(Step(s, a).value)
  {
    StepKeepsExclusive(s, a);
    StepKeepsTimed(s, a);
    if a.Write? {
      assert Timed(s, s.pc[a.t]);
      SpacedAppend(s.grants, s.pc[a.t].stamp);
    }
  }

  lemma ForwardLeavesTime(s: State, shift: real)
    requires Apart(s) && shift >= 0.0
    ensures LeavesTime(s, shift)
  {
    forall t | t in s.pc && Between(s.pc[t]) ensures s.last + INTERVAL <= s.clock + shift + Wait(s, s.pc[t]) {
      assert Timed(s, s.pc[t]);
    }
  }

  /** With a clock that is never set back every interleaving keeps mutual exclusion and the written timestamps an
      interval apart. */
  lemma {:induction false} RunKeepsApart(s: State, actions: seq<Action>)
    requires Apart(s) && Forward(actions) && Run(s, actions).Some?
    ensures Apart(Run(s, actions).value)
    decreases |actions|
  {
    if actions != [] {
      assert actions[0] in actions;
      if actions[0].Adjust? {
        ForwardLeavesTime(s, actions[0].shift);
      }
      StepKeepsApart(s, actions[0]);
      RunKeepsApart(Step(s, actions[0]).value, actions[1..]);
    }
  }

  /** A second reading before the clock has come far enough, written at once. */
  lemma StampEarly(s: State, t: Thread)
    requires t in s.pc && s.pc[t].Awake? && s.clock < s.last + INTERVAL
    requires s.grants != [] && s.grants[|s.grants| - 1] == s.last
    ensures var s' := Run(s, [ReadStamp(t), Write(t)]); s'.Some? && !Spaced(s'.value.grants)
  {
    var s1 := Step(s, ReadStamp(t)).value;
    var s2 := Step(s1, Write(t)).value;
    TwoSteps(s, s1, s2, ReadStamp(t), Write(t));
    var n := |s.grants|;
    assert s2.grants[n - 1] == s.last && s2.grants[n] == s.clock;
  }

  /** A thread that is left too little time writes a timestamp too early. */
  lemma TooLittleTime(s: State, t: Thread) returns (actions: seq<Action>)
    requires t in s.pc && Between(s.pc[t]) && s.clock + Wait(s, s.pc[t]) < s.last + INTERVAL
    requires s.grants != [] && s.grants[|s.grants| - 1] == s.last
    ensures Untouched(actions) && Run(s, actions).Some? && !Spaced(Run(s, actions).value.grants)
  {
    ToStampRuns(s, t);
    StampEarly(Run(s, ToStamp(s, t)).value, t);
    RunConcat(s, ToStamp(s, t), [ReadStamp(t), Write(t)]);
    actions := ToStamp(s, t) + [ReadStamp(t), Write(t)];
  }

  /** Whatever happens next without setting the clock back again, the written timestamps stay apart. */
  ghost predicate StaysApart(s: State) {
    forall actions | Forward(actions) && Run(s, actions).Some? :: Spaced(Run(s, actions).value.grants)
  }

  /** At any moment after the first grant: setting the clock leaves all later timestamps apart exactly when every thread
      between its readings still has to sleep for what is then missing to an interval. */
  lemma SettingExactly(s: State, shift: real)
    requires Apart(s) && s.grants != []
    ensures StaysApart(Step(s, Adjust(shift)).value) <==> LeavesTime(s, shift)
  {
    var s' := Step(s, Adjust(shift)).value;
    if LeavesTime(s, shift) {
      StepKeepsApart(s, Adjust(shift));
      forall actions | Forward(actions) && Run(s', actions).Some? ensures Spaced(Run(s', actions).value.grants) {
        RunKeepsApart(s', actions);
      }
    } else {
      var t :| t in s.pc && Between(s.pc[t]) && s.clock + shift + Wait(s, s.pc[t]) < s.last + INTERVAL;
      var actions := TooLittleTime(s', t);
      assert Forward(actions);
    }
  }

  // ----- Real time -----

  function LastMoment(s: State): real
    requires s.moments != []
  {
    s.moments[|s.moments| - 1]
  }

  /** The thread inside has read the clock again and has not written yet. */
  predicate Stamping(s: State) {
    s.holder.Some? && s.holder.value in s.pc && s.pc[s.holder.value].HasStamp?
  }

  /** What is written is what the clock showed at the latest second reading. */
  predicate Recorded(s: State) {
    && Exclusive(s)
    && (if Stamping(s) then s.pc[s.holder.value].stamp == s.shown else s.last == s.shown)
    && (s.moments != [] ==> s.pc != map[] && LastMoment(s) <= s.elapsed)
  }

  /** The thread will read the clock again no earlier than an interval after the latest second reading. */
  predicate OnTime(s: State, pc: Pc) {
    Between(pc) && s.moments != [] ==> LastMoment(s) + INTERVAL <= s.elapsed + Wait(s, pc)
  }

  predicate Inv(s: State) {
    Recorded(s) && Spaced(s.moments) && forall t <- s.pc :: OnTime(s, s.pc[t])
  }

  /** By how much the clock has been set forward, on balance, since the latest second reading. */
  function Ahead(s: State): real
    requires s.moments != []
  {
    (s.clock - s.shown) - (s.elapsed - LastMoment(s))
  }

  /** The clock is not ahead, or that does not matter: a thread has read it already, or the interval has passed. */
  predicate Safe(s: State) {
    s.moments == [] || !Quiet(s) || LastMoment(s) + INTERVAL <= s.elapsed || Ahead(s) <= 0.0
  }

  lemma StepKeepsRecorded(s: State, a: Action)
    requires Recorded(s) && Step(s, a).Some?
    ensures Recorded(Step(s, a).value)
  {
    StepKeepsExclusive(s, a);
  }

  lemma StepKeepsOnTime(s: State, a: Action, t: Thread)
    requires Inv(s) && Safe(s) && Step(s, a).Some? && t in Step(s, a).value.pc
    ensures OnTime(Step(s, a).value, Step(s, a).value.pc[t])
  {
    assert t in s.pc && OnTime(s, s.pc[t]);
    if a.ReadClock? && a.t == t {
      assert s.holder == Some(t) && Quiet(s);
      assert s.last == s.shown;
    }
  }

  lemma StepKeepsInv(s: State, a: Action)
    requires Inv(s) && Safe(s) && Step(s, a).Some?
    ensures Inv(Step(s, a).value)
  {
    StepKeepsRecorded(s, a);
    forall t | t in Step(s, a).value.pc ensures OnTime(Step(s, a).value, Step(s, a).value.pc[t]) {
      StepKeepsOnTime(s, a, t);
    }
    if a.ReadStamp? {
      assert OnTime(s, s.pc[a.t]);
      SpacedAppend(s.moments, s.elapsed);
    }
  }

  /** Setting the clock by `shift` is harmless. */
  predicate Harmless(s: State, shift: real) {
    s.moments == [] || !Quiet(s) || LastMoment(s) + INTERVAL <= s.elapsed || Ahead(s) + shift <= 0.0
  }

  /** Only setting the clock can make a state unsafe. */
  lemma StepKeepsSafe(s: State, a: Action)
    requires Inv(s) && Safe(s) && Step(s, a).Some?
    ensures a.Adjust? ==> (Safe(Step(s, a).value) <==> Harmless(s, a.shift))
    ensures !a.Adjust? ==> Safe(Step(s, a).value)
  {
    var s' := Step(s, a).value;
    if a.Tick? || a.Adjust? {
      assert s'.pc == s.pc;
    } else if Quiet(s) {
      assert s'.moments == s.moments;
    } else if !a.ReadStamp? {
      var t :| t in s.pc && Between(s.pc[t]);
      assert t in s'.pc && Between(s'.pc[t]);
    } else {
      assert Ahead(s') == 0.0;
    }
  }

  /** Whatever happens next without setting the clock forward, the second readings stay an interval apart in real
      time. */
  ghost predicate StaysSpaced(s: State) {
    forall actions | Backward(actions) && Run(s, actions).Some? :: Spaced(Run(s, actions).value.moments)
  }

  lemma {:induction false} BackwardKeepsSafe(s: State, actions: seq<Action>)
    requires Inv(s) && Safe(s) && Backward(actions) && Run(s, actions).Some?
    ensures Inv(Run(s, actions).value) && Safe(Run(s, actions).value)
    decreases |actions|
  {
    if actions != [] {
      assert actions[0] in actions;
      StepKeepsInv(s, actions[0]);
      StepKeepsSafe(s, actions[0]);
      BackwardKeepsSafe(Step(s, actions[0]).value, actions[1..]);
    }
  }

  /** How a thread that is not kept waiting gets into the lock. */
  function ToEntered(t: Thread, pc: Pc): seq<Action> {
    match pc
    case Idle => [Call(t), Acquire(t)]
    case Waiting => [Acquire(t)]
    case HasStamp(_, _) => [Write(t), Release(t), Call(t), Acquire(t)]
    case Leaving => [Release(t), Call(t), Acquire(t)]
    case _ => []
  }

  /** Nothing has happened but that `t` has entered. */
  predicate EnteredNow(s: State, s': State, t: Thread) {
    && t in s'.pc && s'.pc[t].Entered? && s'.elapsed == s.elapsed && s'.clock == s.clock
    && s'.last == s.shown && s'.moments == s.moments && s'.shown == s.shown
  }

  lemma AcquireRuns(s: State, t: Thread)
    requires t in s.pc && s.pc[t].Waiting? && s.holder == None && s.last == s.shown
    ensures Run(s, [Acquire(t)]).Some? && EnteredNow(s, Run(s, [Acquire(t)]).value, t)
  {
    RunCons(s, Acquire(t), []);
    assert [Acquire(t)] + [] == [Acquire(t)];
  }

  lemma CallRuns(s: State, t: Thread)
    requires t in s.pc && s.pc[t].Idle? && s.holder == None && s.last == s.shown
    ensures Run(s, [Call(t), Acquire(t)]).Some? && EnteredNow(s, Run(s, [Call(t), Acquire(t)]).value, t)
  {
    RunCons(s, Call(t), [Acquire(t)]);
    AcquireRuns(Step(s, Call(t)).value, t);
    assert [Call(t)] + [Acquire(t)] == [Call(t), Acquire(t)];
  }

  lemma LeaveRuns(s: State, t: Thread)
    requires t in s.pc && s.pc[t].Leaving? && s.last == s.shown
    ensures var actions := [Release(t), Call(t), Acquire(t)];
      Run(s, actions).Some? && EnteredNow(s, Run(s, actions).value, t)
  {
    RunCons(s, Release(t), [Call(t), Acquire(t)]);
    CallRuns(Step(s, Release(t)).value, t);
    assert [Release(t)] + [Call(t), Acquire(t)] == [Release(t), Call(t), Acquire(t)];
  }

  lemma WriteRuns(s: State, t: Thread)
    requires t in s.pc && s.pc[t].HasStamp? && s.pc[t].stamp == s.shown
    ensures var actions := [Write(t), Release(t), Call(t), Acquire(t)];
      Run(s, actions).Some? && EnteredNow(s, Run(s, actions).value, t)
  {
    RunCons(s, Write(t), [Release(t), Call(t), Acquire(t)]);
    LeaveRuns(Step(s, Write(t)).value, t);
    assert [Write(t)] + [Release(t), Call(t), Acquire(t)] == [Write(t), Release(t), Call(t), Acquire(t)];
  }

  /** In a quiet state some thread can enter at once. */
  lemma SomeoneEnters(s: State) returns (t: Thread, actions: seq<Action>)
    requires Recorded(s) && Quiet(s) && s.pc != map[]
    ensures Untouched(actions) && Run(s, actions).Some? && EnteredNow(s, Run(s, actions).value, t)
  {
    if s.holder.Some? {
      t := s.holder.value;
    } else {
      t :| t in s.pc;
      assert !Critical(s.pc[t]);
    }
    actions := ToEntered(t, s.pc[t]);
    match s.pc[t]
    case Idle => CallRuns(s, t);
    case Waiting => AcquireRuns(s, t);
    case Entered =>
    case HasStamp(_, _) => WriteRuns(s, t);
    case Leaving => LeaveRuns(s, t);
  }

  /** A thread that need not wait long enough reads the clock again too early. */
  lemma ReadsEarly(s: State, t: Thread) returns (actions: seq<Action>)
    requires t in s.pc && Between(s.pc[t]) && s.moments != []
    requires s.elapsed + Wait(s, s.pc[t]) < LastMoment(s) + INTERVAL
    ensures Untouched(actions) && Run(s, actions).Some? && !Spaced(Run(s, actions).value.moments)
  {
    ToStampRuns(s, t);
    var s1 := Run(s, ToStamp(s, t)).value;
    var s2 := Step(s1, ReadStamp(t)).value;
    RunCons(s1, ReadStamp(t), []);
    assert [ReadStamp(t)] + [] == [ReadStamp(t)];
    RunConcat(s, ToStamp(s, t), [ReadStamp(t)]);
    actions := ToStamp(s, t) + [ReadStamp(t)];
    var n := |s.moments|;
    assert s2.moments[n - 1] == LastMoment(s) && s2.moments[n] == s1.elapsed;
  }

  /** In an unsafe state a thread that enters now reads the clock again too early. */
  lemma UnsafeHarms(s: State) returns (actions: seq<Action>)
    requires Inv(s) && !Safe(s)
    ensures Untouched(actions) && Run(s, actions).Some? && !Spaced(Run(s, actions).value.moments)
  {
    var t, toEntered := SomeoneEnters(s);
    var s1 := Run(s, toEntered).value;
    var s2 := Step(s1, ReadClock(t)).value;
    assert Wait(s2, s2.pc[t]) == SleepFor(s.shown, s.clock);
    var rest := ReadsEarly(s2, t);
    RunCons(s1, ReadClock(t), rest);
    RunConcat(s, toEntered, [ReadClock(t)] + rest);
    actions := toEntered + ([ReadClock(t)] + rest);
  }

  lemma SafeExactly(s: State)
    requires Inv(s)
    ensures StaysSpaced(s) <==> Safe(s)
  {
    if Safe(s) {
      forall actions | Backward(actions) && Run(s, actions).Some? ensures Spaced(Run(s, actions).value.moments) {
        BackwardKeepsSafe(s, actions);
      }
    } else {
      var actions := UnsafeHarms(s);
      assert Backward(actions);
    }
  }

  /** Setting the clock once leaves the second readings an interval of real time apart, whatever follows without setting
      it forward, exactly when there was none yet, or a thread is between its readings, or the interval has passed since
      the latest one, or the clock is not ahead of where it would have come since then. */
  lemma AdjustExactly(s: State, shift: real)
    requires Inv(s)
    ensures StaysSpaced(Step(s, Adjust(shift)).value)
       <==> || s.moments == [] || !Quiet(s) || LastMoment(s) + INTERVAL <= s.elapsed
            || (s.clock + shift) - s.shown <= s.elapsed - LastMoment(s)
  {
    var s' := Step(s, Adjust(shift)).value;
    assert forall t <- s'.pc :: OnTime(s, s.pc[t]) && OnTime(s', s'.pc[t]);
    SafeExactly(s');
  }

  /** Every setting of the clock in the run is harmless. */
  predicate Undisturbed(s: State, actions: seq<Action>)
    decreases |actions|
  {
    actions != [] ==>
      && (actions[0].Adjust? ==> Harmless(s, actions[0].shift))
      && (Step(s, actions[0]).Some? ==> Undisturbed(Step(s, actions[0]).value, actions[1..]))
  }

  /** At every point of the run, whatever were to follow would keep the second readings apart. */
  ghost predicate SpacedThroughout(s: State, actions: seq<Action>)
    decreases |actions|
  {
    && StaysSpaced(s)
    && (actions != [] && Step(s, actions[0]).Some? ==> SpacedThroughout(Step(s, actions[0]).value, actions[1..]))
  }

  lemma InitialSafe(s: State)
    requires Initial(s)
    ensures Inv(s) && Safe(s)
  {
  }

  lemma {:induction false} ThroughoutFrom(s: State, actions: seq<Action>)
    requires Inv(s) && Safe(s) && Run(s, actions).Some?
    ensures SpacedThroughout(s, actions) <==> Undisturbed(s, actions)
    decreases |actions|
  {
    SafeExactly(s);
    if actions != [] {
      var s' := Step(s, actions[0]).value;
      StepKeepsInv(s, actions[0]);
      StepKeepsSafe(s, actions[0]);
      SafeExactly(s');
      if Safe(s') {
        ThroughoutFrom(s', actions[1..]);
      }
    }
  }

  /** A run of any number of threads keeps the limit at every point, come what may afterwards short of setting the clock
      forward, exactly when each of its own settings of the clock is harmless. */
  lemma ThroughoutExactly(s: State, actions: seq<Action>)
    requires Initial(s) && Run(s, actions).Some?
    ensures SpacedThroughout(s, actions) <==> Undisturbed(s, actions)
  {
    InitialSafe(s);
    ThroughoutFrom(s, actions);
  }

  lemma {:induction false} RunKeepsInv(s: State, actions: seq<Action>)
    requires Inv(s) && Safe(s) && Undisturbed(s, actions) && Run(s, actions).Some?
    ensures Inv(Run(s, actions).value)
    decreases |actions|
  {
    if actions != [] {
      StepKeepsInv(s, actions[0]);
      StepKeepsSafe(s, actions[0]);
      RunKeepsInv(Step(s, actions[0]).value, actions[1..]);
    }
  }

  /** A clock that is never set forward never disturbs. */
  lemma {:induction false} BackwardUndisturbed(s: State, actions: seq<Action>)
    requires Inv(s) && Safe(s) && Backward(actions)
    ensures Undisturbed(s, actions)
    decreases |actions|
  {
    if actions != [] && Step(s, actions[0]).Some? {
      assert actions[0] in actions;
      StepKeepsInv(s, actions[0]);
      StepKeepsSafe(s, actions[0]);
      BackwardUndisturbed(Step(s, actions[0]).value, actions[1..]);
    } else if actions != [] {
      assert actions[0] in actions;
    }
  }

  // ----- When a thread is let go -----

  /** The thread that has read the clock again has not released the lock yet. */
  predicate Finishing(s: State) {
    s.holder.Some? && s.holder.value in s.pc && (s.pc[s.holder.value].HasStamp? || s.pc[s.holder.value].Leaving?)
  }

  /** Every release comes after its second reading and before the next one. */
  predicate Interleaved(moments: seq<real>, releases: seq<real>) {
    && |releases| <= |moments| <= |releases| + 1
    && (forall k :: 0 <= k < |releases| ==> moments[k] <= releases[k])
    && (forall k :: 0 <= k < |moments| - 1 ==> releases[k] <= moments[k + 1])
  }

  predicate NoLater(times: seq<real>, time: real) {
    forall k :: 0 <= k < |times| ==> times[k] <= time
  }

  lemma MomentNext(moments: seq<real>, releases: seq<real>, time: real)
    requires Interleaved(moments, releases) && |moments| == |releases|
    requires NoLater(moments, time) && NoLater(releases, time)
    ensures Interleaved(moments + [time], releases) && NoLater(moments + [time], time)
  {
  }

  lemma ReleaseNext(moments: seq<real>, releases: seq<real>, time: real)
    requires Interleaved(moments, releases) && |moments| == |releases| + 1
    requires NoLater(moments, time) && NoLater(releases, time)
    ensures Interleaved(moments, releases + [time]) && NoLater(releases + [time], time)
  {
  }

  predicate Released(s: State) {
    && Exclusive(s)
    && Interleaved(s.moments, s.releases)
    && |s.moments| == |s.releases| + (if Finishing(s) then 1 else 0)
    && NoLater(s.moments, s.elapsed) && NoLater(s.releases, s.elapsed)
  }

  lemma StepKeepsReleased(s: State, a: Action)
    requires Released(s) && Step(s, a).Some?
    ensures Released(Step(s, a).value)
  {
    StepKeepsExclusive(s, a);
    StepFinishing(s, a);
    if a.ReadStamp? {
      MomentNext(s.moments, s.releases, s.elapsed);
    } else if a.Release? {
      ReleaseNext(s.moments, s.releases, s.elapsed);
    }
  }

  lemma StepFinishing(s: State, a: Action)
    requires Exclusive(s) && Step(s, a).Some?
    ensures var s' := Step(s, a).value;
      && (a.ReadStamp? ==> !Finishing(s) && Finishing(s'))
      && (a.Release? ==> Finishing(s) && !Finishing(s'))
      && (!a.ReadStamp? && !a.Release? ==> Finishing(s') == Finishing(s))
  {
  }

  /** Under any clock. */
  lemma {:induction false} RunKeepsReleased(s: State, actions: seq<Action>)
    requires Released(s) && Run(s, actions).Some?
    ensures Released(Run(s, actions).value)
    decreases |actions|
  {
    if actions != [] {
      StepKeepsReleased(s, actions[0]);
      RunKeepsReleased(Step(s, actions[0]).value, actions[1..]);
    }
  }

  // ----- The bounds -----

  /** The times that fall in the closed window of length `w` from `a`. */
  function CountIn(times: seq<real>, a: real, w: real): nat {
    if times == [] then 0
    else CountIn(times[..|times| - 1], a, w) + if a <= times[|times| - 1] <= a + w then 1 else 0
  }

  lemma {:induction false} LatestInWindow(times: seq<real>, a: real, w: real) returns (i: nat)
    requires Spaced(times) && CountIn(times, a, w) > 0
    ensures i < |times| && times[i] <= a + w
    ensures a + INTERVAL * (CountIn(times, a, w) - 1) as real <= times[i]
  {
    var n := |times| - 1;
    if !(a <= times[n] <= a + w) {
      i := LatestInWindow(times[..n], a, w);
    } else {
      if CountIn(times[..n], a, w) > 0 {
        var k := LatestInWindow(times[..n], a, w);
        assert times[k] + INTERVAL <= times[n];
      }
      i := n;
    }
  }

  lemma WindowBound(times: seq<real>, a: real, w: real)
    requires Spaced(times) && w >= 0.0
    ensures CountIn(times, a, w) <= (w / INTERVAL).Floor + 1
  {
    if CountIn(times, a, w) > 0 {
      var i := LatestInWindow(times, a, w);
      var n := CountIn(times, a, w) - 1;
      assert INTERVAL * n as real <= w;
    }
  }

  lemma CountNext(times: seq<real>, m: nat, a: real, w: real)
    requires m < |times|
    ensures CountIn(times[..m + 1], a, w) == CountIn(times[..m], a, w) + if a <= times[m] <= a + w then 1 else 0
  {
    assert times[..m + 1][..m] == times[..m];
  }

  /** The second reading of a later release comes an interval after that of an earlier one, and after that release. */
  lemma NextRelease(moments: seq<real>, releases: seq<real>, a: real, before: nat, k: nat, m: nat)
    requires Spaced(moments) && Interleaved(moments, releases) && before > 0 && k < m < |releases| && a <= releases[k]
    requires before >= 2 ==> a + INTERVAL * (before - 2) as real <= moments[k]
    ensures a + INTERVAL * (before - 1) as real <= moments[m]
  {
    assert releases[k] <= moments[k + 1] && (k + 1 < m ==> moments[k + 1] + INTERVAL <= moments[m]);
    assert moments[k] + INTERVAL <= moments[m];
  }

  /** The latest of the first `m` releases in the window, with the second readings that the earlier ones in the window
      force apart. */
  lemma {:induction false} LatestRelease(moments: seq<real>, releases: seq<real>, m: nat, a: real, w: real)
    returns (i: nat)
    requires Spaced(moments) && Interleaved(moments, releases) && m <= |releases| && CountIn(releases[..m], a, w) > 0
    ensures i < m && a <= releases[i] <= a + w
    ensures CountIn(releases[..m], a, w) >= 2 ==>
      a + INTERVAL * (CountIn(releases[..m], a, w) - 2) as real <= moments[i]
    decreases m
  {
    var n := m - 1;
    var before := CountIn(releases[..n], a, w);
    CountNext(releases, n, a, w);
    if !(a <= releases[n] <= a + w) {
      i := LatestRelease(moments, releases, n, a, w);
    } else {
      i := n;
      if before > 0 {
        var k := LatestRelease(moments, releases, n, a, w);
        NextRelease(moments, releases, a, before, k, n);
      }
    }
  }

  /** A thread may hold the lock for as long as it likes after its second reading; still at most one more is let go. */
  lemma ReleaseBound(moments: seq<real>, releases: seq<real>, a: real, w: real)
    requires Spaced(moments) && Interleaved(moments, releases) && w >= 0.0
    ensures CountIn(releases, a, w) <= (w / INTERVAL).Floor + 2
  {
    if CountIn(releases, a, w) >= 2 {
      assert releases[..|releases|] == releases;
      var i := LatestRelease(moments, releases, |releases|, a, w);
      var n := CountIn(releases, a, w) - 2;
      assert INTERVAL * n as real <= w;
    }
  }

  /** From any initial state, in every run whose settings of the clock are harmless, in real time: any window holds at
      most floor(w / 0.6) + 1 second readings, any second at most two; any window holds at most one release more. */
  lemma RateBound(s: State, actions: seq<Action>, a: real, w: real)
    requires Initial(s) && Undisturbed(s, actions) && Run(s, actions).Some? && w >= 0.0
    ensures var s' := Run(s, actions).value;
      && CountIn(s'.moments, a, w) <= (w / INTERVAL).Floor + 1
      && CountIn(s'.moments, a, 1.0) <= 2
      && CountIn(s'.releases, a, w) <= (w / INTERVAL).Floor + 2
      && CountIn(s'.releases, a, 1.0) <= 3
  {
    var s' := Run(s, actions).value;
    InitialSafe(s);
    RunKeepsInv(s, actions);
    RunKeepsReleased(s, actions);
    WindowBound(s'.moments, a, w);
    WindowBound(s'.moments, a, 1.0);
    ReleaseBound(s'.moments, s'.releases, a, w);
    ReleaseBound(s'.moments, s'.releases, a, 1.0);
  }

  /** With a clock that is never set back the thread inside has read no time before the last timestamp. */
  predicate Punctual(s: State) {
    && s.last <= s.clock
    && (forall t <- s.pc :: s.pc[t].HasRead? ==> s.last <= s.pc[t].current)
    && (forall t <- s.pc :: s.pc[t].HasStamp? ==> s.pc[t].stamp <= s.clock)
    && (forall t <- s.pc :: s.pc[t].Sleeping? ==> s.pc[t].until <= s.elapsed + INTERVAL)
    && (forall asked <- s.sleeps :: 0.0 < asked <= INTERVAL)
  }

  lemma StepKeepsPunctual(s: State, a: Action)
    requires Exclusive(s) && Punctual(s) && Step(s, a).Some? && (a.Adjust? ==> a.shift >= 0.0)
    ensures Punctual(Step(s, a).value)
  {
  }

  /** With a clock that is never set back no sleep exceeds the interval. */
  lemma {:induction false} SleepBound(s: State, actions: seq<Action>)
    requires Exclusive(s) && Punctual(s) && Forward(actions) && Run(s, actions).Some?
    ensures Exclusive(Run(s, actions).value) && Punctual(Run(s, actions).value)
    decreases |actions|
  {
    if actions != [] {
      assert actions[0] in actions;
      StepKeepsExclusive(s, actions[0]);
      StepKeepsPunctual(s, actions[0]);
      SleepBound(Step(s, actions[0]).value, actions[1..]);
    }
  }

  /** The same bounds with a clock that is never set forward; with one that is never set back, the bound on the written
      timestamps and on the sleeps. */
  lemma OneWayClock(s: State, actions: seq<Action>, a: real, w: real)
    requires Initial(s) && Run(s, actions).Some? && w >= 0.0
    ensures Backward(actions) ==> Undisturbed(s, actions)
    ensures Forward(actions) ==> CountIn(Run(s, actions).value.grants, a, w) <= (w / INTERVAL).Floor + 1
    ensures Forward(actions) && s.clock >= 0.0 ==> Within(Run(s, actions).value.sleeps)
  {
    if Backward(actions) {
      InitialSafe(s);
      BackwardUndisturbed(s, actions);
    }
    if Forward(actions) {
      RunKeepsApart(s, actions);
      WindowBound(Run(s, actions).value.grants, a, w);
      if s.clock >= 0.0 {
        SleepBound(s, actions);
      }
    }
  }

  // ----- Runs that show what the bounds do not promise -----

  /** A call up to its first reading. */
  function StartedCall(t: Thread): seq<Action> {
    [Call(t), Acquire(t), ReadClock(t)]
  }

  /** One whole call that need not sleep, and takes `d` between its second reading and the write. */
  function PromptCall(t: Thread, d: real): seq<Action> {
    StartedCall(t) + ([Check(t), ReadStamp(t), Tick(d)] + [Write(t), Release(t)])
  }

  /** The state with `t` inside, at `pc`. */
  function Inside(s: State, t: Thread, pc: Pc): State {
    s.(holder := Some(t), pc := s.pc[t := pc])
  }

  lemma CallStarts(s: State, t: Thread)
    requires t in s.pc && s.pc[t].Idle? && s.holder == None
    ensures Run(s, StartedCall(t)) == Some(Inside(s, t, HasRead(s.clock)))
  {
    var s1 := s.(pc := s.pc[t := Waiting]);
    assert s1.pc[t := Entered] == s.pc[t := Entered];
    assert s.pc[t := Entered][t := HasRead(s.clock)] == s.pc[t := HasRead(s.clock)];
    Chain(s, s1, Inside(s, t, Entered), Inside(s, t, HasRead(s.clock)), Call(t), Acquire(t), ReadClock(t));
  }

  /** The state after a second reading and `d` more of time. */
  function ReadAgain(s: State, d: real): State {
    Later(s.(moments := s.moments + [s.elapsed], shown := s.clock), d)
  }

  /** The state after the timestamp has been written and the lock released. */
  function Left(s: State, stamp: real): State {
    s.(last := stamp, grants := s.grants + [stamp], releases := s.releases + [s.elapsed])
  }

  /** The state after a prompt call. */
  function Called(s: State, d: real): State {
    Left(ReadAgain(s, d), s.clock)
  }

  lemma CallReads(s: State, t: Thread, d: real)
    requires t in s.pc && s.pc[t].Idle? && s.holder == None && s.clock - s.last >= INTERVAL && d >= 0.0
    ensures Run(Inside(s, t, HasRead(s.clock)), [Check(t), ReadStamp(t), Tick(d)])
         == Some(Inside(ReadAgain(s, d), t, HasStamp(s.clock, s.clock)))
  {
    var c := s.clock;
    var s1 := Inside(s, t, Awake(c));
    var s2 := Inside(ReadAgain(s, 0.0), t, HasStamp(c, c));
    assert s.pc[t := HasRead(c)][t := Awake(c)] == s.pc[t := Awake(c)];
    assert s.pc[t := Awake(c)][t := HasStamp(c, c)] == s.pc[t := HasStamp(c, c)];
    Chain(Inside(s, t, HasRead(c)), s1, s2, Inside(ReadAgain(s, d), t, HasStamp(c, c)),
          Check(t), ReadStamp(t), Tick(d));
  }

  lemma CallLeaves(s: State, t: Thread, stamp: real)
    requires t in s.pc && s.pc[t].Idle? && s.holder == None
    ensures Run(Inside(s, t, HasStamp(stamp, stamp)), [Write(t), Release(t)]) == Some(Left(s, stamp))
  {
    var s1 := Inside(s, t, Leaving).(last := stamp, grants := s.grants + [stamp]);
    assert s.pc[t := HasStamp(stamp, stamp)][t := Leaving] == s.pc[t := Leaving];
    assert s.pc[t := Leaving][t := Idle] == s.pc;
    TwoSteps(Inside(s, t, HasStamp(stamp, stamp)), s1, Left(s, stamp), Write(t), Release(t));
  }

  lemma PromptCallRuns(s: State, t: Thread, d: real)
    requires t in s.pc && s.pc[t].Idle? && s.holder == None && s.clock - s.last >= INTERVAL && d >= 0.0
    ensures Run(s, PromptCall(t, d)) == Some(Called(s, d))
  {
    CallStarts(s, t);
    CallReads(s, t, d);
    CallLeaves(ReadAgain(s, d), t, s.clock);
    Joined(s, Inside(s, t, HasRead(s.clock)), StartedCall(t),
           [Check(t), ReadStamp(t), Tick(d)] + [Write(t), Release(t)]);
    Joined(Inside(s, t, HasRead(s.clock)), Inside(ReadAgain(s, d), t, HasStamp(s.clock, s.clock)),
           [Check(t), ReadStamp(t), Tick(d)], [Write(t), Release(t)]);
  }

  lemma Joined(s: State, mid: State, a: seq<Action>, b: seq<Action>)
    requires Run(s, a) == Some(mid)
    ensures Run(s, a + b) == Run(mid, b)
  {
    RunConcat(s, a, b);
  }

  lemma Chain(s: State, s1: State, s2: State, s3: State, a: Action, b: Action, c: Action)
    requires Step(s, a) == Some(s1) && Step(s1, b) == Some(s2) && Step(s2, c) == Some(s3)
    ensures Run(s, [a, b, c]) == Some(s3)
  {
    RunCons(s2, c, []);
    RunCons(s1, b, [c]);
    RunCons(s, a, [b, c]);
    assert [c] + [] == [c] && [b] + [c] == [b, c] && [a] + [b, c] == [a, b, c];
  }

  /** `n` calls, the clock set forward by one interval before each. */
  function Burst(t: Thread, n: nat): seq<Action> {
    if n == 0 then [] else [Adjust(INTERVAL)] + (PromptCall(t, 0.0) + Burst(t, n - 1))
  }

  /** Setting the clock forward breaks the limit altogether: any number of threads is let go at one instant, without any
      sleep, although the clock never goes back and the written timestamps stay apart. */
  lemma {:induction false} ForwardClockBreaksBound(s: State, t: Thread, n: nat)
    requires t in s.pc && s.pc[t].Idle? && s.holder == None && s.last <= s.clock
    ensures Forward(Burst(t, n))
    ensures var s' := Run(s, Burst(t, n));
      && s'.Some? && s'.value.elapsed == s.elapsed && s'.value.sleeps == s.sleeps
      && |s'.value.moments| == |s.moments| + n && |s'.value.releases| == |s.releases| + n
      && (forall i :: |s.moments| <= i < |s.moments| + n ==> s'.value.moments[i] == s.elapsed)
      && (forall i :: |s.releases| <= i < |s.releases| + n ==> s'.value.releases[i] == s.elapsed)
    decreases n
  {
    if n > 0 {
      var s1 := s.(clock := s.clock + INTERVAL);
      var s2 := Called(s1, 0.0);
      PromptCallRuns(s1, t, 0.0);
      ForwardClockBreaksBound(s2, t, n - 1);
      RunCons(s, Adjust(INTERVAL), PromptCall(t, 0.0) + Burst(t, n - 1));
      RunConcat(s1, PromptCall(t, 0.0), Burst(t, n - 1));
      HistoryGrows(s2, Burst(t, n - 1));
    }
  }

  lemma {:induction false} HistoryGrows(s: State, actions: seq<Action>)
    requires Run(s, actions).Some?
    ensures s.moments <= Run(s, actions).value.moments && s.releases <= Run(s, actions).value.releases
    decreases |actions|
  {
    if actions != [] {
      HistoryGrows(Step(s, actions[0]).value, actions[1..]);
    }
  }

  lemma ThreeCalls(s: State, t: Thread)
    requires t in s.pc && s.pc[t].Idle? && s.holder == None && s.clock - s.last >= INTERVAL
    ensures Run(s, PromptCall(t, INTERVAL) + (PromptCall(t, INTERVAL) + PromptCall(t, 0.0)))
         == Some(Called(Called(Called(s, INTERVAL), INTERVAL), 0.0))
  {
    var s1 := Called(s, INTERVAL);
    PromptCallRuns(s, t, INTERVAL);
    PromptCallRuns(s1, t, INTERVAL);
    PromptCallRuns(Called(s1, INTERVAL), t, 0.0);
    RunConcat(s1, PromptCall(t, INTERVAL), PromptCall(t, 0.0));
    RunConcat(s, PromptCall(t, INTERVAL), PromptCall(t, INTERVAL) + PromptCall(t, 0.0));
  }

  lemma PromptUntouched(t: Thread, d: real)
    ensures Untouched(PromptCall(t, d))
  {
  }

  /** The bound on releases is tight: with a clock that is never set three threads can be let go within 0.6 s. */
  lemma ThreeReleases(s: State, t: Thread)
    requires Initial(s) && t in s.pc && s.clock >= INTERVAL
    ensures var actions := PromptCall(t, INTERVAL) + (PromptCall(t, INTERVAL) + PromptCall(t, 0.0));
      var s' := Run(s, actions);
      && Untouched(actions) && s'.Some?
      && CountIn(s'.value.releases, s.elapsed + INTERVAL, INTERVAL) == 3
  {
    var e := s.elapsed + INTERVAL;
    ThreeCalls(s, t);
    PromptUntouched(t, INTERVAL);
    PromptUntouched(t, 0.0);
    CountThree(e, e + INTERVAL, e + INTERVAL, e, INTERVAL);
    assert Called(Called(Called(s, INTERVAL), INTERVAL), 0.0).releases == [e, e + INTERVAL, e + INTERVAL];
  }

  lemma CountThree(x: real, y: real, z: real, a: real, w: real)
    requires a <= x <= a + w && a <= y <= a + w && a <= z <= a + w
    ensures CountIn([x, y, z], a, w) == 3
  {
    assert [x, y, z][..2] == [x, y] && [x, y][..1] == [x] && [x][..0] == [];
    assert CountIn([x], a, w) == 1;
    assert CountIn([x, y], a, w) == 2;
  }

  /** The next action of a thread that is not waiting for anything. */
  function NextAction(t: Thread, pc: Pc): Action {
    match pc
    case Idle => Call(t)
    case Waiting => Acquire(t)
    case Entered => ReadClock(t)
    case HasRead(_) => Check(t)
    case Sleeping(_, _) => Wake(t)
    case Awake(_) => ReadStamp(t)
    case HasStamp(_, _) => Write(t)
    case Leaving => Release(t)
  }

  /** No deadlock: when a thread is inside or waiting, some such thread can move, at most one interval from now. */
  lemma Progress(s: State, t: Thread) returns (u: Thread, wait: real)
    requires Exclusive(s) && Punctual(s) && t in s.pc && !s.pc[t].Idle?
    ensures u in s.pc && !s.pc[u].Idle?
    ensures 0.0 <= wait <= INTERVAL
    ensures Run(s, [Tick(wait), NextAction(u, s.pc[u])]).Some?
  {
    u := if s.holder.Some? then s.holder.value else t;
    wait := if s.pc[u].Sleeping? && s.elapsed < s.pc[u].until then s.pc[u].until - s.elapsed else 0.0;
    var next := NextAction(u, s.pc[u]);
    var s1 := Step(s, Tick(wait)).value;
    TwoSteps(s, s1, Step(s1, next).value, Tick(wait), next);
  }
}
