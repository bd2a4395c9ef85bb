/** The advisory lock of the polling cycle, and every interleaving of the workers that contend for it. */
module Locking {
  import opened Options

  /** Seconds on a shared clock that never goes back. */
  type Time = int

  type Holder = string

  const STALE_AFTER := 1800

  /** The row of the lock; all three columns are cleared together. */
  datatype Row = Row(holder: Option<Holder>, acquiredAt: Option<Time>, heartbeatAt: Option<Time>)

  const FREE := Row(None, None, None)

  predicate Takeable(row: Row, now: Time) {
    row.holder.None? || row.heartbeatAt.None? || row.heartbeatAt.value < now - STALE_AFTER
  }

  function Acquired(row: Row, who: Holder, now: Time): Row {
    if Takeable(row, now) then Row(Some(who), Some(now), Some(now)) else row
  }

  function Beaten(row: Row, who: Holder, now: Time): Row {
    if row.holder == Some(who) then row.(heartbeatAt := Some(now)) else row
  }

  function Released(row: Row, who: Holder): Row {
    if row.holder == Some(who) then FREE else row
  }

  datatype RunStatus = Success | Partial | Skipped | Failed

  /** How the steps between acquiring and releasing end: with a status, or by raising. */
  datatype Steps = Ended(status: RunStatus) | Raised

  class SchedulerLock {
    /** Absent until the first attempt inserts it. */
    var row: Option<Row>

    constructor ()
      ensures row == None
    {
      row := None;
    }

    function Current(): Row
      reads this
    {
      row.GetOr(FREE)
    }

    method Acquire(who: Holder, now: Time) returns (acquired: bool)
      modifies this
      ensures row == Some(Acquired(old(Current()), who, now)) && acquired == Takeable(old(Current()), now)
      ensures acquired ==> Current().holder == Some(who) && !Takeable(Current(), now)
    {
      if row.None? {
        row := Some(FREE);
      }
      acquired := Takeable(row.value, now);
      if acquired {
        row := Some(Row(Some(who), Some(now), Some(now)));
      }
    }

    method Heartbeat(who: Holder, now: Time)
      modifies this
      ensures Current() == Beaten(old(Current()), who, now)
    {
      if row.Some? && row.value.holder == Some(who) {
        row := Some(row.value.(heartbeatAt := Some(now)));
      }
    }

    method Release(who: Holder)
      modifies this
      ensures Current() == Released(old(Current()), who)
    {
      if row.Some? && row.value.holder == Some(who) {
        row := Some(FREE);
      }
    }

    /**
     One cycle: refused, or run and released however its steps end.  `others` is whatever other
     workers make of the row while the steps run; only a lock still held is released.
     */
    method RunCycle(who: Holder, now: Time, steps: Steps, others: Row -> Row) returns (status: RunStatus)
      modifies this
      ensures var mine := Row(Some(who), Some(now), Some(now));
              if Takeable(old(Current()), now) then
                && status == (if steps.Raised? then Failed else steps.status)
                && Current().holder != Some(who)
                && (others(mine).holder == Some(who) ==> Current() == FREE)
                && (others(mine).holder != Some(who) ==> Current() == others(mine))
              else Current() == old(Current()) && status == Skipped
    {
      var acquired := Acquire(who, now);
      if !acquired {
        return Skipped;
      }
      row := Some(others(row.value));
      match steps {
        case Ended(s) => status := s;
        case Raised => status := Failed;
      }
      Release(who);
    }
  }

  // ---------------------------------------------------------------- the interleavings

  type Worker = nat

  /**
   A worker runs cycles one after another. `Inside` carries the time of its last heartbeat that
   landed, at first the time sampled before its conditional update. `Leaving` has ended its cycle
   but not yet released. `Dead` never acts again.
   */
  datatype Phase = Idle | Sampled(at: Time) | Inside(beat: Time) | Leaving | Dead

  datatype System = System(clock: Time, lock: Row, phases: Worker -> Phase)

  datatype Event =
    | Tick(seconds: nat)
    | Sample(w: Worker)
    | TryEnter(w: Worker)
    | Beat(w: Worker)
    | Leave(w: Worker)
    | GiveUp(w: Worker)
    | Die(w: Worker)

  const START := System(0, FREE, (w: Worker) => Idle)

  function Moved(s: System, w: Worker, phase: Phase): System {
    s.(phases := (v: Worker) => if v == w then phase else s.phases(v))
  }

  /** An event that does not apply in the present phase changes nothing. */
  function Step(s: System, event: Event, who: Worker -> Holder): System {
    match event
    case Tick(d) => s.(clock := s.clock + d)
    case Sample(w) => if s.phases(w).Idle? then Moved(s, w, Sampled(s.clock)) else s
    case TryEnter(w) =>
      if !s.phases(w).Sampled? then s
      else
        var now := s.phases(w).at;
        Moved(s, w, if Takeable(s.lock, now) then Inside(now) else Idle).(lock := Acquired(s.lock, who(w), now))
    case Beat(w) =>
      if s.phases(w).Inside? && s.lock.holder == Some(who(w)) then
        Moved(s, w, Inside(s.clock)).(lock := Beaten(s.lock, who(w), s.clock))
      else s
    case Leave(w) => if s.phases(w).Inside? then Moved(s, w, Leaving) else s
    case GiveUp(w) => if s.phases(w).Leaving? then Moved(s, w, Idle).(lock := Released(s.lock, who(w))) else s
    case Die(w) => Moved(s, w, Dead)
  }

  function Run(s: System, events: seq<Event>, who: Worker -> Holder): System {
    if events == [] then s else Step(Run(s, events[..|events| - 1], who), events[|events| - 1], who)
  }

  /** Inside the cycle, and not past half an hour since its last heartbeat. */
  predicate InTime(s: System, w: Worker) {
    s.phases(w).Inside? && s.clock <= s.phases(w).beat + STALE_AFTER
  }

  ghost predicate OneAtATime(s: System) {
    forall v, w :: InTime(s, v) && InTime(s, w) ==> v == w
  }

  ghost predicate OwnIds(who: Worker -> Holder) {
    forall v, w :: who(v) == who(w) ==> v == w
  }

  /** What every reachable state keeps, worker by worker. */
  predicate Owns(s: System, w: Worker, who: Worker -> Holder) {
    && (s.phases(w).Sampled? ==> s.phases(w).at <= s.clock)
    && (InTime(s, w) ==> s.lock.holder == Some(who(w)) && s.lock.heartbeatAt == Some(s.phases(w).beat))
  }

  lemma StepKeepsOwner(s: System, event: Event, who: Worker -> Holder, w: Worker)
    requires OwnIds(who) && forall v :: Owns(s, v, who)
    ensures Owns(Step(s, event, who), w, who)
  {
    assert Owns(s, w, who);
    match event
    case TryEnter(v) => assert Owns(s, v, who);
    case _ =>
  }

  lemma {:induction false} RunKeepsOwners(events: seq<Event>, who: Worker -> Holder)
    requires OwnIds(who)
    ensures forall w :: Owns(Run(START, events, who), w, who)
    decreases |events|
  {
    if events != [] {
      var n := |events| - 1;
      RunKeepsOwners(events[..n], who);
      forall w ensures Owns(Run(START, events, who), w, who) {
        StepKeepsOwner(Run(START, events[..n], who), events[n], who, w);
      }
    }
  }

  /**
   Mutual exclusion over every interleaving: no two workers are inside the cycle while both are
   within half an hour of their last heartbeat. That holds of all runs exactly when no two workers
   share a holder id.
   */
  lemma MutualExclusionIff(who: Worker -> Holder)
    ensures (forall events :: OneAtATime(Run(START, events, who))) <==> OwnIds(who)
  {
    if OwnIds(who) {
      forall events ensures OneAtATime(Run(START, events, who)) {
        RunKeepsOwners(events, who);
        var s := Run(START, events, who);
        forall v, w | InTime(s, v) && InTime(s, w) ensures v == w {
          assert Owns(s, v, who) && Owns(s, w, who);
        }
      }
    } else {
      var a, b :| who(a) == who(b) && a != b;
      SharedIdsLetTwoIn(who, a, b);
    }
  }

  lemma RunTwoMore(s: System, events: seq<Event>, e: Event, f: Event, who: Worker -> Holder)
    ensures Run(s, events + [e, f], who) == Step(Step(Run(s, events, who), e, who), f, who)
  {
    assert (events + [e, f])[..|events| + 1] == events + [e];
    assert (events + [e])[..|events|] == events;
  }

  lemma Enters(s: System, w: Worker, who: Worker -> Holder)
    requires s.phases(w).Idle? && Takeable(s.lock, s.clock)
    ensures var t := Step(Step(s, Sample(w), who), TryEnter(w), who);
            && t.phases(w) == Inside(s.clock) && t.lock == Row(Some(who(w)), Some(s.clock), Some(s.clock))
            && t.clock == s.clock && forall v :: v != w ==> t.phases(v) == s.phases(v)
  {
  }

  /** One worker overstays, and a second one enters in time. */
  function Overstayed(a: Worker, b: Worker): seq<Event> {
    [] + [Sample(a), TryEnter(a)] + [Tick(STALE_AFTER), Tick(1)] + [Sample(b), TryEnter(b)]
  }

  lemma OverstayedState(who: Worker -> Holder, a: Worker, b: Worker)
    requires a != b
    ensures var s := Run(START, Overstayed(a, b), who);
            && s.clock == STALE_AFTER + 1 && s.lock == Row(Some(who(b)), Some(s.clock), Some(s.clock))
            && s.phases(a) == Inside(0) && s.phases(b) == Inside(s.clock)
            && forall c :: c != a && c != b ==> s.phases(c).Idle?
  {
    var e2 := [] + [Sample(a), TryEnter(a)];
    var e4 := e2 + [Tick(STALE_AFTER), Tick(1)];
    RunTwoMore(START, [], Sample(a), TryEnter(a), who);
    Enters(START, a, who);
    RunTwoMore(START, e2, Tick(STALE_AFTER), Tick(1), who);
    RunTwoMore(START, e4, Sample(b), TryEnter(b), who);
    Enters(Run(START, e4, who), b, who);
  }

  /** The late release of an overstayed cycle clears the lock of a worker with the same id. */
  lemma SharedIdsLetTwoIn(who: Worker -> Holder, a: Worker, b: Worker)
    requires who(a) == who(b) && a != b
    ensures exists events :: !OneAtATime(Run(START, events, who))
  {
    var c := a + b + 1;
    var e6 := Overstayed(a, b);
    OverstayedState(who, a, b);
    var e8 := e6 + [Leave(a), GiveUp(a)];
    RunTwoMore(START, e6, Leave(a), GiveUp(a), who);
    var e10 := e8 + [Sample(c), TryEnter(c)];
    RunTwoMore(START, e8, Sample(c), TryEnter(c), who);
    Enters(Run(START, e8, who), c, who);
    assert InTime(Run(START, e10, who), b) && InTime(Run(START, e10, who), c);
    assert !OneAtATime(Run(START, e10, who));
  }

  function Actor(event: Event): Option<Worker> {
    if event.Tick? then None else Some(event.w)
  }

  /** Whatever another worker does, however late, the lock of one that is in time stays as it is. */
  lemma OthersCannotTouch(events: seq<Event>, event: Event, who: Worker -> Holder, w: Worker)
    requires OwnIds(who) && InTime(Run(START, events, who), w) && Actor(event) != Some(w)
    ensures var s := Run(START, events, who);
            Step(s, event, who).lock == s.lock && Step(s, event, who).phases(w) == s.phases(w)
  {
    RunKeepsOwners(events, who);
    var s := Run(START, events, who);
    assert Owns(s, w, who);
    if event.TryEnter? {
      assert Owns(s, event.w, who);
    }
  }

  /** The lock is held by the worker, which last showed life at that time. */
  predicate LastSeen(s: System, w: Worker, beat: Time, who: Worker -> Holder) {
    && s.lock.holder == Some(who(w)) && s.lock.heartbeatAt == Some(beat)
    && (s.phases(w).Dead? || s.phases(w).Inside?)
  }

  ghost predicate SampledInThePast(s: System) {
    forall v :: s.phases(v).Sampled? ==> s.phases(v).at <= s.clock
  }

  lemma StepKeepsSilence(s: System, event: Event, who: Worker -> Holder, w: Worker, beat: Time)
    requires OwnIds(who) && SampledInThePast(s) && Actor(event) != Some(w)
    ensures var t := Step(s, event, who);
            && SampledInThePast(t) && t.phases(w) == s.phases(w) && s.clock <= t.clock
            && (LastSeen(s, w, beat, who) && t.clock <= beat + STALE_AFTER ==> t.lock == s.lock)
  {
  }

  /**
   A holder that falls silent, because it died or because its cycle takes long, keeps everyone out
   for half an hour after its last heartbeat and no longer: any other worker gets in if and only if
   it samples the clock later than that, and then a slow holder is still inside as well.
   */
  lemma {:induction false} SilentHolderIsReplacedIff(
    s: System, events: seq<Event>, who: Worker -> Holder, w: Worker, beat: Time, v: Worker)
    requires OwnIds(who) && SampledInThePast(s) && LastSeen(s, w, beat, who) && v != w
    requires forall e :: e in events ==> Actor(e) != Some(w)
    ensures var t := Run(s, events, who);
            && SampledInThePast(t) && t.phases(w) == s.phases(w)
            && (t.clock <= beat + STALE_AFTER ==> t.lock == s.lock)
            && (t.lock == s.lock && t.phases(v).Idle? ==>
                  var u := Step(Step(t, Sample(v), who), TryEnter(v), who);
                  && (u.phases(v).Inside? <==> t.clock > beat + STALE_AFTER)
                  && u.phases(w) == s.phases(w))
    decreases |events|
  {
    if events != [] {
      var n := |events| - 1;
      SilentHolderIsReplacedIff(s, events[..n], who, w, beat, v);
      StepKeepsSilence(Run(s, events[..n], who), events[n], who, w, beat);
    }
  }
}
