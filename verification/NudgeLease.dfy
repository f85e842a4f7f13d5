/**
 The hand-nudge protocol of one mount: start, renew, stop and lease expiry race through a FIFO
 lock. Each action is the code between two suspension points; every state the dictionaries of
 the manager hold is keyed by mount, so one mount is modelled. Driver calls succeed.
 */
module NudgeLease {
  import opened Wrappers

  type LeaseId = nat

  /** A task that needs the mount's lock: a start, a user's stop, or the stop of an expired lease. */
  datatype Op = Start(direction: string, rate: string, timed: bool) | Stop | Expire(lease: LeaseId)

  /** What the protocol tells the driver. */
  datatype Command = StartMove(direction: string, rate: string) | StopMove

  datatype State = State(
    queue: seq<Op>,              // tasks waiting for the lock, oldest first
    holder: Option<Op>,          // the task inside the lock, suspended in its driver call
    moving: map<string, string>, // direction -> rate
    lease: Option<LeaseId>,      // the registered lease
    sleeping: set<LeaseId>,      // lease tasks still in their sleep
    nextLease: LeaseId,
    openEnded: bool,             // the last completed start had no duration
    log: seq<Command>)

  datatype Action =
    | CallStart(direction: string, rate: string, timed: bool)
    | CallStop
    | Wake(lease: LeaseId)
    | Enter
    | Return

  function Init(): State {
    State([], None, map[], None, {}, 0, false, [])
  }

  function Without(queue: seq<Op>, lease: LeaseId): (r: seq<Op>)
    ensures forall op :: op in r <==> op in queue && op != Expire(lease)
  {
    if queue == [] then []
    else if queue[0] == Expire(lease) then Without(queue[1..], lease)
    else
      assert queue == [queue[0]] + queue[1..];
      [queue[0]] + Without(queue[1..], lease)
  }

  /** Unregisters the lease and cancels its task, asleep or queued, unless that task is the caller. */
  function CancelLease(s: State, caller: Op): State {
    match s.lease
    case None => s
    case Some(l) =>
      if caller == Expire(l) then s.(lease := None)
      else s.(lease := None, sleeping := s.sleeping - {l}, queue := Without(s.queue, l))
  }

  /** The end of a start: replace the lease, leave the lock. */
  function FinishStart(s: State, timed: bool): State {
    var t := CancelLease(s, Stop).(holder := None, openEnded := !timed);
    if timed then t.(lease := Some(t.nextLease), sleeping := t.sleeping + {t.nextLease}, nextLease := t.nextLease + 1)
    else t
  }

  predicate Enabled(s: State, a: Action) {
    match a
    case CallStart(_, _, _) => true
    case CallStop => true
    case Wake(l) => l in s.sleeping
    case Enter => s.holder == None && s.queue != []
    case Return => s.holder.Some?
  }

  function Step(s: State, a: Action): State
    requires Enabled(s, a)
  {
    match a
    case CallStart(d, r, timed) => s.(queue := s.queue + [Start(d, r, timed)])
    case CallStop => s.(queue := s.queue + [Stop])
    case Wake(l) => s.(sleeping := s.sleeping - {l}, queue := s.queue + [Expire(l)])
    case Enter =>
      var op, t := s.queue[0], s.(queue := s.queue[1..]);
      if op.Start? then
        if op.direction in t.moving && t.moving[op.direction] == op.rate then FinishStart(t, op.timed)
        else t.(holder := Some(op), log := t.log + [StartMove(op.direction, op.rate)])
      else
        CancelLease(t, op).(moving := map[], holder := Some(op), log := t.log + [StopMove])
    case Return =>
      var op := s.holder.value;
      if op.Start? then FinishStart(s.(moving := s.moving[op.direction := op.rate]), op.timed)
      else s.(holder := None)
  }

  /** A run from the initial state. */
  predicate Feasible(s: State, run: seq<Action>)
    decreases |run|
  {
    run == [] || (Enabled(s, run[0]) && Feasible(Step(s, run[0]), run[1..]))
  }

  function After(s: State, run: seq<Action>): State
    requires Feasible(s, run)
    decreases |run|
  {
    if run == [] then s else After(Step(s, run[0]), run[1..])
  }

  // ---- the invariant ----

  function Occurrences(queue: seq<Op>, op: Op): nat {
    if queue == [] then 0 else (if queue[0] == op then 1 else 0) + Occurrences(queue[1..], op)
  }

  lemma {:induction false} OccurrencesAppend(a: seq<Op>, b: seq<Op>, op: Op)
    ensures Occurrences(a + b, op) == Occurrences(a, op) + Occurrences(b, op)
  {
    if a == [] {
      assert a + b == b;
    } else {
      assert (a + b)[1..] == a[1..] + b;
      OccurrencesAppend(a[1..], b, op);
    }
  }

  lemma {:induction false} OccurrencesIn(queue: seq<Op>, op: Op)
    ensures Occurrences(queue, op) > 0 <==> op in queue
  {
    if queue != [] {
      OccurrencesIn(queue[1..], op);
      assert queue == [queue[0]] + queue[1..];
    }
  }

  lemma {:induction false} OccurrencesWithout(queue: seq<Op>, lease: LeaseId, op: Op)
    ensures Occurrences(Without(queue, lease), op) == if op == Expire(lease) then 0 else Occurrences(queue, op)
  {
    if queue != [] {
      OccurrencesWithout(queue[1..], lease, op);
      if queue[0] != Expire(lease) {
        assert Without(queue, lease)[1..] == Without(queue[1..], lease);
      }
    }
  }

  /** How often lease task l is still ahead of its stop: asleep or queued for the lock. */
  function Pending(s: State, l: LeaseId): nat {
    (if l in s.sleeping then 1 else 0) + Occurrences(s.queue, Expire(l))
  }

  /** The state the driver commands since the last StopMove amount to. */
  function Replay(log: seq<Command>): map<string, string> {
    if log == [] then map[]
    else
      match log[|log| - 1]
      case StopMove => map[]
      case StartMove(d, r) => Replay(log[..|log| - 1])[d := r]
  }

  ghost predicate Inv(s: State) {
    // exactly the registered lease is pending, and it is pending once
    && (forall l: LeaseId :: Pending(s, l) == if s.lease == Some(l) then 1 else 0)
    && (s.lease.Some? ==> s.lease.value < s.nextLease)
    // a moving mount has a pending lease, or was last started without a duration
    && (s.moving != map[] ==> s.lease.Some? || s.openEnded)
    // the dictionary of motions mirrors the commands sent, up to the call in progress
    && match s.holder
       case None => Replay(s.log) == s.moving
       case Some(op) =>
         if op.Start? then Replay(s.log) == s.moving[op.direction := op.rate]
         else s.moving == map[] && Replay(s.log) == map[]
  }

  lemma InitInv()
    ensures Inv(Init())
  {
  }

  lemma CancelPending(s: State, caller: Op, l: LeaseId)
    requires Pending(s, l) + (if caller == Expire(l) then 1 else 0) == if s.lease == Some(l) then 1 else 0
    ensures Pending(CancelLease(s, caller), l) == 0
    ensures CancelLease(s, caller).lease == None
  {
    if s.lease.Some? && caller != Expire(s.lease.value) {
      OccurrencesWithout(s.queue, s.lease.value, Expire(l));
    }
  }

  lemma FinishStartInv(s: State, timed: bool)
    requires forall l: LeaseId :: Pending(s, l) == if s.lease == Some(l) then 1 else 0
    requires s.lease.Some? ==> s.lease.value < s.nextLease
    requires Replay(s.log) == s.moving
    ensures Inv(FinishStart(s, timed))
  {
    var t := FinishStart(s, timed);
    forall l: LeaseId ensures Pending(t, l) == if t.lease == Some(l) then 1 else 0 {
      CancelPending(s, Stop, l);
    }
  }

  /** Taking the first task off the queue: only that task is no longer pending. */
  lemma PendingHead(s: State, l: LeaseId)
    requires s.queue != []
    ensures Pending(s, l) == Pending(s.(queue := s.queue[1..]), l) + if s.queue[0] == Expire(l) then 1 else 0
  {
    OccurrencesAppend([s.queue[0]], s.queue[1..], Expire(l));
    assert s.queue == [s.queue[0]] + s.queue[1..];
  }

  lemma EnterInv(s: State)
    requires Inv(s) && Enabled(s, Enter)
    ensures Inv(Step(s, Enter))
  {
    forall l: LeaseId
      ensures Pending(s, l) == Pending(s.(queue := s.queue[1..]), l) + if s.queue[0] == Expire(l) then 1 else 0
    {
      PendingHead(s, l);
    }
    hide Pending, Replay;
    if s.queue[0].Start? {
      EnterStart(s, s.(queue := s.queue[1..]));
    } else {
      EnterStop(s, s.(queue := s.queue[1..]));
    }
  }

  lemma EnterStart(s: State, t: State)
    requires Inv(s) && s.holder == None && s.queue != [] && s.queue[0].Start? && t == s.(queue := s.queue[1..])
    requires forall l: LeaseId :: Pending(s, l) == Pending(t, l)
    ensures Inv(Step(s, Enter))
  {
    var op, s' := s.queue[0], Step(s, Enter);
    if op.direction in t.moving && t.moving[op.direction] == op.rate {
      hide Pending, Replay;
      FinishStartInv(t, op.timed);
    } else {
      assert s'.log[..|s'.log| - 1] == s.log;
      assert forall l: LeaseId :: Pending(s', l) == Pending(t, l);
      hide Pending;
    }
  }

  lemma EnterStop(s: State, t: State)
    requires Inv(s) && s.holder == None && s.queue != [] && !s.queue[0].Start? && t == s.(queue := s.queue[1..])
    requires forall l: LeaseId :: Pending(s, l) == Pending(t, l) + if s.queue[0] == Expire(l) then 1 else 0
    ensures Inv(Step(s, Enter))
  {
    var op, s' := s.queue[0], Step(s, Enter);
    assert s' == CancelLease(t, op).(moving := map[], holder := Some(op), log := t.log + [StopMove]);
    forall l: LeaseId ensures Pending(s', l) == 0 {
      CancelPending(t, op, l);
      assert Pending(s', l) == Pending(CancelLease(t, op), l);
    }
    hide Pending;
  }

  lemma StepInv(s: State, a: Action)
    requires Inv(s) && Enabled(s, a)
    ensures Inv(Step(s, a))
  {
    var s' := Step(s, a);
    match a {
      case CallStart(d, r, timed) =>
        forall l: LeaseId ensures Pending(s', l) == Pending(s, l) {
          OccurrencesAppend(s.queue, [Start(d, r, timed)], Expire(l));
        }
      case CallStop =>
        forall l: LeaseId ensures Pending(s', l) == Pending(s, l) {
          OccurrencesAppend(s.queue, [Stop], Expire(l));
        }
      case Wake(k) =>
        forall l: LeaseId ensures Pending(s', l) == Pending(s, l) {
          OccurrencesAppend(s.queue, [Expire(k)], Expire(l));
        }
      case Enter => EnterInv(s);
      case Return =>
        var op := s.holder.value;
        if op.Start? {
          var t := s.(moving := s.moving[op.direction := op.rate]);
          assert forall l: LeaseId :: Pending(t, l) == Pending(s, l);
          FinishStartInv(t, op.timed);
        } else {
          assert forall l: LeaseId :: Pending(s', l) == Pending(s, l);
        }
    }
  }

  /** Every interleaving of starts, renewals, stops and expiries keeps the invariant. */
  lemma {:induction false} RunInv(s: State, run: seq<Action>)
    requires Inv(s) && Feasible(s, run)
    ensures Inv(After(s, run))
    decreases |run|
  {
    if run != [] {
      StepInv(s, run[0]);
      RunInv(Step(s, run[0]), run[1..]);
    }
  }

  // ---- what it means for a nudge ----

  /** In every reachable state at most one lease is pending, once, and a motion has one or was open-ended. */
  lemma AtMostOneLease(run: seq<Action>, l: LeaseId, l': LeaseId)
    requires Feasible(Init(), run)
    ensures var s := After(Init(), run);
            && Pending(s, l) <= 1
            && (Pending(s, l) > 0 && Pending(s, l') > 0 ==> l == l')
            && (s.moving != map[] ==> s.openEnded || (s.lease.Some? && Pending(s, s.lease.value) == 1))
  {
    InitInv();
    RunInv(Init(), run);
  }

  /** A start that finishes, renewal or not, leaves no older lease behind: not asleep and not queued for the lock. */
  lemma RenewalCancelsOldLease(s: State, a: Action, l: LeaseId)
    requires Inv(s) && Enabled(s, a) && l < s.nextLease
    requires a.Return? ==> s.holder.value.Start?
    requires a.Enter? ==> s.queue[0].Start? && Step(s, a).holder == None
    requires a.Return? || a.Enter?
    ensures l !in Step(s, a).sleeping && Expire(l) !in Step(s, a).queue
    ensures Step(s, a).holder == None
    ensures var timed := if a.Return? then s.holder.value.timed else s.queue[0].timed;
            Step(s, a).lease == if timed then Some(s.nextLease) else None
  {
    StepInv(s, a);
    var s' := Step(s, a);
    OccurrencesIn(s'.queue, Expire(l));
    assert Pending(s', l) == 0;
  }

  /** A start calls the driver exactly when the commands sent since the last stop do not already amount to it. */
  lemma StartCallsDriver(run: seq<Action>)
    requires Feasible(Init(), run)
    requires var s := After(Init(), run);
             Enabled(s, Enter) && s.queue[0].Start?
    ensures var s := After(Init(), run);
            var op := s.queue[0];
            Step(s, Enter).log ==
            if op.direction in Replay(s.log) && Replay(s.log)[op.direction] == op.rate then s.log
            else s.log + [StartMove(op.direction, op.rate)]
  {
    InitInv();
    RunInv(Init(), run);
  }

  /** In particular, a start that comes after a stop, the lease's or the user's, moves the mount again. */
  lemma StartAfterStop(run: seq<Action>)
    requires Feasible(Init(), run)
    requires var s := After(Init(), run);
             Enabled(s, Enter) && s.queue[0].Start? && s.log != [] && s.log[|s.log| - 1] == StopMove
    ensures var s := After(Init(), run);
            Step(s, Enter).log == s.log + [StartMove(s.queue[0].direction, s.queue[0].rate)]
  {
    StartCallsDriver(run);
  }

  /** An action the protocol takes by itself, without a new call. */
  predicate Internal(a: Action) {
    a.Wake? || a.Enter? || a.Return?
  }

  function Weight(queue: seq<Op>): nat {
    if queue == [] then 0 else (if queue[0].Start? then 5 else 2) + Weight(queue[1..])
  }

  lemma {:induction false} WeightWithout(queue: seq<Op>, l: LeaseId)
    ensures Weight(Without(queue, l)) <= Weight(queue)
  {
    if queue != [] {
      WeightWithout(queue[1..], l);
      if queue[0] != Expire(l) {
        assert Without(queue, l)[1..] == Without(queue[1..], l);
      }
    }
  }

  lemma {:induction false} WeightAppend(queue: seq<Op>, op: Op)
    ensures Weight(queue + [op]) == Weight(queue) + if op.Start? then 5 else 2
  {
    if queue == [] {
      assert queue + [op] == [op];
    } else {
      assert (queue + [op])[1..] == queue[1..] + [op];
      WeightAppend(queue[1..], op);
    }
  }

  /** Work left before the protocol comes to rest when nobody calls. */
  function Work(s: State): nat {
    3 * |s.sleeping| + Weight(s.queue) + match s.holder case None => 0 case Some(op) => if op.Start? then 4 else 1
  }

  lemma CancelWork(s: State, caller: Op)
    ensures Weight(CancelLease(s, caller).queue) <= Weight(s.queue)
    ensures |CancelLease(s, caller).sleeping| <= |s.sleeping|
  {
    if s.lease.Some? {
      WeightWithout(s.queue, s.lease.value);
      if s.lease.value in s.sleeping {
        assert |s.sleeping - {s.lease.value}| == |s.sleeping| - 1;
      } else {
        assert s.sleeping - {s.lease.value} == s.sleeping;
      }
    }
  }

  /** Without new calls every step consumes work, so the protocol comes to rest. */
  lemma InternalStepsEnd(s: State, a: Action)
    requires Enabled(s, a) && Internal(a)
    ensures Work(Step(s, a)) < Work(s)
  {
    match a {
      case Wake(l) =>
        WeightAppend(s.queue, Expire(l));
        assert |s.sleeping - {l}| == |s.sleeping| - 1;
      case Enter =>
        var op, t := s.queue[0], s.(queue := s.queue[1..]);
        if op.Start? {
          FinishWork(t, op.timed);
        } else {
          CancelWork(t, op);
        }
      case Return =>
        var op := s.holder.value;
        if op.Start? {
          FinishWork(s.(moving := s.moving[op.direction := op.rate]), op.timed);
        }
    }
  }

  lemma FinishWork(s: State, timed: bool)
    ensures Work(FinishStart(s, timed)) <= 3 * |s.sleeping| + Weight(s.queue) + 3
  {
    CancelWork(s, Stop);
    var t := CancelLease(s, Stop);
    if t.nextLease in t.sleeping {
      assert t.sleeping + {t.nextLease} == t.sleeping;
    } else {
      assert |t.sleeping + {t.nextLease}| == |t.sleeping| + 1;
    }
  }

  /** At rest, a mount that is still moving was last started without a duration: a nudge nobody renews has ended. */
  lemma NudgeEnds(run: seq<Action>)
    requires Feasible(Init(), run)
    requires forall a :: Internal(a) ==> !Enabled(After(Init(), run), a)
    ensures var s := After(Init(), run);
            s.moving == map[] || s.openEnded
    ensures Replay(After(Init(), run).log) == After(Init(), run).moving
  {
    InitInv();
    RunInv(Init(), run);
    var s := After(Init(), run);
    assert !Enabled(s, Enter) && !Enabled(s, Return);
    assert s.queue == [];
    forall l: LeaseId ensures l !in s.sleeping {
      assert !Enabled(s, Wake(l));
    }
    assert s.lease.Some? ==> Pending(s, s.lease.value) == 0;
  }
}
