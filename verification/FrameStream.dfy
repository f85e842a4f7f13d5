/**
 Latest-wins frame delivery. The code between two awaits is one atomic step, so a subscription moves
 by whole steps: a put, an end, or a reader's turn inside get(). Readers that await the wake event are
 `blocked`; setting the event makes all of them runnable (`woken`) until each takes its turn.
 */
module FrameStream {
  import opened Wrappers

  type ReaderId = nat

  datatype Frame = Frame(number: nat, timestamp: real)

  datatype Cause = CameraFailed(code: int)

  /** One subscription with its history: every frame accepted, and which of them (by position) were delivered. */
  datatype State = State(frame: Option<Frame>, closed: bool, error: Option<Cause>, wake: bool, dropped: nat,
                         blocked: set<ReaderId>, woken: set<ReaderId>,
                         accepted: seq<Frame>, delivered: seq<int>)

  datatype Outcome = Returned(frame: Frame) | Ended(cause: Option<Cause>) | Waits

  const FRESH := State(None, false, None, false, 0, {}, {}, [], [])

  function SetWake(s: State): State {
    s.(wake := true, woken := s.woken + s.blocked, blocked := {})
  }

  function Put(s: State, frame: Frame): State {
    if s.closed then s
    else SetWake(s.(dropped := if s.frame.Some? then s.dropped + 1 else s.dropped, frame := Some(frame),
                    accepted := s.accepted + [frame]))
  }

  function Ending(s: State, error: Option<Cause>): State {
    if s.closed then s else SetWake(s.(closed := true, error := error))
  }

  /** One turn of a reader that is not blocked: it starts get(), or its wait is over. */
  function Turn(s: State, r: ReaderId): (State, Outcome) {
    var s := s.(woken := s.woken - {r});
    if s.frame.Some? then
      (s.(frame := None, delivered := s.delivered + [|s.accepted| - 1]), Returned(s.frame.value))
    else if s.closed then (s, Ended(s.error))
    else (s.(wake := false, blocked := s.blocked + {r}), Waits)
  }

  datatype Op = PutFrame(frame: Frame) | EndStream(error: Option<Cause>) | Get(reader: ReaderId)

  // A blocked reader takes no turn of its own.
  predicate Enabled(s: State, op: Op) {
    op.Get? ==> op.reader !in s.blocked
  }

  function Step(s: State, op: Op): State {
    match op
    case PutFrame(frame) => Put(s, frame)
    case EndStream(error) => Ending(s, error)
    case Get(r) => Turn(s, r).0
  }

  predicate Possible(s: State, ops: seq<Op>)
    decreases |ops|
  {
    ops != [] ==> Enabled(s, ops[0]) && Possible(Step(s, ops[0]), ops[1..])
  }

  function Run(s: State, ops: seq<Op>): State
    decreases |ops|
  {
    if ops == [] then s else Run(Step(s, ops[0]), ops[1..])
  }

  // ---- the invariant ----

  function Pending(s: State): nat {
    if s.frame.Some? then 1 else 0
  }

  /** Delivered positions rise and stay before the pending frame. */
  predicate InOrder(s: State) {
    && (forall i, j :: 0 <= i < j < |s.delivered| ==> s.delivered[i] < s.delivered[j])
    && (forall i :: 0 <= i < |s.delivered| ==> 0 <= s.delivered[i] && s.delivered[i] + Pending(s) < |s.accepted|)
  }

  predicate Inv(s: State) {
    // every accepted frame was delivered, was replaced, or is pending
    && |s.accepted| == |s.delivered| + s.dropped + Pending(s)
    && InOrder(s)
    // the newest accepted frame is the pending one, or has been delivered
    && (s.frame.Some? ==> s.accepted != [] && s.frame.value == s.accepted[|s.accepted| - 1])
    && (s.frame == None && s.accepted != [] ==> s.delivered != [] && s.delivered[|s.delivered| - 1] == |s.accepted| - 1)
    // nobody sleeps through a frame or the end
    && (s.blocked != {} ==> s.frame == None && !s.closed && !s.wake)
    && s.blocked !! s.woken
  }

  lemma StepInv(s: State, op: Op)
    requires Inv(s) && Enabled(s, op)
    ensures Inv(Step(s, op))
  {
    match op
    case PutFrame(frame) => PutInv(s, frame);
    case EndStream(error) =>
    case Get(r) => TurnInv(s, r);
  }

  lemma PutInv(s: State, frame: Frame)
    requires Inv(s)
    ensures Inv(Put(s, frame))
  {
  }

  lemma TurnInv(s: State, r: ReaderId)
    requires Inv(s) && r !in s.blocked
    ensures Inv(Turn(s, r).0)
  {
  }

  lemma {:induction false} RunInv(s: State, ops: seq<Op>)
    requires Inv(s) && Possible(s, ops)
    ensures Inv(Run(s, ops))
    decreases |ops|
  {
    if ops != [] {
      StepInv(s, ops[0]);
      RunInv(Step(s, ops[0]), ops[1..]);
    }
  }

  // ---- whole runs ----

  function Published(ops: seq<Op>): seq<Frame>
    decreases |ops|
  {
    if ops == [] then []
    else (if ops[0].PutFrame? then [ops[0].frame] else []) + Published(ops[1..])
  }

  /** What one step hands out. */
  function Out(s: State, op: Op): seq<Frame> {
    if op.Get? && Turn(s, op.reader).1.Returned? then [Turn(s, op.reader).1.frame] else []
  }

  /** What get() handed out over the run, in order. */
  function Delivered(s: State, ops: seq<Op>): seq<Frame>
    decreases |ops|
  {
    if ops == [] then [] else Out(s, ops[0]) + Delivered(Step(s, ops[0]), ops[1..])
  }

  function FramesAt(s: State): seq<Frame>
    requires InOrder(s)
  {
    seq(|s.delivered|, i requires 0 <= i < |s.delivered| => s.accepted[s.delivered[i]])
  }

  lemma FramesStay(s: State, t: State)
    requires InOrder(s) && InOrder(t) && t.delivered == s.delivered && s.accepted <= t.accepted
    ensures FramesAt(t) == FramesAt(s)
  {
  }

  lemma FramesGrow(s: State, t: State, p: nat)
    requires InOrder(s) && InOrder(t) && t.accepted == s.accepted && t.delivered == s.delivered + [p]
    ensures p < |s.accepted| && FramesAt(t) == FramesAt(s) + [s.accepted[p]]
  {
    assert t.delivered[|s.delivered|] == p;
  }

  lemma StepDelivers(s: State, op: Op)
    requires Inv(s) && Enabled(s, op)
    ensures Inv(Step(s, op)) && FramesAt(Step(s, op)) == FramesAt(s) + Out(s, op)
  {
    StepInv(s, op);
    hide InOrder;
    if Out(s, op) == [] {
      FramesStay(s, Step(s, op));
    } else {
      FramesGrow(s, Step(s, op), |s.accepted| - 1);
    }
  }

  /** The frames get() returned are the accepted frames at the delivered positions. */
  lemma {:induction false} DeliveredFrames(s: State, ops: seq<Op>)
    requires Inv(s) && Possible(s, ops)
    ensures Inv(Run(s, ops))
    ensures FramesAt(Run(s, ops)) == FramesAt(s) + Delivered(s, ops)
    decreases |ops|
  {
    hide Step, Out, InOrder, Enabled, FramesAt;
    if ops != [] {
      StepDelivers(s, ops[0]);
      DeliveredFrames(Step(s, ops[0]), ops[1..]);
    }
  }

  /** Frames published before the end are accepted, later ones ignored. */
  lemma {:induction false} AcceptedFrames(s: State, ops: seq<Op>)
    ensures s.closed ==> Run(s, ops).accepted == s.accepted && Run(s, ops).closed
    ensures !Run(s, ops).closed ==> Run(s, ops).accepted == s.accepted + Published(ops)
    ensures s.accepted <= Run(s, ops).accepted <= s.accepted + Published(ops)
    decreases |ops|
  {
    if ops != [] {
      AcceptedFrames(Step(s, ops[0]), ops[1..]);
    }
  }

  predicate Increasing(frames: seq<Frame>) {
    forall i, j :: 0 <= i < j < |frames| ==> frames[i].number < frames[j].number
  }

  /** A consumer sees sequence numbers strictly increase whenever they do at the publisher. */
  lemma DeliveredIncreasing(ops: seq<Op>)
    requires Possible(FRESH, ops) && Increasing(Published(ops))
    ensures Increasing(Delivered(FRESH, ops))
  {
    var s := Run(FRESH, ops);
    DeliveredFrames(FRESH, ops);
    AcceptedFrames(FRESH, ops);
    assert FramesAt(FRESH) == [];
    assert s.accepted <= Published(ops) && FramesAt(s) == Delivered(FRESH, ops);
    hide Run, Delivered, Published, Inv, Possible;
    PrefixIncreasing(s.accepted, Published(ops));
    FramesIncreasing(s);
  }

  lemma PrefixIncreasing(a: seq<Frame>, b: seq<Frame>)
    requires a <= b && Increasing(b)
    ensures Increasing(a)
  {
    forall i, j | 0 <= i < j < |a| ensures a[i].number < a[j].number {
      assert a[i] == b[i] && a[j] == b[j];
    }
  }

  lemma FramesIncreasing(s: State)
    requires InOrder(s) && Increasing(s.accepted)
    ensures Increasing(FramesAt(s))
  {
  }

  /** Until the end: published = delivered + dropped + pending, for every run. */
  lemma Conservation(ops: seq<Op>)
    requires Possible(FRESH, ops) && !Run(FRESH, ops).closed
    ensures var s := Run(FRESH, ops);
            |Published(ops)| == |Delivered(FRESH, ops)| + s.dropped + Pending(s)
  {
    DeliveredFrames(FRESH, ops);
    AcceptedFrames(FRESH, ops);
    assert FramesAt(FRESH) == [];
  }

  /** Once the stream has ended nothing is delivered but a frame that was already pending. */
  lemma {:induction false} AfterTheEnd(s: State, ops: seq<Op>)
    requires Inv(s) && s.closed && Possible(s, ops)
    ensures Delivered(s, ops) == if s.frame.Some? && Run(s, ops).frame == None then [s.frame.value] else []
    ensures |Delivered(s, ops)| + Pending(Run(s, ops)) == Pending(s)
    decreases |ops|
  {
    if ops != [] {
      StepInv(s, ops[0]);
      ClosedStep(s, ops[0]);
      hide Inv, Step, Out;
      AfterTheEnd(Step(s, ops[0]), ops[1..]);
    }
  }

  /** A closed stream hands out its pending frame or leaves it where it is. */
  lemma ClosedStep(s: State, op: Op)
    requires s.closed
    ensures Step(s, op).closed
    ensures if op.Get? && s.frame.Some? then Out(s, op) == [s.frame.value] && Step(s, op).frame == None
            else Out(s, op) == [] && Step(s, op).frame == s.frame
  {
  }

  /** Any turn of a reader then returns the pending frame, or raises with the cause the stream ended with. */
  lemma EndedReadersLeave(s: State, ops: seq<Op>, error: Option<Cause>, r: ReaderId)
    requires Inv(s) && !s.closed && Possible(s, [EndStream(error)] + ops)
    ensures var now := Run(s, [EndStream(error)] + ops);
            && now.blocked == {}
            && Turn(now, r).1 == if now.frame.Some? then Returned(now.frame.value) else Ended(error)
  {
    var all := [EndStream(error)] + ops;
    assert all[1..] == ops;
    RunInv(s, all);
    ErrorStays(Step(s, all[0]), ops);
  }

  lemma {:induction false} ErrorStays(s: State, ops: seq<Op>)
    requires s.closed
    ensures Run(s, ops).closed && Run(s, ops).error == s.error
    decreases |ops|
  {
    if ops != [] {
      ErrorStays(Step(s, ops[0]), ops[1..]);
    }
  }

  /** No lost wake-up: whenever a frame is pending or the stream is closed, no reader is blocked. */
  lemma NoLostWakeUp(ops: seq<Op>)
    requires Possible(FRESH, ops)
    ensures var s := Run(FRESH, ops); s.frame.Some? || s.closed ==> s.blocked == {}
  {
    RunInv(FRESH, ops);
  }

  // ---- the objects ----

  class FrameSubscription {
    const owner: FrameBroadcaster?
    var frame: Option<Frame>
    var wake: bool
    var closed: bool
    var error: Option<Cause>
    var dropped: nat
    // asyncio's side of the wake event
    var blocked: set<ReaderId>
    var woken: set<ReaderId>
    ghost var accepted: seq<Frame>
    ghost var delivered: seq<int>

    ghost function Now(): State
      reads this
    {
      State(frame, closed, error, wake, dropped, blocked, woken, accepted, delivered)
    }

    ghost predicate Valid()
      reads this
    {
      Inv(Now())
    }

    constructor (owner: FrameBroadcaster?)
      ensures this.owner == owner && Now() == FRESH && Valid()
    {
      this.owner := owner;
      frame, wake, closed, error, dropped, blocked, woken := None, false, false, None, 0, {}, {};
      accepted, delivered := [], [];
    }

    method PutFrame(f: Frame)
      requires Valid()
      modifies this
      ensures Now() == Put(old(Now()), f) && Valid()
    {
      if closed {
        return;
      }
      if frame != None {
        dropped := dropped + 1;
      }
      frame := Some(f);
      accepted := accepted + [f];
      Wake();
      StepInv(old(Now()), Op.PutFrame(f));
    }

    method Wake()
      modifies this`wake, this`blocked, this`woken
      ensures Now() == SetWake(old(Now()))
    {
      wake := true;
      woken := woken + blocked;
      blocked := {};
    }

    method EndWith(cause: Option<Cause>)
      requires Valid()
      modifies this
      ensures Now() == Ending(old(Now()), cause) && Valid()
    {
      if closed {
        return;
      }
      closed := true;
      error := cause;
      Wake();
      StepInv(old(Now()), EndStream(cause));
    }

    /** What get() does between two awaits. */
    method GetTurn(r: ReaderId) returns (out: Outcome)
      requires Valid() && r !in blocked
      modifies this
      ensures (Now(), out) == Turn(old(Now()), r) && Valid()
    {
      woken := woken - {r};
      if frame.Some? {
        out := Returned(frame.value);
        frame := None;
        delivered := delivered + [|accepted| - 1];
      } else if closed {
        out := Ended(error);
      } else {
        wake := false;
        blocked := blocked + {r};
        out := Waits;
      }
      StepInv(old(Now()), Op.Get(r));
    }

    /** Ends the subscription and leaves the broadcaster, whose record of it stops here. */
    method Close()
      requires Valid()
      modifies this, owner
      ensures Now() == Ending(old(Now()), None) && Valid()
      ensures owner != null ==> owner.subscriptions == old(owner.subscriptions) - {this}
      ensures owner != null && old(owner.Valid() && this in owner.joined) ==>
                owner.Valid() && owner.joined == old(owner.joined) && owner.published == old(owner.published)
    {
      EndingKeeps(Now(), None);
      hide Inv, Ending;
      ghost var open := !closed;
      ghost var recorded := owner != null && owner.Valid() && this in owner.joined;
      EndWith(None);
      if owner != null {
        if recorded {
          assert forall s :: s in owner.joined && s != this ==> s.Valid() && owner.Heard(s);
          assert owner.Leaving(this, open);
        }
        owner.Discard(this, open);
      }
    }
  }

  class FrameBroadcaster {
    var subscriptions: set<FrameSubscription>
    // every frame published, and where in it each subscription came and went
    ghost var published: seq<Frame>
    ghost var joined: map<FrameSubscription, nat>
    ghost var gone: map<FrameSubscription, nat>

    /** As Valid, but the subscription has just been closed and is still listed if it was open before. */
    ghost predicate Leaving(sub: FrameSubscription, wasOpen: bool)
      reads this, joined.Keys
    {
      && gone.Keys <= joined.Keys && subscriptions == joined.Keys - gone.Keys
      && sub in joined && sub.closed && (wasOpen <==> sub !in gone)
      && (forall s :: s in joined ==> s.Valid() && s.owner == this)
      && (forall s :: s in joined ==>
            joined[s] <= Until(s) <= |published| && s.accepted == published[joined[s]..Until(s)])
      && (forall s :: s in joined && s != sub ==> (s.closed <==> s in gone))
    }

    /** The on_close callback: the set's discard. */
    method Discard(sub: FrameSubscription, ghost wasOpen: bool)
      modifies this`subscriptions, this`gone
      ensures subscriptions == old(subscriptions) - {sub}
      ensures old(Leaving(sub, wasOpen)) ==> Valid()
    {
      hide Inv, FrameSubscription.Valid, FrameSubscription.Now;
      subscriptions := subscriptions - {sub};
      if wasOpen {
        gone := gone[sub := |published|];
      }
      if old(Leaving(sub, wasOpen)) {
        assert gone.Keys == old(gone.Keys) + {sub};
        forall s | s in joined ensures s.Valid() && s.owner == this && Heard(s) {
          assert s != sub ==> Until(s) == old(Until(s));
        }
      }
    }

    /** The end of the part of the stream the subscription was there for. */
    ghost function Until(sub: FrameSubscription): nat
      reads this
    {
      if sub in gone then gone[sub] else |published|
    }

    /** The subscription accepted exactly what was published while it was there. */
    ghost predicate Heard(sub: FrameSubscription)
      requires sub in joined
      reads this, sub
    {
      && joined[sub] <= Until(sub) <= |published|
      && sub.accepted == published[joined[sub]..Until(sub)]
      && (sub.closed <==> sub in gone)
    }

    ghost predicate Valid()
      reads this, joined.Keys
    {
      && gone.Keys <= joined.Keys && subscriptions == joined.Keys - gone.Keys
      && forall sub :: sub in joined ==> sub.Valid() && sub.owner == this && Heard(sub)
    }

    constructor ()
      ensures subscriptions == {} && joined == map[] && published == [] && Valid()
    {
      subscriptions, joined, gone, published := {}, map[], map[], [];
    }

    method Subscribe() returns (sub: FrameSubscription)
      requires Valid()
      modifies this
      ensures fresh(sub) && sub.Now() == FRESH && sub.owner == this
      ensures subscriptions == old(subscriptions) + {sub} && Valid()
      ensures joined == old(joined)[sub := |published|] && published == old(published)
    {
      hide Inv;
      sub := new FrameSubscription(this);
      subscriptions := subscriptions + {sub};
      joined := joined[sub := |published|];
    }

    method Publish(f: Frame)
      requires Valid()
      modifies this`published, subscriptions
      ensures subscriptions == old(subscriptions) && Valid()
      ensures published == old(published) + [f]
      ensures forall sub :: sub in subscriptions ==> sub.Now() == Put(old(sub.Now()), f)
    {
      hide Inv, Put;
      assert forall sub :: sub in joined ==> Heard(sub);
      PutAll(f);
      forall sub | sub in subscriptions ensures !sub.closed && sub.accepted == old(sub.accepted) + [f] {
        PutAccepts(old(sub.Now()), f);
      }
      Record(f);
    }

    /** The frame goes on record once every open subscription has it. */
    ghost method Record(f: Frame)
      requires gone.Keys <= joined.Keys && subscriptions == joined.Keys - gone.Keys
      requires forall sub :: sub in joined ==> sub.Valid() && sub.owner == this
      requires forall sub :: sub in joined ==> joined[sub] <= Until(sub) <= |published| && (sub.closed <==> sub in gone)
      requires forall sub :: sub in joined ==>
                 sub.accepted == published[joined[sub]..Until(sub)] + if sub in gone then [] else [f]
      modifies this`published
      ensures published == old(published) + [f] && Valid()
    {
      hide Inv;
      ghost var before := published;
      published := published + [f];
      forall sub | sub in joined ensures Heard(sub) {
        SliceGrows(before, f, joined[sub], if sub in gone then gone[sub] else |before|);
      }
    }

    /** publish's loop. */
    method PutAll(f: Frame)
      requires forall sub :: sub in subscriptions ==> sub.Valid()
      modifies subscriptions
      ensures forall sub :: sub in subscriptions ==> sub.Valid() && sub.Now() == Put(old(sub.Now()), f)
    {
      hide Inv, Put;
      var left := subscriptions;
      while left != {}
        invariant left <= subscriptions
        invariant forall sub :: sub in subscriptions ==> sub.Valid()
        invariant forall sub :: sub in subscriptions ==>
                    sub.Now() == if sub in left then old(sub.Now()) else Put(old(sub.Now()), f)
      {
        var sub :| sub in left;
        sub.PutFrame(f);
        left := left - {sub};
      }
    }

    method End(cause: Option<Cause>)
      requires Valid()
      modifies this, subscriptions
      ensures subscriptions == {} && Valid()
      ensures joined == old(joined) && published == old(published)
      ensures forall sub :: sub in old(subscriptions) ==> sub.Now() == Ending(old(sub.Now()), cause)
    {
      hide Inv, Ending;
      assert forall sub :: sub in joined ==> Heard(sub);
      EndAll(cause);
      forall sub | sub in subscriptions ensures sub.closed && sub.accepted == old(sub.accepted) {
        EndingKeeps(old(sub.Now()), cause);
      }
      LeaveAll();
    }

    /** The ended subscriptions leave, each at the present end of the stream. */
    method LeaveAll()
      requires gone.Keys <= joined.Keys && subscriptions == joined.Keys - gone.Keys
      requires forall sub :: sub in joined ==> sub.Valid() && sub.owner == this
      requires forall sub :: sub in joined ==>
                 joined[sub] <= Until(sub) <= |published| && sub.closed
                 && sub.accepted == published[joined[sub]..Until(sub)]
      modifies this`subscriptions, this`gone
      ensures subscriptions == {} && Valid()
    {
      hide Inv;
      ghost var leaving: map<FrameSubscription, nat> := map sub | sub in subscriptions :: |published|;
      assert leaving.Keys == subscriptions && forall sub :: sub in leaving ==> leaving[sub] == |published|;
      gone := gone + leaving;
      subscriptions := {};
      hide FrameSubscription.Valid, FrameSubscription.Now;
      assert gone.Keys == joined.Keys;
      forall sub | sub in joined ensures Heard(sub) {
        assert Until(sub) == old(Until(sub));
      }
    }

    /** end's loop. */
    method EndAll(cause: Option<Cause>)
      requires forall sub :: sub in subscriptions ==> sub.Valid()
      modifies subscriptions
      ensures forall sub :: sub in subscriptions ==> sub.Valid() && sub.Now() == Ending(old(sub.Now()), cause)
    {
      hide Inv, Ending;
      var left := subscriptions;
      while left != {}
        invariant left <= subscriptions
        invariant forall sub :: sub in subscriptions ==> sub.Valid()
        invariant forall sub :: sub in subscriptions ==>
                    sub.Now() == if sub in left then old(sub.Now()) else Ending(old(sub.Now()), cause)
      {
        var sub :| sub in left;
        sub.EndWith(cause);
        left := left - {sub};
      }
    }

    /** A reader's turn leaves the record as it is. */
    method ReaderTurn(sub: FrameSubscription, r: ReaderId) returns (out: Outcome)
      requires Valid() && sub in joined && r !in sub.blocked
      modifies sub
      ensures (sub.Now(), out) == Turn(old(sub.Now()), r) && Valid()
    {
      hide Inv;
      TurnKeeps(sub.Now(), r);
      out := sub.GetTurn(r);
    }

    /**
     At every moment, for every subscription ever made: the frames it accepted are those published from
     its start until its end, and each of them was delivered, was dropped or is pending.
     */
    lemma SubscriptionView(sub: FrameSubscription)
      requires Valid() && sub in joined
      ensures joined[sub] <= Until(sub) <= |published|
      ensures sub.accepted == published[joined[sub]..Until(sub)]
      ensures sub.closed <==> sub !in subscriptions
      ensures InOrder(sub.Now())
      ensures Until(sub) - joined[sub] == |FramesAt(sub.Now())| + sub.dropped + Pending(sub.Now())
    {
      assert sub.Valid() && Heard(sub);
    }
  }

  lemma SliceGrows(frames: seq<Frame>, f: Frame, i: nat, j: nat)
    requires i <= j <= |frames|
    ensures (frames + [f])[i..j] == frames[i..j] + []
    ensures (frames + [f])[i..|frames| + 1] == frames[i..|frames|] + [f]
  {
  }

  lemma PutAccepts(s: State, f: Frame)
    ensures Put(s, f).accepted == if s.closed then s.accepted else s.accepted + [f]
    ensures Put(s, f).closed == s.closed
  {
  }

  lemma EndingKeeps(s: State, error: Option<Cause>)
    ensures Ending(s, error).accepted == s.accepted && Ending(s, error).closed
  {
  }

  lemma TurnKeeps(s: State, r: ReaderId)
    ensures Turn(s, r).0.accepted == s.accepted && Turn(s, r).0.closed == s.closed
  {
  }
}
