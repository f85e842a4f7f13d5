/**
 The event bus: every subscriber reads from a queue of its own; a bounded queue that is full loses its
 oldest event when the next one is published. Each publish runs without an await, so it is one step.
 */
module EventBus {
  import opened Lists

  datatype Event = Event(kind: string, id: nat)

  const HISTORY_SIZE: nat := 10_000

  // ---- one queue and its history ----

  /**
   `since` are the events published while subscribed, `taken` the positions in it of the events the
   consumer got, `dropped` how many were thrown away. maxsize <= 0 means unbounded.
   */
  datatype QueueState = QueueState(maxsize: int, items: seq<Event>, since: seq<Event>, taken: seq<int>, dropped: nat)

  predicate IsFull(q: QueueState) {
    q.maxsize > 0 && |q.items| >= q.maxsize
  }

  function Offered(q: QueueState, e: Event): QueueState {
    var q := if IsFull(q) then q.(items := q.items[1..], dropped := q.dropped + 1) else q;
    q.(items := q.items + [e], since := q.since + [e])
  }

  function Consumed(q: QueueState): QueueState
    requires q.items != []
  {
    q.(items := q.items[1..], taken := q.taken + [|q.since| - |q.items|])
  }

  predicate QueueInv(q: QueueState) {
    && (q.maxsize > 0 ==> |q.items| <= q.maxsize)
    // the queue is a suffix of what was published
    && |q.items| <= |q.since| && q.items == q.since[|q.since| - |q.items|..]
    // published = consumed + queued + dropped
    && |q.since| == |q.taken| + |q.items| + q.dropped
    && (forall i, j :: 0 <= i < j < |q.taken| ==> q.taken[i] < q.taken[j])
    && (forall i :: 0 <= i < |q.taken| ==> 0 <= q.taken[i] < |q.since| - |q.items|)
    && (q.maxsize <= 0 ==> q.dropped == 0)
  }

  lemma FreshInv(maxsize: int)
    ensures QueueInv(QueueState(maxsize, [], [], [], 0))
  {
  }

  lemma OfferedInv(q: QueueState, e: Event)
    requires QueueInv(q)
    ensures QueueInv(Offered(q, e))
  {
    var n := |q.since| - |q.items|;
    assert IsFull(q) ==> q.items[1..] == q.since[n + 1..];
  }

  lemma OfferedSince(q: QueueState, e: Event)
    ensures Offered(q, e).since == q.since + [e]
  {
  }

  lemma ConsumedInv(q: QueueState)
    requires QueueInv(q) && q.items != []
    ensures QueueInv(Consumed(q))
  {
    assert q.items[1..] == q.since[|q.since| - |q.items| + 1..];
  }

  /** What the consumer got, in order. */
  function Received(q: QueueState): seq<Event>
    requires QueueInv(q)
  {
    seq(|q.taken|, i requires 0 <= i < |q.taken| => q.since[q.taken[i]])
  }

  lemma ConsumedReceives(q: QueueState)
    requires QueueInv(q) && q.items != [] && QueueInv(Consumed(q))
    ensures Received(Consumed(q)) == Received(q) + [q.items[0]]
  {
  }

  /** Positions that rise by at least one each time, all of them used, are the identity. */
  lemma {:induction false} Tight(taken: seq<int>, n: nat)
    requires forall i, j :: 0 <= i < j < |taken| ==> taken[i] < taken[j]
    requires forall i :: 0 <= i < |taken| ==> 0 <= taken[i] < n
    ensures |taken| <= n
    ensures |taken| == n ==> forall i :: 0 <= i < n ==> taken[i] == i
    decreases n
  {
    if taken != [] {
      var k := |taken| - 1;
      Tight(taken[..k], taken[k]);
    }
  }

  /** An unbounded subscriber loses nothing: what it got and what waits is exactly what was published. */
  lemma UnboundedLosesNothing(q: QueueState)
    requires QueueInv(q) && q.maxsize <= 0
    ensures Received(q) + q.items == q.since
  {
    Tight(q.taken, |q.since| - |q.items|);
  }

  /** As long as nothing was dropped a bounded subscriber has lost nothing either, and conversely. */
  lemma LossIsCounted(q: QueueState)
    requires QueueInv(q)
    ensures Received(q) + q.items == q.since <==> q.dropped == 0
  {
    Tight(q.taken, |q.since| - |q.items|);
  }

  // ---- sums ----

  function Sum(xs: seq<nat>): nat {
    if xs == [] then 0 else Sum(xs[..|xs| - 1]) + xs[|xs| - 1]
  }

  lemma {:induction false} SumUpdate(xs: seq<nat>, k: nat, n: nat)
    requires k < |xs|
    ensures Sum(xs[k := n]) == Sum(xs) - xs[k] + n
    decreases |xs|
  {
    var m := |xs| - 1;
    if k < m {
      SumUpdate(xs[..m], k, n);
      assert xs[k := n][..m] == xs[..m][k := n];
    } else {
      assert xs[k := n][..m] == xs[..m];
    }
  }

  lemma SumZero(xs: seq<nat>)
    ensures Sum(xs + [0]) == Sum(xs)
  {
    assert (xs + [0])[..|xs|] == xs;
  }

  // ---- the objects ----

  /** asyncio.Queue as the bus and its consumers use it. */
  class Queue {
    const maxsize: int
    var items: seq<Event>
    ghost var since: seq<Event>
    ghost var taken: seq<int>
    ghost var dropped: nat

    ghost function Now(): QueueState
      reads this
    {
      QueueState(maxsize, items, since, taken, dropped)
    }

    constructor (maxsize: int)
      ensures Now() == QueueState(maxsize, [], [], [], 0)
    {
      this.maxsize := maxsize;
      items, since, taken, dropped := [], [], [], 0;
    }

    predicate Full()
      reads this
      ensures Full() <==> IsFull(Now())
    {
      maxsize > 0 && |items| >= maxsize
    }

    // get_nowait by the bus
    method DropOldest()
      requires items != []
      modifies this
      ensures Now() == old(Now()).(items := old(items)[1..], dropped := old(dropped) + 1)
    {
      items := items[1..];
      dropped := dropped + 1;
    }

    // get by the consumer
    method Take() returns (e: Event)
      requires items != [] && QueueInv(Now())
      modifies this
      ensures e == old(items)[0] && Now() == Consumed(old(Now())) && QueueInv(Now())
    {
      ConsumedInv(Now());
      e := items[0];
      taken := taken + [|since| - |items|];
      items := items[1..];
    }

    method PutNowait(e: Event)
      requires !Full()
      modifies this
      ensures Now() == old(Now()).(items := old(items) + [e], since := old(since) + [e])
    {
      items := items + [e];
      since := since + [e];
    }
  }

  /** Python list.remove: the first occurrence goes, if there is one. */
  function Without(queues: seq<Queue>, q: Queue): seq<Queue> {
    if queues == [] then []
    else if queues[0] == q then queues[1..]
    else [queues[0]] + Without(queues[1..], q)
  }

  lemma {:induction false} WithoutMembers(queues: seq<Queue>, q: Queue)
    requires forall i, j :: 0 <= i < j < |queues| ==> queues[i] != queues[j]
    ensures forall p :: p in Without(queues, q) <==> p in queues && p != q
    ensures forall i, j :: 0 <= i < j < |Without(queues, q)| ==> Without(queues, q)[i] != Without(queues, q)[j]
  {
    if queues != [] {
      WithoutMembers(queues[1..], q);
      assert queues[0] !in queues[1..];
    }
  }

  class EventBus {
    var subscribers: seq<Queue>
    var history: seq<Event>
    var dropped: map<Queue, nat>
    var droppedTotal: nat
    ghost var published: seq<Event>
    ghost var ever: seq<Queue>
    ghost var joined: seq<nat>

    /** Drop counts of all queues that ever subscribed. */
    ghost function Drops(): seq<nat>
      reads this, ever
    {
      seq(|ever|, i requires 0 <= i < |ever| reads this, ever => ever[i].dropped)
    }

    ghost predicate Listed()
      reads this
    {
      && |joined| == |ever|
      && (forall i, j :: 0 <= i < j < |ever| ==> ever[i] != ever[j])
      && (forall i, j :: 0 <= i < j < |subscribers| ==> subscribers[i] != subscribers[j])
      && (forall q :: q in subscribers ==> q in ever)
      && (forall q :: q in dropped ==> q in subscribers)
    }

    /** Queue k, while subscribed, was offered everything published since it joined. */
    ghost predicate Subscribed(k: nat)
      requires k < |ever| == |joined|
      reads this, ever
    {
      && joined[k] <= |published|
      && (ever[k] in subscribers ==>
            && ever[k].since == published[joined[k]..]
            && ever[k].dropped == if ever[k] in dropped then dropped[ever[k]] else 0)
    }

    ghost predicate Valid()
      reads this, ever
    {
      && Listed()
      && (forall q :: q in ever ==> QueueInv(q.Now()))
      && (forall k :: 0 <= k < |ever| ==> Subscribed(k))
      && droppedTotal == Sum(Drops())
      && history == Suffix(published, HISTORY_SIZE)
    }

    constructor ()
      ensures Valid() && ever == [] && published == [] && history == []
    {
      subscribers, history, dropped, droppedTotal := [], [], map[], 0;
      published, ever, joined := [], [], [];
    }

    method Subscribe(maxsize: int) returns (q: Queue)
      requires Valid()
      modifies this
      ensures fresh(q) && q.Now() == QueueState(maxsize, [], [], [], 0)
      ensures subscribers == old(subscribers) + [q] && ever == old(ever) + [q] && joined == old(joined) + [|published|]
      ensures published == old(published) && Valid()
    {
      FreshInv(maxsize);
      hide Valid, QueueInv;
      q := new Queue(maxsize);
      Join(q);
    }

    /** The new queue joins the subscribers, at the present end of what was published. */
    method Join(q: Queue)
      requires Valid() && q !in ever && QueueInv(q.Now()) && q.since == [] && q.dropped == 0
      modifies this`subscribers, this`ever, this`joined
      ensures subscribers == old(subscribers) + [q] && ever == old(ever) + [q] && joined == old(joined) + [|published|]
      ensures Valid()
    {
      hide QueueInv, Sum, Suffix;
      ghost var before := Drops();
      subscribers := subscribers + [q];
      ever := ever + [q];
      joined := joined + [|published|];
      assert Drops() == before + [0];
      SumZero(before);
      forall k | 0 <= k < |ever| ensures Subscribed(k) {
        assert k < |ever| - 1 ==> ever[k] in old(ever) && old(Subscribed(k));
      }
    }

    method Unsubscribe(q: Queue)
      requires Valid()
      modifies this
      ensures subscribers == Without(old(subscribers), q) && dropped == old(dropped) - {q}
      ensures ever == old(ever) && joined == old(joined) && published == old(published) && Valid()
    {
      WithoutMembers(subscribers, q);
      dropped := dropped - {q};
      subscribers := Without(subscribers, q);
      assert Drops() == old(Drops());
      forall k | 0 <= k < |ever| ensures Subscribed(k) {
        assert old(Subscribed(k));
      }
    }

    /** Subscribed queues, and the counters the bus keeps for them. */
    ghost predicate Counted()
      reads this, ever, subscribers
    {
      && (forall q :: q in subscribers ==> q.dropped == if q in dropped then dropped[q] else 0)
      && (forall q :: q in dropped ==> q in subscribers)
      && droppedTotal == Sum(Drops())
    }

    /** A full queue loses its oldest event, and the drop is counted. */
    method DropFor(q: Queue)
      requires Listed() && Counted() && q in subscribers && q.items != []
      modifies this`dropped, this`droppedTotal, q
      ensures q.Now() == old(q.Now()).(items := old(q.items)[1..], dropped := old(q.dropped) + 1)
      ensures Listed() && Counted()
    {
      hide Sum;
      ghost var k :| 0 <= k < |ever| && ever[k] == q;
      ghost var before := Drops();
      q.DropOldest();
      dropped := dropped[q := (if q in dropped then dropped[q] else 0) + 1];
      droppedTotal := droppedTotal + 1;
      SumUpdate(before, k, q.dropped);
      assert Drops() == before[k := q.dropped];
    }

    /** The body of publish's loop. */
    method Offer(q: Queue, e: Event)
      requires Listed() && Counted() && q in subscribers && QueueInv(q.Now())
      modifies this`dropped, this`droppedTotal, q
      ensures q.Now() == Offered(old(q.Now()), e)
      ensures Listed() && Counted()
    {
      assert q.maxsize > 0 ==> |q.items| <= q.maxsize;
      hide QueueInv, Sum;
      if q.Full() {
        DropFor(q);
      }
      ghost var drops := Drops();
      q.PutNowait(e);
      assert Drops() == drops;
    }

    /** publish's loop. */
    method OfferAll(e: Event)
      requires Listed() && Counted() && forall q :: q in ever ==> QueueInv(q.Now())
      modifies this`dropped, this`droppedTotal, subscribers
      ensures Listed() && Counted()
      ensures forall q :: q in subscribers ==> q.Now() == Offered(old(q.Now()), e)
    {
      hide QueueInv, Offered, Sum;
      for i := 0 to |subscribers|
        invariant Listed() && Counted()
        invariant forall q :: q in subscribers[..i] ==> q.Now() == Offered(old(q.Now()), e)
        invariant forall q :: q in ever && q !in subscribers[..i] ==> q.Now() == old(q.Now())
      {
        Offer(subscribers[i], e);
      }
    }

    lemma SubscribersCounted()
      requires Valid()
      ensures Counted()
    {
      forall q | q in subscribers ensures q.dropped == if q in dropped then dropped[q] else 0 {
        var k :| 0 <= k < |ever| && ever[k] == q;
        assert Subscribed(k);
      }
    }

    method Publish(e: Event)
      requires Valid()
      modifies this`history, this`dropped, this`droppedTotal, this`published, subscribers
      ensures published == old(published) + [e]
      ensures forall q :: q in subscribers ==> q.Now() == Offered(old(q.Now()), e)
      ensures Valid()
    {
      hide QueueInv, Offered, Sum, Append;
      SubscribersCounted();
      SuffixAppend(published, e, HISTORY_SIZE);
      history := Append(history, e, HISTORY_SIZE);
      published := published + [e];
      assert Drops() == old(Drops());
      OfferAll(e);
      forall q | q in ever ensures QueueInv(q.Now()) {
        OfferedInv(old(q.Now()), e);
      }
      forall k | 0 <= k < |ever| ensures Subscribed(k) {
        assert old(Subscribed(k));
        OfferedSince(old(ever[k].Now()), e);
        assert published[joined[k]..] == old(published)[joined[k]..] + [e];
      }
    }

    /** A consumer takes the next event of its queue. */
    method Consume(q: Queue) returns (e: Event)
      requires Valid() && q in ever && q.items != []
      modifies q
      ensures e == old(q.items)[0] && q.Now() == Consumed(old(q.Now())) && Valid()
    {
      e := q.Take();
      assert Drops() == old(Drops());
      forall k | 0 <= k < |ever| ensures Subscribed(k) {
        assert old(Subscribed(k));
      }
    }

    /**
     At every moment: a subscriber's queue is a suffix of the events published, those since it joined
     are the consumed, the queued and the dropped ones, and without a bound none is missing.
     */
    lemma SubscriberView(k: nat)
      requires Valid() && k < |ever| && ever[k] in subscribers
      ensures joined[k] <= |published|
      ensures var q := ever[k].Now(); var since := published[joined[k]..];
              && QueueInv(q)
              && |q.items| <= |since| && q.items == published[|published| - |q.items|..]
              && |since| == |Received(q)| + |q.items| + (if ever[k] in dropped then dropped[ever[k]] else 0)
              && (q.maxsize <= 0 ==> Received(q) + q.items == since)
    {
      var q := ever[k].Now();
      assert Subscribed(k) && q.since == published[joined[k]..] && QueueInv(q);
      if q.maxsize <= 0 {
        UnboundedLosesNothing(q);
      }
    }

    method GetHistory() returns (events: seq<Event>)
      requires Valid()
      ensures events == Suffix(published, HISTORY_SIZE)
    {
      events := history;
    }
  }
}
