/** The host event fan-out: one bounded queue per subscriber, which drops its oldest event when a new
    one finds it full. */
module Events {
  import opened Clock
  import opened Domain

  const QUEUE_MAXSIZE := 100

  datatype Event = Event(host: int, before: HostStatus, after: HostStatus, reason: Reason)

  /** A subscriber's queue with its history, by event number: `joined` events had been published when
      it subscribed and `seen` by now (or when it left); `items` are the queued ones from number
      `head` on; `taken` and `lost` are the numbers that left the queue, and `delivered` the events.
      `subscribed` says that the broker's list holds the queue, `reading` that its subscriber is there. */
  datatype Box = Box(
    joined: nat,
    head: nat,
    seen: nat,
    items: seq<Event>,
    taken: seq<nat>,
    delivered: seq<Event>,
    lost: seq<nat>,
    subscribed: bool,
    reading: bool)

  function NewBox(published: nat): Box {
    Box(published, published, published, [], [], [], [], true, true)
  }

  /** Put when there is room; otherwise drop the oldest and put. */
  function Offer(b: Box, e: Event): Box {
    if !b.subscribed then b
    else if |b.items| < QUEUE_MAXSIZE then b.(items := b.items + [e], seen := b.seen + 1)
    else b.(items := b.items[1..] + [e], seen := b.seen + 1, head := b.head + 1, lost := b.lost + [b.head])
  }

  function Get(b: Box): Box {
    if |b.items| == 0 then b
    else
      b.(
        items := b.items[1..],
        head := b.head + 1,
        taken := b.taken + [b.head],
        delivered := b.delivered + [b.items[0]])
  }

  ghost predicate Increasing(s: seq<nat>) {
    forall i, j :: 0 <= i < j < |s| ==> s[i] < s[j]
  }

  /** The queue is exactly the latest contiguous run of what was published since the subscription, at
      most 100 long; every earlier event was delivered or lost, never both; deliveries are in order
      and without repeats; and what was lost is at least 100 events old. */
  ghost predicate Sound(published: seq<Event>, b: Box) {
    && b.joined <= b.head <= b.seen <= |published|
    && b.items == published[b.head..b.seen] && |b.items| <= QUEUE_MAXSIZE
    && Increasing(b.taken) && Increasing(b.lost)
    && |b.delivered| == |b.taken|
    && (forall i :: 0 <= i < |b.taken| ==> b.joined <= b.taken[i] < b.head && b.delivered[i] == published[b.taken[i]])
    && (forall i :: 0 <= i < |b.lost| ==> b.joined <= b.lost[i] < b.head && b.lost[i] + QUEUE_MAXSIZE < b.seen)
    && (forall n :: b.joined <= n < b.head ==> (n in b.taken <==> n !in b.lost))
    && (b.subscribed ==> b.seen == |published|)
  }

  /** The queue after an offer holds the latest of what has been published. */
  lemma OfferItems(published: seq<Event>, b: Box, e: Event)
    requires Sound(published, b) && b.subscribed
    ensures var b' := Offer(b, e);
      && b'.seen == |published| + 1
      && b'.items == (published + [e])[b'.head..b'.seen] && |b'.items| <= QUEUE_MAXSIZE
  {
    var b' := Offer(b, e);
    assert b'.items == (published + [e])[b'.head..b'.seen];
  }

  /** What an offer drops is the oldest, and it has not been delivered. */
  lemma OfferLost(published: seq<Event>, b: Box, e: Event)
    requires Sound(published, b) && b.subscribed
    ensures var b' := Offer(b, e);
      && b'.taken == b.taken && b'.delivered == b.delivered && b'.joined == b.joined <= b'.head <= b'.seen
      && Increasing(b'.lost)
      && (forall i :: 0 <= i < |b'.lost| ==> b.joined <= b'.lost[i] < b'.head && b'.lost[i] + QUEUE_MAXSIZE < b'.seen)
      && (forall n :: b.joined <= n < b'.head ==> (n in b'.taken <==> n !in b'.lost))
  {
    var b' := Offer(b, e);
    forall n | b.joined <= n < b'.head
      ensures n in b'.taken <==> n !in b'.lost
    {
    }
  }

  lemma OfferSound(published: seq<Event>, b: Box, e: Event)
    requires Sound(published, b)
    ensures Sound(published + [e], Offer(b, e))
  {
    if b.subscribed {
      OfferItems(published, b, e);
      OfferLost(published, b, e);
    } else {
      assert (published + [e])[b.head..b.seen] == published[b.head..b.seen];
    }
  }

  lemma GetSound(published: seq<Event>, b: Box)
    requires Sound(published, b)
    ensures Sound(published, Get(b))
  {
    var b' := Get(b);
    forall n | b'.joined <= n < b'.head
      ensures n in b'.taken <==> n !in b'.lost
    {
    }
  }

  /** The broker with the queues of all who ever subscribed. */
  datatype Feed = Feed(published: seq<Event>, boxes: seq<Box>, closed: bool)

  datatype Action = Publish(event: Event) | Subscribe | Take(box: nat) | Unsubscribe(box: nat) | Close

  /** Closing empties the broker's list; it stops no subscriber, and refuses no new one. */
  function Act(f: Feed, a: Action): Feed {
    match a
    case Publish(e) =>
      if f.closed then f
      else
        var boxes := seq(|f.boxes|, i requires 0 <= i < |f.boxes| => Offer(f.boxes[i], e));
        f.(published := f.published + [e], boxes := boxes)
    case Subscribe => f.(boxes := f.boxes + [NewBox(|f.published|)])
    case Take(k) => if k < |f.boxes| && f.boxes[k].reading then f.(boxes := f.boxes[k := Get(f.boxes[k])]) else f
    case Unsubscribe(k) =>
      if k < |f.boxes| then f.(boxes := f.boxes[k := f.boxes[k].(subscribed := false, reading := false)]) else f
    case Close =>
      f.(boxes := seq(|f.boxes|, i requires 0 <= i < |f.boxes| => f.boxes[i].(subscribed := false)), closed := true)
  }

  function Perform(actions: seq<Action>): Feed {
    if |actions| == 0 then Feed([], [], false) else Act(Perform(actions[..|actions| - 1]), actions[|actions| - 1])
  }

  ghost predicate AllSound(f: Feed) {
    forall k :: 0 <= k < |f.boxes| ==> Sound(f.published, f.boxes[k])
  }

  lemma ActSound(f: Feed, a: Action)
    requires AllSound(f)
    ensures AllSound(Act(f, a))
  {
    forall k | 0 <= k < |Act(f, a).boxes|
      ensures Sound(Act(f, a).published, Act(f, a).boxes[k])
    {
      if k < |f.boxes| {
        assert Sound(f.published, f.boxes[k]);
        if a.Publish? && !f.closed {
          OfferSound(f.published, f.boxes[k], a.event);
        } else {
          GetSound(f.published, f.boxes[k]);
        }
      }
    }
  }

  /** For every interleaving of publish, subscribe, take, unsubscribe and close, every queue is sound. */
  lemma {:induction false} QueuesSound(actions: seq<Action>)
    ensures AllSound(Perform(actions))
  {
    if |actions| > 0 {
      QueuesSound(actions[..|actions| - 1]);
      ActSound(Perform(actions[..|actions| - 1]), actions[|actions| - 1]);
    }
  }

  /** Action `k` publishes the hundredth event after event `n` while queue `box` still holds `n`. */
  ghost predicate Overruns(actions: seq<Action>, k: nat, box: nat, n: nat)
    requires k < |actions|
  {
    var f := Perform(actions[..k]);
    && actions[k].Publish? && !f.closed && |f.published| == n + QUEUE_MAXSIZE
    && box < |f.boxes| && f.boxes[box].subscribed && f.boxes[box].joined <= n && f.boxes[box].head <= n
  }

  /** A publish drops event `n` exactly when it is the hundredth after `n` and `n` is still queued. */
  lemma OfferDrops(published: seq<Event>, b: Box, e: Event, n: nat)
    requires Sound(published, b)
    ensures n in Offer(b, e).lost <==>
      n in b.lost || (b.subscribed && |published| == n + QUEUE_MAXSIZE && b.joined <= n && b.head <= n)
  {
  }

  /** One action loses event `n` to a queue exactly when it overruns it. */
  lemma LostByOne(actions: seq<Action>, m: nat, box: nat, n: nat)
    requires m < |actions| && box < |Perform(actions[..m]).boxes|
    ensures box < |Perform(actions[..m + 1]).boxes|
    ensures n in Perform(actions[..m + 1]).boxes[box].lost <==>
      n in Perform(actions[..m]).boxes[box].lost || Overruns(actions, m, box, n)
  {
    var f, a := Perform(actions[..m]), actions[m];
    assert actions[..m + 1][..m] == actions[..m];
    QueuesSound(actions[..m]);
    assert Sound(f.published, f.boxes[box]);
    if a.Publish? && !f.closed {
      OfferDrops(f.published, f.boxes[box], a.event, n);
    }
  }

  /** An event is lost to a queue exactly when it is still queued as the hundredth later one comes. */
  lemma {:induction false} LostIffOverrun(actions: seq<Action>, m: nat, box: nat, n: nat)
    requires m <= |actions| && box < |Perform(actions[..m]).boxes|
    ensures n in Perform(actions[..m]).boxes[box].lost <==> exists k :: 0 <= k < m && Overruns(actions, k, box, n)
  {
    if m > 0 && box < |Perform(actions[..m - 1]).boxes| {
      LostIffOverrun(actions, m - 1, box, n);
      LostByOne(actions, m - 1, box, n);
    } else if m > 0 {
      NewcomerLostNone(actions, m, box, n);
    }
  }

  /** A queue that has just joined has lost nothing, and was not there to be overrun. */
  lemma NewcomerLostNone(actions: seq<Action>, m: nat, box: nat, n: nat)
    requires 0 < m <= |actions| && |Perform(actions[..m - 1]).boxes| <= box < |Perform(actions[..m]).boxes|
    ensures n !in Perform(actions[..m]).boxes[box].lost
    ensures forall k :: 0 <= k < m ==> !Overruns(actions, k, box, n)
  {
    assert actions[..m][..m - 1] == actions[..m - 1];
    BoxesStay(actions, m - 1);
  }

  /** Queues are only ever added. */
  lemma {:induction false} BoxesStay(actions: seq<Action>, m: nat)
    requires m <= |actions|
    ensures forall k :: 0 <= k <= m ==> |Perform(actions[..k]).boxes| <= |Perform(actions[..m]).boxes|
  {
    if m > 0 {
      BoxesStay(actions, m - 1);
      assert actions[..m][..m - 1] == actions[..m - 1];
    }
  }

  /** `n` event numbers in a row. */
  function Numbers(first: nat, n: nat): seq<nat> {
    seq(n, k => first + k)
  }

  /** `later` is the queue after its subscriber took the oldest `n` events, which are delivered in order
      under their own numbers. */
  ghost predicate TookOldest(earlier: Box, later: Box, n: nat) {
    && n <= |earlier.items|
    && later.items == earlier.items[n..]
    && later.delivered == earlier.delivered + earlier.items[..n]
    && later.head == earlier.head + n
    && later.taken == earlier.taken + Numbers(earlier.head, n)
    && later.lost == earlier.lost && later.seen == earlier.seen && later.reading == earlier.reading
  }

  lemma TakeOne(f: Feed, box: nat)
    requires box < |f.boxes| && f.boxes[box].reading
    ensures var f' := Act(f, Take(box));
      && |f'.boxes| == |f.boxes| && f'.published == f.published
      && (forall k :: 0 <= k < |f.boxes| && k != box ==> f'.boxes[k] == f.boxes[k])
      && (f.boxes[box].items == [] ==> f'.boxes[box] == f.boxes[box])
      && (f.boxes[box].items != [] ==> TookOldest(f.boxes[box], f'.boxes[box], 1))
  {
  }

  lemma TookMore(a: Box, b: Box, c: Box, n: nat)
    requires TookOldest(a, b, n) && TookOldest(b, c, 1)
    ensures TookOldest(a, c, n + 1)
  {
    assert a.items[n..][1..] == a.items[n + 1..];
    assert a.items[..n] + a.items[n..][..1] == a.items[..n + 1];
    assert Numbers(a.head, n) + Numbers(a.head + n, 1) == Numbers(a.head, n + 1);
  }

  function Takes(box: nat, n: nat): seq<Action> {
    seq(n, i => Take(box))
  }

  /** In any state an interleaving reaches, `n` takes in a row deliver the `n` oldest queued events, each
      once and in order, and leave the rest queued. */
  lemma {:induction false} TakesDeliver(actions: seq<Action>, box: nat, n: nat)
    requires box < |Perform(actions).boxes| && Perform(actions).boxes[box].reading
    requires n <= |Perform(actions).boxes[box].items|
    ensures var f := Perform(actions + Takes(box, n));
      box < |f.boxes| && TookOldest(Perform(actions).boxes[box], f.boxes[box], n)
  {
    if n == 0 {
      assert actions + Takes(box, 0) == actions;
    } else {
      TakesDeliver(actions, box, n - 1);
      var before := actions + Takes(box, n - 1);
      assert (actions + Takes(box, n))[..|actions| + n - 1] == before;
      assert Perform(actions + Takes(box, n)) == Act(Perform(before), Take(box));
      TakeOne(Perform(before), box);
      TookMore(Perform(actions).boxes[box], Perform(before).boxes[box],
        Perform(actions + Takes(box, n)).boxes[box], n - 1);
    }
  }

  /** Nothing has reached the queue since `earlier`, and nothing can have been lost to it since. */
  ghost predicate OnlyDrained(earlier: Box, later: Box) {
    && later.seen == earlier.seen && later.joined == earlier.joined && later.lost == earlier.lost
    && |later.items| <= |earlier.items| && later.items == earlier.items[|earlier.items| - |later.items|..]
    && later.delivered + later.items == earlier.delivered + earlier.items
  }

  /** `f` is closed and `g` is reached from it: whoever was there only drains its queue, and whoever
      joined since has an empty one and was given nothing. */
  ghost predicate Silent(f: Feed, g: Feed) {
    && f.closed && g.closed && g.published == f.published && |f.boxes| <= |g.boxes|
    && (forall k :: 0 <= k < |f.boxes| ==> OnlyDrained(f.boxes[k], g.boxes[k]) && !f.boxes[k].subscribed)
    && (forall k :: |f.boxes| <= k < |g.boxes| ==>
          g.boxes[k].items == [] && g.boxes[k].delivered == [] && g.boxes[k].lost == [])
  }

  lemma DrainOne(earlier: Box, later: Box)
    requires OnlyDrained(earlier, later)
    ensures OnlyDrained(earlier, Get(later))
  {
    if |later.items| > 0 {
      var k := |earlier.items| - |later.items|;
      assert earlier.items[k..][1..] == earlier.items[k + 1..];
      assert [later.items[0]] + later.items[1..] == later.items;
      assert later.delivered + ([later.items[0]] + later.items[1..]) ==
        later.delivered + [later.items[0]] + later.items[1..];
    }
  }

  lemma SilentAct(f: Feed, g: Feed, a: Action)
    requires Silent(f, g)
    ensures Silent(f, Act(g, a))
  {
    if a.Take? && a.box < |f.boxes| {
      DrainOne(f.boxes[a.box], g.boxes[a.box]);
    }
  }

  /** After closing: no event is published, lost or added to any queue any more. Who subscribed before
      still takes what was queued, in order; who subscribes later is accepted and gets nothing, ever. */
  lemma {:induction false} ClosedIsSilent(actions: seq<Action>, k: nat)
    requires k < |actions| && actions[k].Close?
    ensures Silent(Perform(actions[..k + 1]), Perform(actions))
  {
    if |actions| == k + 1 {
      assert actions[..k + 1] == actions;
    } else {
      var n := |actions| - 1;
      assert actions[..n][..k + 1] == actions[..k + 1];
      ClosedIsSilent(actions[..n], k);
      SilentAct(Perform(actions[..k + 1]), Perform(actions[..n]), actions[n]);
    }
  }

  /** An asyncio queue of bounded size. `box` is its history. */
  class Queue {
    var items: seq<Event>
    ghost var box: Box

    constructor (ghost published: nat)
      ensures items == [] && box == NewBox(published)
    {
      items := [];
      box := NewBox(published);
    }

    /** put_nowait: refuses when the queue is full. */
    method PutNowait(e: Event) returns (full: bool)
      modifies this`items
      ensures full <==> |old(items)| >= QUEUE_MAXSIZE
      ensures items == if full then old(items) else old(items) + [e]
    {
      full := |items| >= QUEUE_MAXSIZE;
      if !full {
        items := items + [e];
      }
    }

    /** get_nowait: nothing to get from an empty queue. */
    method GetNowait() returns (e: Option<Event>)
      modifies this`items
      ensures old(items) == [] ==> e.None? && items == []
      ensures old(items) != [] ==> e == Some(old(items)[0]) && items == old(items)[1..]
    {
      if |items| == 0 {
        return None;
      }
      e := Some(items[0]);
      items := items[1..];
    }
  }

  class HostEventBroker {
    var subscribers: seq<Queue>
    var closed: bool
    ghost var published: seq<Event>

    /** Subscribers are distinct, and the queue of each is sound against what was published; once the
        broker is closed, those who still join have empty queues. */
    ghost predicate Valid()
      reads this, subscribers
    {
      && (forall i, j :: 0 <= i < j < |subscribers| ==> subscribers[i] != subscribers[j])
      && (forall q :: q in subscribers ==>
            q.items == q.box.items && q.box.subscribed && Sound(published, q.box) && (closed ==> q.items == []))
    }

    constructor ()
      ensures Valid() && subscribers == [] && !closed && published == []
    {
      subscribers := [];
      closed := false;
      published := [];
    }

    /** Fan-out: every queue gets the event, a full one at the price of its oldest; the second refusal
        cannot happen. After closing nothing is published. */
    method Publish(event: Event)
      requires Valid()
      modifies this`published, subscribers
      ensures Valid()
      ensures published == if closed then old(published) else old(published) + [event]
      ensures closed ==> forall q :: q in subscribers ==> unchanged(q)
      ensures !closed ==> forall q :: q in subscribers ==> q.box == Offer(old(q.box), event) && q.items == q.box.items
    {
      if closed {
        return;
      }
      var i := 0;
      while i < |subscribers|
        invariant 0 <= i <= |subscribers| && published == old(published)
        invariant forall k :: i <= k < |subscribers| ==> unchanged(subscribers[k])
        invariant forall k :: 0 <= k < i ==>
          && subscribers[k].box == Offer(old(subscribers[k].box), event)
          && subscribers[k].items == subscribers[k].box.items
      {
        var queue := subscribers[i];
        assert queue in subscribers && Sound(published, queue.box);
        PutOrDropOldest(queue, event);
        queue.box := Offer(queue.box, event);
        i := i + 1;
      }
      published := published + [event];
      forall q | q in subscribers
        ensures q.items == q.box.items && q.box.subscribed && Sound(published, q.box)
      {
        OfferSound(old(published), old(q.box), event);
      }
    }

    /** Put; when the queue is full, drop its oldest event and put again, which cannot be refused. */
    method PutOrDropOldest(queue: Queue, event: Event)
      modifies queue`items
      ensures queue.items ==
        if |old(queue.items)| < QUEUE_MAXSIZE then old(queue.items) + [event]
        else if |old(queue.items)| == QUEUE_MAXSIZE then old(queue.items)[1..] + [event]
        else old(queue.items)[1..]
    {
      var full := queue.PutNowait(event);
      if full {
        var oldest := queue.GetNowait();
        full := queue.PutNowait(event);
        assert |old(queue.items)| == QUEUE_MAXSIZE ==> !full;
      }
    }

    /** A new queue sees what is published from now on. */
    method Subscribe() returns (queue: Queue)
      requires Valid()
      modifies this`subscribers
      ensures Valid() && fresh(queue)
      ensures subscribers == old(subscribers) + [queue]
      ensures queue.items == [] && queue.box == NewBox(|published|)
    {
      queue := new Queue(|published|);
      subscribers := subscribers + [queue];
    }

    /** One turn of a subscriber's loop: the oldest queued event, when there is one. What is queued when
        the broker closes can still be taken. */
    method Take(queue: Queue) returns (e: Option<Event>)
      requires Valid() && (!closed ==> queue in subscribers)
      modifies queue
      ensures Valid()
      ensures queue.items == if old(queue.items) == [] then [] else old(queue.items)[1..]
      ensures queue.box == Get(old(queue.box))
      ensures e == if old(queue.items) == [] then None else Some(old(queue.items)[0])
      ensures closed && queue in subscribers ==> e.None?
    {
      e := queue.GetNowait();
      queue.box := Get(queue.box);
      if queue in subscribers {
        GetSound(published, old(queue.box));
      }
    }

    /** The subscriber leaves; the other queues and their order stay. */
    method Unsubscribe(queue: Queue)
      requires Valid()
      modifies this`subscribers
      ensures Valid()
      ensures queue !in subscribers
      ensures forall q :: q != queue ==> (q in subscribers <==> q in old(subscribers))
    {
      var i := 0;
      while i < |subscribers| && subscribers[i] != queue
        invariant 0 <= i <= |subscribers| && forall k :: 0 <= k < i ==> subscribers[k] != queue
      {
        i := i + 1;
      }
      if i < |subscribers| {
        subscribers := subscribers[..i] + subscribers[i + 1..];
      }
    }

    /** What is queued when the broker closes stays with its subscribers, who are off the list. */
    method Close()
      requires Valid()
      modifies this`subscribers, this`closed
      ensures Valid() && closed && subscribers == []
    {
      closed := true;
      subscribers := [];
    }
  }
}
