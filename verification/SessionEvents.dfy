/**
 The event log of one session and its live fan-out: publishing, subscribing with a replay
 cursor, receiving, and the paged reads of the session server. The channel is tokio's bounded
 broadcast: each receiver has a queue of at most `fanout` undelivered events, and one that
 falls behind loses the oldest and is told how many it missed.
 */
module SessionEvents {
  import opened Prelude

  datatype Envelope<P> = Envelope(sequence: nat, payload: P)

  /** Events number lo+1 to hi of the session's history, as they were published. */
  function Stamped<P>(history: seq<P>, lo: nat, hi: nat): (r: seq<Envelope<P>>)
    requires lo <= hi <= |history|
    ensures |r| == hi - lo
    ensures forall i :: 0 <= i < |r| ==> r[i] == Envelope(lo + i + 1, history[lo + i])
  {
    seq(hi - lo, i requires 0 <= i < hi - lo => Envelope(lo + i + 1, history[lo + i]))
  }

  lemma StampedGrows<P>(history: seq<P>, more: seq<P>, lo: nat, hi: nat)
    requires lo <= hi <= |history|
    ensures Stamped(history + more, lo, hi) == Stamped(history, lo, hi)
  {
  }

  datatype ReplayGap = ReplayGap(requestedAfter: nat, availableAfter: nat)

  /** What a subscriber has been handed: an event, or a report of missed events. */
  datatype Observation<P> = Got(event: Envelope<P>) | Lagged(missed: nat)

  /** A subscriber: its replay, its live queue, the events missed and not yet reported. */
  datatype Subscription<P> = Subscription(
    start: nat,
    gap: Option<ReplayGap>,
    replay: seq<Envelope<P>>,
    queue: seq<Envelope<P>>,
    missed: nat,
    seen: seq<Observation<P>>)

  datatype Limits = Limits(replayEvents: nat, fanout: nat)

  /** Limits that the supervisor accepts. */
  predicate Legal(limits: Limits) {
    limits.replayEvents >= 1 && limits.fanout >= 1
  }

  datatype Session<P> = Session(
    retained: seq<Envelope<P>>,
    latest: nat,
    dropped: nat,
    subscribers: map<nat, Subscription<P>>)

  // ----- the operations

  /** The broadcast queue of one receiver when an event is sent. */
  function Deliver<P>(fanout: nat, sub: Subscription<P>, event: Envelope<P>): Subscription<P>
    requires fanout >= 1
  {
    if |sub.queue| < fanout then sub.(queue := sub.queue + [event])
    else sub.(queue := sub.queue[1..] + [event], missed := sub.missed + 1)
  }

  function Publish<P>(limits: Limits, s: Session<P>, payload: P): Session<P>
    requires Legal(limits)
  {
    var event := Envelope(s.latest + 1, payload);
    var all := s.retained + [event];
    var cut := if |all| > limits.replayEvents then |all| - limits.replayEvents else 0;
    Session(all[cut..], s.latest + 1,
            if cut > 0 then all[cut - 1].sequence else s.dropped,
            map id | id in s.subscribers :: Deliver(limits.fanout, s.subscribers[id], event))
  }

  function After<P>(events: seq<Envelope<P>>, cursor: nat): seq<Envelope<P>> {
    if events == [] then []
    else (if events[0].sequence > cursor then [events[0]] else []) + After(events[1..], cursor)
  }

  /** `None` when the cursor is newer than the stream. */
  function Subscribe<P>(s: Session<P>, after: nat): Option<Subscription<P>> {
    if after > s.latest then None
    else
      var gap := if after < s.dropped then Some(ReplayGap(after, s.dropped)) else None;
      var cursor := Max(after, s.dropped);
      Some(Subscription(cursor, gap, After(s.retained, cursor), [], 0, []))
  }

  /** One receive: replay first, then a lag report, then the live queue; `None` when nothing waits. */
  function Receive<P>(sub: Subscription<P>): (Subscription<P>, Option<Observation<P>>) {
    if sub.replay != [] then
      (sub.(replay := sub.replay[1..], seen := sub.seen + [Got(sub.replay[0])]), Some(Got(sub.replay[0])))
    else if sub.missed > 0 then
      (sub.(missed := 0, seen := sub.seen + [Lagged(sub.missed)]), Some(Lagged(sub.missed)))
    else if sub.queue != [] then
      (sub.(queue := sub.queue[1..], seen := sub.seen + [Got(sub.queue[0])]), Some(Got(sub.queue[0])))
    else (sub, None)
  }

  // ----- what holds in every reachable session

  /** Walking the observations of a subscriber from `at`: the next number it expects, if all agree with `history`. */
  function Walk<P(==)>(history: seq<P>, at: nat, seen: seq<Observation<P>>): Option<nat> {
    if seen == [] then Some(at)
    else match Walk(history, at, seen[..|seen| - 1])
      case None => None
      case Some(n) =>
        match seen[|seen| - 1]
        case Lagged(missed) => if n + missed <= |history| && missed > 0 then Some(n + missed) else None
        case Got(event) => if n < |history| && event == Envelope(n + 1, history[n]) then Some(n + 1) else None
  }

  /**
   A subscriber has seen every event after `start` once, in order and as published, except those
   inside a reported lag; what it will see next is its replay, then a lag, then the queue, up to
   the newest event.
   */
  ghost predicate Joined<P>(history: seq<P>, limits: Limits, sub: Subscription<P>) {
    && sub.start <= |history|
    && Walk(history, sub.start, sub.seen).Some?
    && Ahead(history, limits, Walk(history, sub.start, sub.seen).value, sub)
  }

  /** What lies before a subscriber that has come as far as event number `at`. */
  ghost predicate Ahead<P>(history: seq<P>, limits: Limits, at: nat, sub: Subscription<P>) {
    && at + |sub.replay| + sub.missed + |sub.queue| == |history|
    && sub.replay == Stamped(history, at, at + |sub.replay|)
    && sub.queue == Stamped(history, |history| - |sub.queue|, |history|)
    && |sub.queue| <= limits.fanout
    && (sub.missed > 0 ==> |sub.queue| == limits.fanout)
  }

  /** `history` is everything ever published; the log keeps its newest `replayEvents`. */
  ghost predicate Consistent<P>(limits: Limits, history: seq<P>, s: Session<P>) {
    && s.latest == |history|
    && s.dropped == Max(0, |history| - limits.replayEvents)
    && s.retained == Stamped(history, s.dropped, |history|)
    && (forall id :: id in s.subscribers ==> Joined(history, limits, s.subscribers[id]))
  }

  lemma {:induction false} WalkGrows<P>(history: seq<P>, more: seq<P>, at: nat, seen: seq<Observation<P>>)
    requires Walk(history, at, seen).Some?
    ensures Walk(history + more, at, seen) == Walk(history, at, seen)
  {
    if seen != [] {
      WalkGrows(history, more, at, seen[..|seen| - 1]);
    }
  }

  lemma WalkNext<P>(history: seq<P>, start: nat, seen: seq<Observation<P>>, next: Observation<P>)
    requires Walk(history, start, seen).Some?
    requires var at := Walk(history, start, seen).value;
      match next
      case Lagged(missed) => missed > 0 && at + missed <= |history|
      case Got(event) => at < |history| && event == Envelope(at + 1, history[at])
    ensures Walk(history, start, seen + [next]) ==
      Some(Walk(history, start, seen).value + if next.Lagged? then next.missed else 1)
  {
    assert (seen + [next])[..|seen|] == seen;
  }

  lemma DeliverKeepsJoined<P>(history: seq<P>, limits: Limits, sub: Subscription<P>, payload: P)
    requires Legal(limits) && Joined(history, limits, sub)
    ensures Joined(history + [payload], limits, Deliver(limits.fanout, sub, Envelope(|history| + 1, payload)))
  {
    WalkGrows(history, [payload], sub.start, sub.seen);
    DeliverKeepsAhead(history, limits, Walk(history, sub.start, sub.seen).value, sub, payload);
  }

  lemma DeliverKeepsAhead<P>(history: seq<P>, limits: Limits, at: nat, sub: Subscription<P>, payload: P)
    requires Legal(limits) && Ahead(history, limits, at, sub)
    ensures Ahead(history + [payload], limits, at, Deliver(limits.fanout, sub, Envelope(|history| + 1, payload)))
  {
    StampedGrows(history, [payload], at, at + |sub.replay|);
  }

  lemma PublishKeepsConsistent<P>(limits: Limits, history: seq<P>, s: Session<P>, payload: P)
    requires Legal(limits) && Consistent(limits, history, s)
    ensures Consistent(limits, history + [payload], Publish(limits, s, payload))
  {
    var p := Publish(limits, s, payload);
    forall id | id in p.subscribers ensures Joined(history + [payload], limits, p.subscribers[id]) {
      DeliverKeepsJoined(history, limits, s.subscribers[id], payload);
    }
    PublishKeepsLog(limits, history, s, payload);
  }

  lemma PublishKeepsLog<P>(limits: Limits, history: seq<P>, s: Session<P>, payload: P)
    requires Legal(limits) && s.latest == |history| && s.dropped == Max(0, |history| - limits.replayEvents)
    requires s.retained == Stamped(history, s.dropped, |history|)
    ensures var p, longer := Publish(limits, s, payload), history + [payload];
      && p.latest == |longer| && p.dropped == Max(0, |longer| - limits.replayEvents)
      && p.retained == Stamped(longer, p.dropped, |longer|)
  {
    var all := s.retained + [Envelope(s.latest + 1, payload)];
    assert all == Stamped(history + [payload], s.dropped, |history| + 1);
  }

  lemma {:induction false} AfterStamped<P>(history: seq<P>, lo: nat, hi: nat, cursor: nat)
    requires lo <= hi <= |history| && lo <= cursor <= hi
    ensures After(Stamped(history, lo, hi), cursor) == Stamped(history, cursor, hi)
    decreases hi - lo
  {
    var all := Stamped(history, lo, hi);
    if lo < hi {
      assert all[1..] == Stamped(history, lo + 1, hi);
      if lo < cursor {
        AfterStamped(history, lo + 1, hi, cursor);
      } else {
        AfterStampedAll(history, lo + 1, hi, cursor);
        assert all == [all[0]] + all[1..];
      }
    }
  }

  lemma {:induction false} AfterStampedAll<P>(history: seq<P>, lo: nat, hi: nat, cursor: nat)
    requires cursor <= lo <= hi <= |history|
    ensures After(Stamped(history, lo, hi), cursor) == Stamped(history, lo, hi)
    decreases hi - lo
  {
    var all := Stamped(history, lo, hi);
    if lo < hi {
      assert all[1..] == Stamped(history, lo + 1, hi);
      AfterStampedAll(history, lo + 1, hi, cursor);
      assert After(all, cursor) == [all[0]] + all[1..];
    }
  }

  /**
   A subscription starts at the later of the cursor and the dropped events: its replay is exactly
   what follows, up to the newest event, and a gap is reported iff events were dropped in between.
   */
  lemma SubscribeJoins<P>(limits: Limits, history: seq<P>, s: Session<P>, after: nat)
    requires Consistent(limits, history, s)
    ensures Subscribe(s, after).None? <==> after > |history|
    ensures after <= |history| ==>
      var sub := Subscribe(s, after).value;
      && Joined(history, limits, sub)
      && sub.start == Max(after, s.dropped)
      && sub.replay == Stamped(history, sub.start, |history|)
      && (sub.gap.Some? <==> after < s.dropped)
      && (sub.gap.Some? ==> sub.gap.value == ReplayGap(after, sub.start))
  {
    if after <= |history| {
      AfterStamped(history, s.dropped, |history|, Max(after, s.dropped));
    }
  }

  lemma ReceiveKeepsJoined<P>(history: seq<P>, limits: Limits, sub: Subscription<P>)
    requires Joined(history, limits, sub)
    ensures Joined(history, limits, Receive(sub).0)
  {
    ReceiveKeepsAhead(history, limits, Walk(history, sub.start, sub.seen).value, sub);
    var (next, seen) := Receive(sub);
    if seen.Some? {
      ReceiveRecords(sub);
      WalkNext(history, sub.start, sub.seen, seen.value);
    }
  }

  lemma ReceiveRecords<P>(sub: Subscription<P>)
    requires Receive(sub).1.Some?
    ensures Receive(sub).0.start == sub.start && Receive(sub).0.seen == sub.seen + [Receive(sub).1.value]
  {
  }

  /** What a subscriber receives next is the next event as published, or the missed stretch. */
  lemma ReceiveKeepsAhead<P>(history: seq<P>, limits: Limits, at: nat, sub: Subscription<P>)
    requires Ahead(history, limits, at, sub)
    ensures var (next, seen) := Receive(sub);
      match seen
      case None => next == sub && at == |history|
      case Some(Lagged(missed)) => missed > 0 && at + missed <= |history| && Ahead(history, limits, at + missed, next)
      case Some(Got(event)) =>
        at < |history| && event == Envelope(at + 1, history[at]) && Ahead(history, limits, at + 1, next)
    ensures Receive(sub).1.Some? && Receive(sub).1.value.Lagged? ==>
      |history| == at + Receive(sub).1.value.missed + limits.fanout && sub.replay == []
  {
    if sub.replay != [] {
      assert sub.replay[1..] == Stamped(history, at + 1, at + |sub.replay|);
    } else if sub.missed > 0 {
      assert [] == Stamped(history, at + sub.missed, at + sub.missed);
    } else if sub.queue != [] {
      assert [] == Stamped(history, at + 1, at + 1);
      assert sub.queue[1..] == Stamped(history, |history| - |sub.queue| + 1, |history|);
    }
  }

  // ----- runs

  datatype Step<P> =
    | PublishStep(payload: P)
    | SubscribeStep(id: nat, after: nat)
    | ReceiveStep(id: nat)
    | DropStep(id: nat)

  function Take<P>(limits: Limits, s: Session<P>, step: Step<P>): Session<P>
    requires Legal(limits)
  {
    match step
    case PublishStep(payload) => if s.latest >= U64_MAX then s else Publish(limits, s, payload)
    case SubscribeStep(id, after) =>
      if Subscribe(s, after).Some? then s.(subscribers := s.subscribers[id := Subscribe(s, after).value]) else s
    case ReceiveStep(id) =>
      if id in s.subscribers then s.(subscribers := s.subscribers[id := Receive(s.subscribers[id]).0]) else s
    case DropStep(id) => s.(subscribers := s.subscribers - {id})
  }

  /** A step leaves every other subscriber as it is; a publication only adds to what lies before it. */
  lemma TakeSparesOthers<P>(limits: Limits, s: Session<P>, step: Step<P>, other: nat)
    requires Legal(limits) && other in s.subscribers && (step.PublishStep? || step.id != other)
    ensures other in Take(limits, s, step).subscribers
    ensures var before, after := s.subscribers[other], Take(limits, s, step).subscribers[other];
      && (!step.PublishStep? ==> after == before)
      && after.start == before.start && after.gap == before.gap && after.replay == before.replay && after.seen == before.seen
  {
  }

  /** A step that is not a publication leaves the log as it is. */
  lemma OnlyPublishingChangesTheLog<P>(limits: Limits, s: Session<P>, step: Step<P>)
    requires Legal(limits) && !step.PublishStep?
    ensures Take(limits, s, step).(subscribers := s.subscribers) == s
  {
  }

  function Run<P>(limits: Limits, s: Session<P>, steps: seq<Step<P>>): Session<P>
    requires Legal(limits)
  {
    if steps == [] then s else Take(limits, Run(limits, s, steps[..|steps| - 1]), steps[|steps| - 1])
  }

  /** Everything published along a run from an empty session. */
  function Published<P>(steps: seq<Step<P>>): seq<P> {
    if steps == [] then []
    else
      var before := Published(steps[..|steps| - 1]);
      var step := steps[|steps| - 1];
      if step.PublishStep? && |before| < U64_MAX then before + [step.payload] else before
  }

  /**
   In every interleaving of publishing, subscribing and receiving, the log retains exactly the
   newest events and every subscriber's view joins replay and live stream without hole or
   duplicate.
   */
  lemma {:induction false} RunIsConsistent<P>(limits: Limits, steps: seq<Step<P>>)
    requires Legal(limits)
    ensures Consistent(limits, Published(steps), Run(limits, Session([], 0, 0, map[]), steps))
  {
    var empty: Session<P> := Session([], 0, 0, map[]);
    if steps != [] {
      var prefix, step := steps[..|steps| - 1], steps[|steps| - 1];
      RunIsConsistent(limits, prefix);
      var s, history := Run(limits, empty, prefix), Published(prefix);
      match step
      case PublishStep(payload) =>
        if s.latest < U64_MAX { PublishKeepsConsistent(limits, history, s, payload); }
      case SubscribeStep(id, after) => SubscribeJoins(limits, history, s, after);
      case ReceiveStep(id) =>
        if id in s.subscribers { ReceiveKeepsJoined(history, limits, s.subscribers[id]); }
      case DropStep(id) =>
    }
  }

  /** A subscriber that was never told of a lag has seen a contiguous stretch, each event once. */
  lemma {:induction false} NoLagNoHole<P>(history: seq<P>, start: nat, seen: seq<Observation<P>>)
    requires Walk(history, start, seen).Some?
    requires forall i :: 0 <= i < |seen| ==> seen[i].Got?
    ensures Walk(history, start, seen) == Some(start + |seen|)
    ensures |seen| > 0 ==> start + |seen| <= |history|
    ensures forall i :: 0 <= i < |seen| ==> start + i < |history| && seen[i].event == Envelope(start + i + 1, history[start + i])
  {
    if seen != [] {
      NoLagNoHole(history, start, seen[..|seen| - 1]);
      assert forall i :: 0 <= i < |seen| - 1 ==> seen[..|seen| - 1][i] == seen[i];
    }
  }

  // ----- the session as the code updates it

  datatype PublishError = SequenceExhausted

  /** Pops events from the front until the rest fits, noting the number of the last one dropped. */
  method DropSurplus<P>(limit: nat, all: seq<Envelope<P>>, before: nat) returns (kept: seq<Envelope<P>>, dropped: nat)
    ensures var cut := if |all| > limit then |all| - limit else 0;
      kept == all[cut..] && dropped == if cut > 0 then all[cut - 1].sequence else before
  {
    kept, dropped := all, before;
    ghost var cut := 0;
    while |kept| > limit
      invariant cut <= |all| && kept == all[cut..]
      invariant cut == 0 || |kept| >= limit
      invariant dropped == if cut > 0 then all[cut - 1].sequence else before
    {
      dropped := kept[0].sequence;
      kept := kept[1..];
      cut := cut + 1;
    }
  }

  class SessionHub<P> {
    const limits: Limits
    var retained: seq<Envelope<P>>
    var latest: nat
    var dropped: nat
    var subscribers: map<nat, Subscription<P>>
    ghost var history: seq<P>

    ghost function View(): Session<P>
      reads this
    {
      Session(retained, latest, dropped, subscribers)
    }

    ghost predicate Valid()
      reads this
    {
      Legal(limits) && Consistent(limits, history, View())
    }

    constructor (limits: Limits)
      requires Legal(limits)
      ensures Valid() && history == [] && subscribers == map[] && this.limits == limits
    {
      this.limits := limits;
      retained, latest, dropped, subscribers, history := [], 0, 0, map[], [];
    }

    method DoPublish(payload: P) returns (r: Result<Envelope<P>, PublishError>)
      requires Valid()
      modifies this
      ensures Valid()
      ensures old(latest) < U64_MAX ==>
        && r == Ok(Envelope(|old(history)| + 1, payload))
        && history == old(history) + [payload]
        && View() == Publish(limits, old(View()), payload)
      ensures old(latest) >= U64_MAX ==> r == Err(SequenceExhausted) && View() == old(View()) && history == old(history)
    {
      if latest >= U64_MAX {
        return Err(SequenceExhausted);
      }
      var event := Envelope(latest + 1, payload);
      PublishKeepsConsistent(limits, history, View(), payload);
      latest := latest + 1;
      retained, dropped := DropSurplus(limits.replayEvents, retained + [event], dropped);
      subscribers := map id | id in subscribers :: Deliver(limits.fanout, subscribers[id], event);
      history := history + [payload];
      assert View() == Publish(limits, old(View()), payload);
      return Ok(event);
    }

    /** Registers a subscriber under the log's lock, or refuses a cursor from the future. */
    method DoSubscribe(id: nat, after: nat) returns (ok: bool)
      requires Valid()
      modifies this
      ensures Valid() && history == old(history) && latest == old(latest) && dropped == old(dropped)
      ensures ok <==> after <= |history|
      ensures ok ==>
        && id in subscribers && Subscribe(old(View()), after) == Some(subscribers[id])
        && subscribers == old(subscribers)[id := subscribers[id]]
      ensures !ok ==> subscribers == old(subscribers)
    {
      SubscribeJoins(limits, history, View(), after);
      if after > latest {
        return false;
      }
      var gap := if after < dropped then Some(ReplayGap(after, dropped)) else None;
      var cursor := Max(after, dropped);
      subscribers := subscribers[id := Subscription(cursor, gap, After(retained, cursor), [], 0, [])];
      return true;
    }

    method DoReceive(id: nat) returns (seen: Option<Observation<P>>)
      requires Valid() && id in subscribers
      modifies this
      ensures Valid() && history == old(history) && latest == old(latest) && dropped == old(dropped)
      ensures subscribers == old(subscribers)[id := Receive(old(subscribers)[id]).0]
      ensures seen == Receive(old(subscribers)[id]).1
    {
      ReceiveKeepsJoined(history, limits, subscribers[id]);
      var (next, observation) := Receive(subscribers[id]);
      subscribers := subscribers[id := next];
      return observation;
    }

    /** What a subscriber has and has been told, apart from its live queue. */
    ghost function Known(id: nat): (nat, Option<ReplayGap>, seq<Envelope<P>>, seq<Observation<P>>)
      requires id in subscribers
      reads this
    {
      var sub := subscribers[id];
      (sub.start, sub.gap, sub.replay, sub.seen)
    }

    /** Other tasks publish while a reader is between two receives. */
    method OthersPublish(id: nat, payloads: seq<P>)
      requires Valid() && id in subscribers
      modifies this
      ensures Valid() && old(history) <= history
      ensures |old(history)| < U64_MAX && payloads != [] ==> |history| > |old(history)|
      ensures id in subscribers && Known(id) == old(Known(id))
    {
      for i := 0 to |payloads|
        invariant Valid() && old(history) <= history
        invariant |old(history)| < U64_MAX && i > 0 ==> |history| > |old(history)|
        invariant id in subscribers && Known(id) == old(Known(id))
      {
        var _ := DoPublish(payloads[i]);
      }
    }

    /** A reader subscribes. */
    method BeginRead(id: nat, after: nat) returns (gap: Option<Option<ReplayGap>>)
      requires Valid()
      modifies this
      ensures Valid() && history == old(history)
      ensures gap.None? <==> after > |history|
      ensures gap.Some? ==> id in subscribers && Reading(subscribers[id], after, |history|, gap.value, [])
    {
      SubscribedIsReading(limits, history, View(), after);
      var subscribed := DoSubscribe(id, after);
      return if subscribed then Some(subscribers[id].gap) else None;
    }

    /** A reader takes what is at hand. */
    method TakeAtHand(
      id: nat, ghost after: nat, ghost newest: nat, gap: Option<ReplayGap>, events: seq<Envelope<P>>)
      returns (seen: Option<Observation<P>>)
      requires Valid() && id in subscribers && Reading(subscribers[id], after, newest, gap, events)
      modifies this
      ensures Valid() && history == old(history) && id in subscribers
      ensures seen.None? ==> Reading(subscribers[id], after, newest, gap, events) && subscribers[id].start + |events| == |history|
      ensures seen.Some? && seen.value.Got? ==> Reading(subscribers[id], after, newest, gap, events + [seen.value.event])
      ensures seen.Some? && seen.value.Lagged? ==>
        seen.value.missed > 0 && |history| >= newest + limits.fanout + seen.value.missed
    {
      LagIsLong(history, limits, subscribers[id], after, newest, gap, events);
      seen := DoReceive(id);
    }

    /** One turn of a reader: others publish, then it takes what is at hand. */
    method Turn(
      id: nat, payloads: seq<P>, ghost after: nat, ghost newest: nat, gap: Option<ReplayGap>, events: seq<Envelope<P>>)
      returns (seen: Option<Observation<P>>)
      requires Valid() && id in subscribers && Reading(subscribers[id], after, newest, gap, events)
      modifies this
      ensures Valid() && old(history) <= history && id in subscribers
      ensures |old(history)| < U64_MAX && payloads != [] ==> |history| > |old(history)|
      ensures seen.None? ==> Reading(subscribers[id], after, newest, gap, events) && subscribers[id].start + |events| == |history|
      ensures seen.Some? && seen.value.Got? ==> Reading(subscribers[id], after, newest, gap, events + [seen.value.event])
      ensures seen.Some? && seen.value.Lagged? ==>
        seen.value.missed > 0 && |history| >= newest + limits.fanout + seen.value.missed
    {
      OthersPublish(id, payloads);
      seen := TakeAtHand(id, after, newest, gap, events);
    }
  }

  // ----- reading a session page by page

  datatype Batch<P> = Batch(events: seq<Envelope<P>>, next: nat, gap: Option<ReplayGap>)

  datatype ReadError = CursorAhead | SubscriptionLagged(missed: nat)

  /** What a page read after number `after` holds, in a session with this history. */
  ghost predicate GoodBatch<P>(history: seq<P>, after: nat, batch: Batch<P>) {
    var from := if batch.gap.Some? then batch.gap.value.availableAfter else after;
    && (batch.gap.Some? ==> batch.gap.value.requestedAfter == after < from && batch.events != [])
    && from + |batch.events| <= |history|
    && batch.events == Stamped(history, from, from + |batch.events|)
    && batch.next == if batch.events == [] then after else from + |batch.events|
  }

  /**
   One page read: subscribe, then take what is at hand, up to `maximum` events, while others
   publish (`others(i)` before the i-th receive). If nothing is at hand and `wait` allows it, the
   reader waits once for an event before it gives up.
   */
  method ReadSessionEvents<P>(hub: SessionHub<P>, id: nat, after: nat, maximum: nat, wait: bool, others: nat -> seq<P>)
    returns (r: Result<Batch<P>, ReadError>)
    requires hub.Valid() && maximum >= 1
    modifies hub
    ensures hub.Valid() && old(hub.history) <= hub.history
    ensures r.Ok? ==> GoodBatch(hub.history, after, r.value) && |r.value.events| <= maximum
    ensures r == Err(CursorAhead) <==> after > |old(hub.history)|
    ensures r.Ok? ==> |r.value.events| == maximum || r.value.next == |hub.history|
    ensures r.Ok? && r.value.events == [] && |hub.history| < U64_MAX ==> others(0) == [] && (wait ==> others(1) == [])
    ensures r.Err? && r.error.SubscriptionLagged? ==>
      && r.error.missed > 0
      && |hub.history| >= |old(hub.history)| + hub.limits.fanout + r.error.missed
    ensures after <= |old(hub.history)| && |hub.history| <= |old(hub.history)| + hub.limits.fanout ==> r.Ok?
  {
    ghost var newest := |hub.history|;
    var subscribed := hub.BeginRead(id, after);
    if subscribed.None? {
      return Err(CursorAhead);
    }
    var gap := subscribed.value;
    var events, lag := CollectPage(hub, id, after, newest, gap, maximum, wait, others);
    if lag.Some? {
      return Err(SubscriptionLagged(lag.value));
    }
    PageIsGood(hub, id, after, newest, gap, events);
    var next := if events == [] then after else events[|events| - 1].sequence;
    return Ok(Batch(events, next, gap));
  }

  /** Takes what is at hand until the page is full or nothing is left, waiting once if it is empty. */
  method CollectPage<P>(
    hub: SessionHub<P>, id: nat, ghost after: nat, ghost newest: nat, gap: Option<ReplayGap>, maximum: nat, wait: bool,
    others: nat -> seq<P>)
    returns (events: seq<Envelope<P>>, lag: Option<nat>)
    requires hub.Valid() && maximum >= 1 && id in hub.subscribers && newest == |hub.history|
    requires Reading(hub.subscribers[id], after, newest, gap, [])
    modifies hub
    ensures hub.Valid() && old(hub.history) <= hub.history && id in hub.subscribers && |events| <= maximum
    ensures lag.Some? ==> lag.value > 0 && |hub.history| >= newest + hub.limits.fanout + lag.value
    ensures lag.None? ==>
      && Reading(hub.subscribers[id], after, newest, gap, events)
      && (|events| == maximum || hub.subscribers[id].start + |events| == |hub.history|)
      && (events == [] ==> Quiet(newest, |hub.history|, if wait then 2 else 1, others))
  {
    events, lag := [], None;
    var turn, waited := 0, false;
    while |events| < maximum
      invariant hub.Valid() && old(hub.history) <= hub.history && id in hub.subscribers
      invariant |events| <= maximum
      invariant Reading(hub.subscribers[id], after, newest, gap, events)
      invariant (waited ==> turn >= 1) && Quiet(newest, |hub.history|, turn, others)
      decreases maximum - |events|, !waited
    {
      ghost var before := |hub.history|;
      var seen := hub.Turn(id, others(turn), after, newest, gap, events);
      QuietNext(newest, before, |hub.history|, turn, others);
      turn := turn + 1;
      match seen {
        case Some(Got(event)) => events := events + [event];
        case Some(Lagged(missed)) =>
          lag := Some(missed);
          return;
        case None =>
          if events != [] || !wait || waited {
            return;
          }
          waited := true;
      }
    }
  }

  /** If nothing was published since, then others had nothing to publish in the first turns. */
  ghost predicate Quiet<P>(newest: nat, latest: nat, turns: nat, others: nat -> seq<P>) {
    newest == latest < U64_MAX ==> (turns >= 1 ==> others(0) == []) && (turns >= 2 ==> others(1) == [])
  }

  lemma QuietNext<P>(newest: nat, before: nat, latest: nat, turn: nat, others: nat -> seq<P>)
    requires Quiet(newest, before, turn, others) && newest <= before <= latest
    requires before < U64_MAX && others(turn) != [] ==> latest > before
    ensures Quiet(newest, latest, turn + 1, others)
  {
  }

  /** A reader that subscribed when `newest` was the newest number has collected `events`, and nothing but events. */
  ghost predicate Reading<P>(
    sub: Subscription<P>, after: nat, newest: nat, gap: Option<ReplayGap>, events: seq<Envelope<P>>)
  {
    && sub.gap == gap
    && sub.start + |events| + |sub.replay| >= newest
    && sub.seen == seq(|events|, i requires 0 <= i < |events| => Got(events[i]))
    && (gap.Some? ==> after < newest && gap.value == ReplayGap(after, sub.start) && after < sub.start)
    && (after < newest ==> events != [] || sub.replay != [])
    && (gap.None? ==> sub.start == after)
  }

  lemma SubscribedIsReading<P>(limits: Limits, history: seq<P>, s: Session<P>, after: nat)
    requires Legal(limits) && Consistent(limits, history, s)
    ensures after <= |history| ==>
      var sub := Subscribe(s, after).value;
      Reading(sub, after, |history|, sub.gap, [])
  {
    SubscribeJoins(limits, history, s, after);
  }

  /** A reader is told of a lag only when more was published since it subscribed than the channel holds. */
  lemma LagIsLong<P>(
    history: seq<P>, limits: Limits, sub: Subscription<P>, after: nat, newest: nat, gap: Option<ReplayGap>,
    events: seq<Envelope<P>>)
    requires Joined(history, limits, sub) && Reading(sub, after, newest, gap, events)
    ensures var seen := Receive(sub).1;
      seen.Some? && seen.value.Lagged? ==>
        seen.value.missed > 0 && |history| >= newest + limits.fanout + seen.value.missed
    ensures Receive(sub).1.None? ==> sub.start + |events| == |history|
  {
    NoLagNoHole(history, sub.start, sub.seen);
    ReceiveKeepsAhead(history, limits, Walk(history, sub.start, sub.seen).value, sub);
  }

  lemma ReadingIsGood<P>(
    history: seq<P>, limits: Limits, sub: Subscription<P>, after: nat, newest: nat, gap: Option<ReplayGap>,
    events: seq<Envelope<P>>)
    requires Joined(history, limits, sub) && Reading(sub, after, newest, gap, events) && (after < newest ==> events != [])
    ensures GoodBatch(history, after, Batch(events, if events == [] then after else events[|events| - 1].sequence, gap))
  {
    NoLagNoHole(history, sub.start, sub.seen);
    assert events == Stamped(history, sub.start, sub.start + |events|) by {
      forall i | 0 <= i < |events| ensures events[i] == Envelope(sub.start + i + 1, history[sub.start + i]) {
        assert sub.seen[i] == Got(events[i]);
      }
    }
  }

  lemma PageIsGood<P>(
    hub: SessionHub<P>, id: nat, after: nat, newest: nat, gap: Option<ReplayGap>, events: seq<Envelope<P>>)
    requires hub.Valid() && id in hub.subscribers
    requires Reading(hub.subscribers[id], after, newest, gap, events) && (after < newest ==> events != [])
    ensures var next := if events == [] then after else events[|events| - 1].sequence;
      && GoodBatch(hub.history, after, Batch(events, next, gap))
      && (hub.subscribers[id].start + |events| == |hub.history| ==> next == |hub.history|)
  {
    ReadingIsGood(hub.history, hub.limits, hub.subscribers[id], after, newest, gap, events);
  }

  function Interval(lo: nat, hi: nat): (r: seq<nat>)
    requires lo <= hi
    ensures |r| == hi - lo && forall i :: 0 <= i < |r| ==> r[i] == lo + i + 1
  {
    seq(hi - lo, i requires 0 <= i < hi - lo => lo + i + 1)
  }

  function Numbers<P>(events: seq<Envelope<P>>): seq<nat> {
    if events == [] then [] else [events[0].sequence] + Numbers(events[1..])
  }

  /** The numbers a page accounts for: those inside its reported gap, then those of its events. */
  function Accounted<P>(batch: Batch<P>): seq<nat>
  {
    (if batch.gap.Some? && batch.gap.value.requestedAfter <= batch.gap.value.availableAfter
     then Interval(batch.gap.value.requestedAfter, batch.gap.value.availableAfter) else [])
    + Numbers(batch.events)
  }

  /** Pages chained by their `next` cursor, each correct for the history of its own time. */
  ghost predicate Chained<P>(history: seq<P>, after: nat, batches: seq<Batch<P>>)
    decreases |batches|
  {
    batches != [] ==>
      && (exists n :: 0 <= n <= |history| && GoodBatch(history[..n], after, batches[0]))
      && Chained(history, batches[0].next, batches[1..])
  }

  function LastCursor<P>(after: nat, batches: seq<Batch<P>>): nat
    decreases |batches|
  {
    if batches == [] then after else LastCursor(batches[0].next, batches[1..])
  }

  function AllAccounted<P>(batches: seq<Batch<P>>): seq<nat> {
    if batches == [] then [] else Accounted(batches[0]) + AllAccounted(batches[1..])
  }

  lemma IntervalSplit(lo: nat, mid: nat, hi: nat)
    requires lo <= mid <= hi
    ensures Interval(lo, hi) == Interval(lo, mid) + Interval(mid, hi)
  {
  }

  lemma {:induction false} NumbersStamped<P>(history: seq<P>, lo: nat, hi: nat)
    requires lo <= hi <= |history|
    ensures Numbers(Stamped(history, lo, hi)) == Interval(lo, hi)
    decreases hi - lo
  {
    if lo < hi {
      assert Stamped(history, lo, hi)[1..] == Stamped(history, lo + 1, hi);
      NumbersStamped(history, lo + 1, hi);
      assert Interval(lo, hi) == [lo + 1] + Interval(lo + 1, hi);
    }
  }

  lemma GoodBatchAccounts<P>(history: seq<P>, after: nat, batch: Batch<P>)
    requires GoodBatch(history, after, batch)
    ensures after <= batch.next && Accounted(batch) == Interval(after, batch.next)
  {
    var from := if batch.gap.Some? then batch.gap.value.availableAfter else after;
    NumbersStamped(history, from, from + |batch.events|);
    IntervalSplit(after, from, from + |batch.events|);
  }

  /**
   A client that chains its reads accounts for every event number exactly once, in order: returned,
   or inside a reported gap.
   */
  lemma {:induction false} ChainedReadsCover<P>(history: seq<P>, after: nat, batches: seq<Batch<P>>)
    requires Chained(history, after, batches)
    ensures after <= LastCursor(after, batches)
    ensures AllAccounted(batches) == Interval(after, LastCursor(after, batches))
    decreases |batches|
  {
    if batches != [] {
      var n :| 0 <= n <= |history| && GoodBatch(history[..n], after, batches[0]);
      GoodBatchAccounts(history[..n], after, batches[0]);
      var next, last := batches[0].next, LastCursor(after, batches);
      ChainedReadsCover(history, next, batches[1..]);
      IntervalSplit(after, next, last);
    }
  }
}
