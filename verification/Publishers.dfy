/**
 The AMQP side of the queue: a fixed number of publishers, each of which takes a task,
 sends it to the end (with its retries) and only then takes the next.
 */
module Publishers {
  import opened Queue

  datatype Publisher = Idle | Busy(task: Task) | Stopped

  datatype System = System(ch: Channel, publishers: seq<Publisher>, finished: seq<Task>)

  datatype Event =
    | Begin(task: Task)
    | Enqueue(id: nat)
    | Direct(id: nat, w: nat)
    | Cancel(id: nat)
    | Take(w: nat)
    | Finish(w: nat)
    | Stop(w: nat)

  function Init(capacity: nat, workers: nat): System {
    System(NewChannel(capacity), seq(workers, i => Idle), [])
  }

  predicate IsIdle(s: System, w: nat) {
    w < |s.publishers| && s.publishers[w].Idle?
  }

  predicate Enabled(s: System, e: Event) {
    match e
    case Begin(task) => CanOffer(s.ch, task)
    case Enqueue(id) => CanAccept(s.ch, id)
    case Direct(id, w) => CanHandOver(s.ch, id) && IsIdle(s, w)
    case Cancel(id) => Waiting(s.ch, id)
    case Take(w) => CanReceive(s.ch) && IsIdle(s, w)
    case Finish(w) => w < |s.publishers| && s.publishers[w].Busy?
    case Stop(w) => IsIdle(s, w)
  }

  function Next(s: System, e: Event): System
    requires Enabled(s, e)
  {
    match e
    case Begin(task) => s.(ch := Offered(s.ch, task))
    case Enqueue(id) => s.(ch := Accepted(s.ch, id))
    case Direct(id, w) => s.(ch := HandedOver(s.ch, id), publishers := s.publishers[w := Busy(s.ch.offers[id].task)])
    case Cancel(id) => s.(ch := Withdrawn(s.ch, id))
    case Take(w) => s.(ch := Received(s.ch), publishers := s.publishers[w := Busy(s.ch.queued[0])])
    case Finish(w) => s.(publishers := s.publishers[w := Idle], finished := s.finished + [s.publishers[w].task])
    case Stop(w) => s.(publishers := s.publishers[w := Stopped])
  }

  /** A run of events, each possible when it happens. */
  ghost predicate Reaches(s: System, events: seq<Event>, t: System)
    decreases |events|
  {
    if events == [] then t == s
    else Enabled(s, events[0]) && Reaches(Next(s, events[0]), events[1..], t)
  }

  function Sending(p: Publisher): multiset<Task> {
    if p.Busy? then multiset{p.task} else multiset{}
  }

  function InFlight(publishers: seq<Publisher>): multiset<Task> {
    if publishers == [] then multiset{}
    else InFlight(publishers[..|publishers| - 1]) + Sending(publishers[|publishers| - 1])
  }

  lemma InFlightSnoc(publishers: seq<Publisher>)
    requires publishers != []
    ensures InFlight(publishers) == InFlight(publishers[..|publishers| - 1]) + Sending(publishers[|publishers| - 1])
  {
  }

  lemma Exchange(a: multiset<Task>, b: multiset<Task>, x: multiset<Task>, y: multiset<Task>, more: multiset<Task>)
    requires a + x == b + y
    ensures (a + more) + x == (b + more) + y
  {
    assert (a + more) + x == (a + x) + more;
    assert (b + more) + y == (b + y) + more;
  }

  lemma Swap(a: multiset<Task>, x: multiset<Task>, y: multiset<Task>)
    ensures (a + x) + y == (a + y) + x
  {
  }

  lemma {:induction false} InFlightUpdate(publishers: seq<Publisher>, w: nat, p: Publisher)
    requires w < |publishers|
    ensures InFlight(publishers[w := p]) + Sending(publishers[w]) == InFlight(publishers) + Sending(p)
    decreases |publishers|
  {
    hide InFlight, Sending;
    var n := |publishers| - 1;
    InFlightSnoc(publishers);
    InFlightSnoc(publishers[w := p]);
    var init, last := publishers[..n], publishers[n];
    if w < n {
      assert publishers[w := p][..n] == init[w := p] && publishers[w := p][n] == last;
      InFlightUpdate(init, w, p);
      Exchange(InFlight(init[w := p]), InFlight(init), Sending(publishers[w]), Sending(p), Sending(last));
    } else {
      assert publishers[w := p][..n] == init && publishers[w := p][n] == p;
      Swap(InFlight(init), Sending(p), Sending(last));
    }
  }

  lemma {:induction false} InFlightBounded(publishers: seq<Publisher>)
    ensures |InFlight(publishers)| <= |publishers|
  {
    if publishers != [] {
      InFlightBounded(publishers[..|publishers| - 1]);
    }
  }

  lemma {:induction false} NothingInFlight(n: nat)
    ensures InFlight(seq(n, i => Idle)) == multiset{}
  {
    if n > 0 {
      var idle := seq(n, i => Idle);
      assert idle[..n - 1] == seq(n - 1, i => Idle);
      NothingInFlight(n - 1);
    }
  }

  ghost predicate Inv(s: System) {
    ChannelInv(s.ch) && Accounted(s.ch, InFlight(s.publishers), s.finished)
  }

  lemma Assigned(s: System, w: nat, task: Task, after: seq<Task>)
    requires Accounted(s.ch, InFlight(s.publishers), s.finished) && IsIdle(s, w) && after == s.ch.received + [task]
    ensures multiset(after) == InFlight(s.publishers[w := Busy(task)]) + multiset(s.finished)
  {
    hide InFlight;
    InFlightUpdate(s.publishers, w, Busy(task));
    OneMoreBusy(s.ch.received, after, InFlight(s.publishers), s.finished, task);
  }

  lemma Completed(s: System, w: nat)
    requires Accounted(s.ch, InFlight(s.publishers), s.finished) && w < |s.publishers| && s.publishers[w].Busy?
    ensures Accounted(s.ch, InFlight(s.publishers[w := Idle]), s.finished + [s.publishers[w].task])
  {
    hide InFlight;
    InFlightUpdate(s.publishers, w, Idle);
    OneMoreFinished(s.ch.received, InFlight(s.publishers[w := Idle]), s.finished, s.publishers[w].task);
  }

  lemma StepKeepsInv(s: System, e: Event)
    requires Inv(s) && Enabled(s, e)
    ensures Inv(Next(s, e))
  {
    hide ChannelInv, InFlight;
    match e {
      case Begin(task) => OfferedInv(s.ch, task);
      case Enqueue(id) => AcceptedInv(s.ch, id);
      case Direct(id, w) =>
        HandedOverInv(s.ch, id);
        Assigned(s, w, s.ch.offers[id].task, HandedOver(s.ch, id).received);
      case Cancel(id) => WithdrawnInv(s.ch, id);
      case Take(w) =>
        ReceivedInv(s.ch);
        Assigned(s, w, s.ch.queued[0], Received(s.ch).received);
      case Finish(w) => Completed(s, w);
      case Stop(w) =>
        InFlightUpdate(s.publishers, w, Stopped);
        assert InFlight(s.publishers) + Sending(Stopped) == InFlight(s.publishers);
        assert InFlight(s.publishers[w := Stopped]) + Sending(Idle) == InFlight(s.publishers[w := Stopped]);
    }
  }

  lemma {:induction false} RunKeepsInv(s: System, events: seq<Event>, t: System)
    requires Inv(s) && Reaches(s, events, t)
    ensures Inv(t) && |t.publishers| == |s.publishers| && t.ch.capacity == s.ch.capacity
    decreases |events|
  {
    if events != [] {
      StepKeepsInv(s, events[0]);
      RunKeepsInv(Next(s, events[0]), events[1..], t);
    }
  }

  /**
   In every interleaving of dispatches, cancellations and publishers: the queue stays
   within its buffer, tasks are taken in the order in which they were accepted, every
   accepted task is in exactly one place, and no more are in flight than there are
   publishers.
   */
  lemma Conservation(capacity: nat, workers: nat, events: seq<Event>, t: System)
    requires Reaches(Init(capacity, workers), events, t)
    ensures |t.ch.queued| <= capacity
    ensures t.ch.accepted == t.ch.received + t.ch.queued
    ensures EachInOnePlace(t.ch, InFlight(t.publishers), t.finished)
    ensures |InFlight(t.publishers)| <= workers
  {
    hide InFlight, EachInOnePlace;
    NewChannelInv(capacity);
    NothingInFlight(workers);
    RunKeepsInv(Init(capacity, workers), events, t);
    ConservedTasks(t.ch, InFlight(t.publishers), t.finished);
    InFlightBounded(t.publishers);
  }

  // ---------------------------------------------------------------- one publisher

  ghost predicate InOrder(s: System) {
    |s.publishers| == 1 && s.ch.received == s.finished + (if s.publishers[0].Busy? then [s.publishers[0].task] else [])
  }

  lemma {:induction false} RunKeepsOrder(s: System, events: seq<Event>, t: System)
    requires InOrder(s) && Reaches(s, events, t)
    ensures InOrder(t)
    decreases |events|
  {
    if events != [] {
      assert InOrder(Next(s, events[0]));
      RunKeepsOrder(Next(s, events[0]), events[1..], t);
    }
  }

  /** With a single publisher tasks are also finished in the order in which they were accepted. */
  lemma SinglePublisherIsSequential(capacity: nat, events: seq<Event>, t: System)
    requires Reaches(Init(capacity, 1), events, t)
    ensures t.finished <= t.ch.accepted
  {
    RunKeepsOrder(Init(capacity, 1), events, t);
    Conservation(capacity, 1, events, t);
  }

  // ---------------------------------------------------------------- nothing gets stuck

  lemma {:induction false} ReachesOn(s: System, first: seq<Event>, t: System, second: seq<Event>, u: System)
    requires Reaches(s, first, t) && Reaches(t, second, u)
    ensures Reaches(s, first + second, u)
    decreases |first|
  {
    if first == [] {
      assert first + second == second;
    } else {
      assert (first + second)[1..] == first[1..] + second;
      ReachesOn(Next(s, first[0]), first[1..], t, second, u);
    }
  }

  lemma TwoSteps(s: System, e: Event, f: Event)
    requires Enabled(s, e) && Enabled(Next(s, e), f)
    ensures Reaches(s, [e, f], Next(Next(s, e), f))
  {
    assert [e, f][1..] == [f] && [f][1..] == [];
    assert Reaches(Next(s, e), [f], Next(Next(s, e), f));
  }

  /** As long as there is room, a task can be offered and taken into the queue, behind all others. */
  lemma CanQueue(s: System, task: Task) returns (events: seq<Event>, t: System)
    requires |s.ch.queued| < s.ch.capacity && task.id !in s.ch.offers
    ensures Reaches(s, events, t) && t.ch.queued == s.ch.queued + [task] && t.ch.accepted == s.ch.accepted + [task]
  {
    events := [Begin(task), Enqueue(task.id)];
    t := Next(Next(s, Begin(task)), Enqueue(task.id));
    TwoSteps(s, Begin(task), Enqueue(task.id));
  }

  /** An idle publisher can finish all that is queued, in order. */
  lemma {:induction false} CanDrain(s: System, w: nat) returns (events: seq<Event>, t: System)
    requires IsIdle(s, w)
    ensures Reaches(s, events, t) && IsIdle(t, w) && t.ch.offers == s.ch.offers
    ensures t.ch.queued == [] && t.finished == s.finished + s.ch.queued
    decreases |s.ch.queued|
  {
    if s.ch.queued == [] {
      events, t := [], s;
    } else {
      TwoSteps(s, Take(w), Finish(w));
      var rest;
      rest, t := CanDrain(Next(Next(s, Take(w)), Finish(w)), w);
      events := [Take(w), Finish(w)] + rest;
      ReachesOn(s, [Take(w), Finish(w)], Next(Next(s, Take(w)), Finish(w)), rest, t);
      assert s.ch.queued == [s.ch.queued[0]] + s.ch.queued[1..];
    }
  }

  /** While a publisher is idle every new task can be delivered, whatever the size of the buffer, even none. */
  lemma CanDeliver(s: System, w: nat, task: Task) returns (events: seq<Event>, t: System)
    requires IsIdle(s, w) && task.id !in s.ch.offers
    ensures Reaches(s, events, t) && t.finished == s.finished + s.ch.queued + [task]
  {
    var before, d := CanDrain(s, w);
    var offered := Next(d, Begin(task));
    var direct := Next(offered, Direct(task.id, w));
    t := Next(direct, Finish(w));
    TwoSteps(d, Begin(task), Direct(task.id, w));
    assert [Finish(w)][1..] == [];
    assert Reaches(direct, [Finish(w)], t);
    ReachesOn(d, [Begin(task), Direct(task.id, w)], direct, [Finish(w)], t);
    ReachesOn(s, before, d, [Begin(task), Direct(task.id, w)] + [Finish(w)], t);
    events := before + ([Begin(task), Direct(task.id, w)] + [Finish(w)]);
  }
}
