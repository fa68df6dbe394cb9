/**
 The webhook side of the queue: one loop that starts a sender for every task it takes,
 without limit, and after cancellation waits for all senders before it returns.
 */
module WebhookQueue {
  import opened Queue

  datatype Loop = Receiving | Draining | Returned

  datatype System = System(ch: Channel, loop: Loop, senders: seq<Task>, finished: seq<Task>)

  datatype Event =
    | Begin(task: Task)
    | Enqueue(id: nat)
    | Direct(id: nat)
    | Cancel(id: nat)
    | Spawn
    | Finish(i: nat)
    | Shutdown
    | Return

  function Init(capacity: nat): System {
    System(NewChannel(capacity), Receiving, [], [])
  }

  predicate Enabled(s: System, e: Event) {
    match e
    case Begin(task) => CanOffer(s.ch, task)
    case Enqueue(id) => CanAccept(s.ch, id)
    case Direct(id) => CanHandOver(s.ch, id) && s.loop.Receiving?
    case Cancel(id) => Waiting(s.ch, id)
    case Spawn => CanReceive(s.ch) && s.loop.Receiving?
    case Finish(i) => i < |s.senders|
    case Shutdown => s.loop.Receiving?
    case Return => s.loop.Draining? && s.senders == []
  }

  function Next(s: System, e: Event): System
    requires Enabled(s, e)
  {
    match e
    case Begin(task) => s.(ch := Offered(s.ch, task))
    case Enqueue(id) => s.(ch := Accepted(s.ch, id))
    case Direct(id) => s.(ch := HandedOver(s.ch, id), senders := s.senders + [s.ch.offers[id].task])
    case Cancel(id) => s.(ch := Withdrawn(s.ch, id))
    case Spawn => s.(ch := Received(s.ch), senders := s.senders + [s.ch.queued[0]])
    case Finish(i) => s.(senders := s.senders[..i] + s.senders[i + 1..], finished := s.finished + [s.senders[i]])
    case Shutdown => s.(loop := Draining)
    case Return => s.(loop := Returned)
  }

  ghost predicate Reaches(s: System, events: seq<Event>, t: System)
    decreases |events|
  {
    if events == [] then t == s
    else Enabled(s, events[0]) && Reaches(Next(s, events[0]), events[1..], t)
  }

  ghost predicate Inv(s: System) {
    && ChannelInv(s.ch) && Accounted(s.ch, multiset(s.senders), s.finished)
    && (s.loop.Returned? ==> s.senders == [])
  }

  lemma Started(s: System, task: Task, after: seq<Task>)
    requires Accounted(s.ch, multiset(s.senders), s.finished) && after == s.ch.received + [task]
    ensures multiset(after) == multiset(s.senders + [task]) + multiset(s.finished)
  {
    OneMoreBusy(s.ch.received, after, multiset(s.senders), s.finished, task);
  }

  lemma Completed(s: System, i: nat)
    requires Accounted(s.ch, multiset(s.senders), s.finished) && i < |s.senders|
    ensures Accounted(s.ch, multiset(s.senders[..i] + s.senders[i + 1..]), s.finished + [s.senders[i]])
  {
    var rest := s.senders[..i] + s.senders[i + 1..];
    assert s.senders == s.senders[..i] + [s.senders[i]] + s.senders[i + 1..];
    OneMoreFinished(s.ch.received, multiset(rest), s.finished, s.senders[i]);
  }

  lemma StepKeepsInv(s: System, e: Event)
    requires Inv(s) && Enabled(s, e)
    ensures Inv(Next(s, e))
  {
    hide ChannelInv;
    match e {
      case Begin(task) => OfferedInv(s.ch, task);
      case Enqueue(id) => AcceptedInv(s.ch, id);
      case Direct(id) =>
        HandedOverInv(s.ch, id);
        Started(s, s.ch.offers[id].task, HandedOver(s.ch, id).received);
      case Cancel(id) => WithdrawnInv(s.ch, id);
      case Spawn =>
        ReceivedInv(s.ch);
        Started(s, s.ch.queued[0], Received(s.ch).received);
      case Finish(i) => Completed(s, i);
      case Shutdown =>
      case Return =>
    }
  }

  lemma {:induction false} RunKeepsInv(s: System, events: seq<Event>, t: System)
    requires Inv(s) && Reaches(s, events, t)
    ensures Inv(t) && t.ch.capacity == s.ch.capacity
    decreases |events|
  {
    if events != [] {
      StepKeepsInv(s, events[0]);
      RunKeepsInv(Next(s, events[0]), events[1..], t);
    }
  }

  /** As for the publishers; and when the loop has returned, all that it ever took is finished. */
  lemma Conservation(capacity: nat, events: seq<Event>, t: System)
    requires Reaches(Init(capacity), events, t)
    ensures |t.ch.queued| <= capacity
    ensures t.ch.accepted == t.ch.received + t.ch.queued
    ensures EachInOnePlace(t.ch, multiset(t.senders), t.finished)
    ensures t.loop.Returned? ==> t.senders == [] && multiset(t.finished) == multiset(t.ch.received)
  {
    NewChannelInv(capacity);
    RunKeepsInv(Init(capacity), events, t);
    ConservedTasks(t.ch, multiset(t.senders), t.finished);
  }

  /** Once the loop has returned nothing is started any more, whatever still gets queued. */
  lemma {:induction false} ReturnedStays(s: System, events: seq<Event>, t: System)
    requires s.loop.Returned? && s.senders == [] && Reaches(s, events, t)
    ensures t.loop.Returned? && t.senders == [] && t.finished == s.finished && t.ch.received == s.ch.received
    decreases |events|
  {
    if events != [] {
      ReturnedStays(Next(s, events[0]), events[1..], t);
    }
  }

  // ---------------------------------------------------------------- nothing gets stuck

  lemma FirstStep(s: System, e: Event, events: seq<Event>, t: System)
    requires Enabled(s, e) && Reaches(Next(s, e), events, t)
    ensures Reaches(s, [e] + events, t)
  {
    assert ([e] + events)[1..] == events;
  }

  lemma {:induction false} ReachesOn(s: System, first: seq<Event>, t: System, second: seq<Event>, u: System)
    requires Reaches(s, first, t) && Reaches(t, second, u)
    ensures Reaches(s, first + second, u)
    decreases |first|
  {
    if first == [] {
      assert first + second == second;
    } else {
      assert (first + second)[1..] == first[1..] + second;
      ReachesOn(Next(s, first[0]), first[1..], t, second, u);
    }
  }

  /** Senders can always finish, in the order in which they were started. */
  lemma {:induction false} CanFinish(s: System) returns (events: seq<Event>, t: System)
    ensures Reaches(s, events, t) && t == s.(senders := [], finished := s.finished + s.senders)
    decreases |s.senders|
  {
    if s.senders == [] {
      events, t := [], s;
    } else {
      var rest;
      rest, t := CanFinish(Next(s, Finish(0)));
      FirstStep(s, Finish(0), rest, t);
      events := [Finish(0)] + rest;
      assert s.senders == [s.senders[0]] + s.senders[1..];
    }
  }

  /** As long as the loop receives, it can start and finish all that is queued. */
  lemma {:induction false} CanDrain(s: System) returns (events: seq<Event>, t: System)
    requires s.loop.Receiving?
    ensures Reaches(s, events, t) && t.loop.Receiving? && t.ch.offers == s.ch.offers
    ensures t.ch.queued == [] && t.senders == [] && t.finished == s.finished + s.senders + s.ch.queued
    decreases |s.ch.queued|
  {
    if s.ch.queued == [] {
      events, t := CanFinish(s);
    } else {
      var rest;
      rest, t := CanDrain(Next(s, Spawn));
      FirstStep(s, Spawn, rest, t);
      events := [Spawn] + rest;
      assert s.ch.queued == [s.ch.queued[0]] + s.ch.queued[1..];
    }
  }

  /** While the loop receives every new task can be delivered, whatever the size of the buffer, even none. */
  lemma CanDeliver(s: System, task: Task) returns (events: seq<Event>, t: System)
    requires s.loop.Receiving? && task.id !in s.ch.offers
    ensures Reaches(s, events, t) && t.finished == s.finished + s.senders + s.ch.queued + [task]
  {
    var before, d := CanDrain(s);
    var offered := Next(d, Begin(task));
    var direct := Next(offered, Direct(task.id));
    var rest;
    rest, t := CanFinish(direct);
    FirstStep(offered, Direct(task.id), rest, t);
    FirstStep(d, Begin(task), [Direct(task.id)] + rest, t);
    events := [Begin(task)] + ([Direct(task.id)] + rest);
    ReachesOn(s, before, d, events, t);
    events := before + events;
  }

  /** The loop can always return, without starting what is still queued. */
  lemma CanReturn(s: System) returns (events: seq<Event>, t: System)
    requires !s.loop.Returned?
    ensures Reaches(s, events, t) && t.loop.Returned?
    ensures t.finished == s.finished + s.senders && t.ch == s.ch
  {
    var first, d := CanFinish(s);
    var draining := if d.loop.Receiving? then Next(d, Shutdown) else d;
    t := Next(draining, Return);
    FirstStep(draining, Return, [], t);
    if d.loop.Receiving? {
      FirstStep(d, Shutdown, [Return] + [], t);
      events := [Shutdown] + ([Return] + []);
    } else {
      events := [Return] + [];
    }
    ReachesOn(s, first, d, events, t);
    events := first + events;
  }
}
