/**
 The bounded in-memory queue between the form handler and the notification workers. A
 dispatch offers one task and waits until the queue takes it or its request is cancelled;
 a buffer of size zero hands tasks over directly.
 */
module Queue {

  datatype Task = Task(id: nat, payload: string)

  datatype Offer = Pending(task: Task) | Taken(task: Task) | Cancelled(task: Task)

  /** `accepted` and `received` are histories: what was ever put in and what was ever taken out. */
  datatype Channel = Channel(
    capacity: nat,
    offers: map<nat, Offer>,
    queued: seq<Task>,
    accepted: seq<Task>,
    received: seq<Task>
  )

  function NewChannel(capacity: nat): Channel {
    Channel(capacity, map[], [], [], [])
  }

  predicate CanOffer(ch: Channel, task: Task) {
    task.id !in ch.offers
  }

  function Offered(ch: Channel, task: Task): Channel {
    ch.(offers := ch.offers[task.id := Pending(task)])
  }

  predicate Waiting(ch: Channel, id: nat) {
    id in ch.offers && ch.offers[id].Pending?
  }

  predicate CanAccept(ch: Channel, id: nat) {
    Waiting(ch, id) && |ch.queued| < ch.capacity
  }

  function Accepted(ch: Channel, id: nat): Channel
    requires Waiting(ch, id)
  {
    var task := ch.offers[id].task;
    ch.(offers := ch.offers[id := Taken(task)], queued := ch.queued + [task], accepted := ch.accepted + [task])
  }

  predicate CanHandOver(ch: Channel, id: nat) {
    Waiting(ch, id) && ch.queued == []
  }

  /** A waiting receiver gets the task without it ever being queued. */
  function HandedOver(ch: Channel, id: nat): Channel
    requires Waiting(ch, id)
  {
    var task := ch.offers[id].task;
    ch.(offers := ch.offers[id := Taken(task)], accepted := ch.accepted + [task], received := ch.received + [task])
  }

  function Withdrawn(ch: Channel, id: nat): Channel
    requires Waiting(ch, id)
  {
    ch.(offers := ch.offers[id := Cancelled(ch.offers[id].task)])
  }

  predicate CanReceive(ch: Channel) {
    ch.queued != []
  }

  function Received(ch: Channel): Channel
    requires CanReceive(ch)
  {
    ch.(queued := ch.queued[1..], received := ch.received + [ch.queued[0]])
  }

  /** Tasks leave in the order in which they came in, and only accepted offers come in, each once. */
  ghost predicate ChannelInv(ch: Channel) {
    && |ch.queued| <= ch.capacity
    && ch.accepted == ch.received + ch.queued
    && (forall i, j | 0 <= i < j < |ch.accepted| :: ch.accepted[i].id != ch.accepted[j].id)
    && (forall id | id in ch.offers :: ch.offers[id].task.id == id)
    && (forall i | 0 <= i < |ch.accepted| ::
          ch.accepted[i].id in ch.offers && ch.offers[ch.accepted[i].id] == Taken(ch.accepted[i]))
    && (forall id | id in ch.offers && ch.offers[id].Taken? :: ch.offers[id].task in ch.accepted)
  }

  lemma NewChannelInv(capacity: nat)
    ensures ChannelInv(NewChannel(capacity))
  {
  }

  lemma OfferedInv(ch: Channel, task: Task)
    requires ChannelInv(ch) && CanOffer(ch, task)
    ensures ChannelInv(Offered(ch, task))
  {
  }

  lemma AcceptedInv(ch: Channel, id: nat)
    requires ChannelInv(ch) && CanAccept(ch, id)
    ensures ChannelInv(Accepted(ch, id))
  {
    var next := Accepted(ch, id);
    assert next.accepted == next.received + next.queued;
    assert forall i | 0 <= i < |ch.accepted| :: next.accepted[i] == ch.accepted[i] && ch.accepted[i].id != id;
  }

  lemma HandedOverInv(ch: Channel, id: nat)
    requires ChannelInv(ch) && CanHandOver(ch, id)
    ensures ChannelInv(HandedOver(ch, id))
  {
    var next := HandedOver(ch, id);
    assert next.accepted == next.received + next.queued;
    assert forall i | 0 <= i < |ch.accepted| :: next.accepted[i] == ch.accepted[i] && ch.accepted[i].id != id;
  }

  lemma WithdrawnInv(ch: Channel, id: nat)
    requires ChannelInv(ch) && Waiting(ch, id)
    ensures ChannelInv(Withdrawn(ch, id))
  {
    var next := Withdrawn(ch, id);
    forall i | 0 <= i < |ch.accepted| ensures next.offers[ch.accepted[i].id] == Taken(ch.accepted[i]) {
      assert ch.accepted[i].id != id;
    }
  }

  lemma ReceivedInv(ch: Channel)
    requires ChannelInv(ch) && CanReceive(ch)
    ensures ChannelInv(Received(ch))
  {
    var next := Received(ch);
    assert next.accepted == next.received + next.queued;
  }

  // ---------------------------------------------------------------- conservation

  /** What became of the accepted tasks, when `busy` are being sent and `finished` were. */
  ghost predicate Accounted(ch: Channel, busy: multiset<Task>, finished: seq<Task>) {
    multiset(ch.received) == busy + multiset(finished)
  }

  lemma OneMoreBusy(before: seq<Task>, after: seq<Task>, busy: multiset<Task>, finished: seq<Task>, task: Task)
    requires multiset(before) == busy + multiset(finished) && after == before + [task]
    ensures multiset(after) == busy + multiset{task} + multiset(finished)
  {
  }

  lemma OneMoreFinished(received: seq<Task>, busy: multiset<Task>, finished: seq<Task>, task: Task)
    requires multiset(received) == busy + multiset{task} + multiset(finished)
    ensures multiset(received) == busy + multiset(finished + [task])
  {
  }

  /** Every accepted task is in exactly one place: still queued, being sent, or finished. */
  lemma ExactlyOnePlace(ch: Channel, busy: multiset<Task>, finished: seq<Task>, task: Task)
    requires ChannelInv(ch) && Accounted(ch, busy, finished)
    ensures task in ch.accepted ==> multiset(ch.queued)[task] + busy[task] + multiset(finished)[task] == 1
    ensures task !in ch.accepted ==> multiset(ch.queued)[task] + busy[task] + multiset(finished)[task] == 0
  {
    assert multiset(ch.accepted) == multiset(ch.received) + multiset(ch.queued);
    OneOccurrence(ch.accepted, task);
  }

  lemma {:induction false} OneOccurrence(tasks: seq<Task>, task: Task)
    requires forall i, j | 0 <= i < j < |tasks| :: tasks[i].id != tasks[j].id
    ensures multiset(tasks)[task] == if task in tasks then 1 else 0
  {
    if tasks != [] {
      var n := |tasks| - 1;
      assert tasks == tasks[..n] + [tasks[n]];
      OneOccurrence(tasks[..n], task);
    }
  }

  /** Accepted tasks are in exactly one place; those that were cancelled, or still wait to be accepted, in none. */
  ghost predicate EachInOnePlace(ch: Channel, busy: multiset<Task>, finished: seq<Task>) {
    && (forall task | task in ch.accepted :: multiset(ch.queued)[task] + busy[task] + multiset(finished)[task] == 1)
    && (forall id, task: Task | id in ch.offers && !ch.offers[id].Taken? && task.id == id ::
          task !in ch.accepted && task !in ch.queued && task !in busy && task !in finished)
  }

  lemma ConservedTasks(ch: Channel, busy: multiset<Task>, finished: seq<Task>)
    requires ChannelInv(ch) && Accounted(ch, busy, finished)
    ensures EachInOnePlace(ch, busy, finished)
  {
    forall task | task in ch.accepted
      ensures multiset(ch.queued)[task] + busy[task] + multiset(finished)[task] == 1
    {
      ExactlyOnePlace(ch, busy, finished, task);
    }
    forall id, task: Task | id in ch.offers && !ch.offers[id].Taken? && task.id == id
      ensures task !in ch.accepted && task !in ch.queued && task !in busy && task !in finished
    {
      ExactlyOnePlace(ch, busy, finished, task);
    }
  }
}
