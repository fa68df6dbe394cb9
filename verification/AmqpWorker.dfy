/**
 One AMQP publisher: its lazily opened connection and channel, the publishing of a task
 with retries, and its run over whatever the queue and the broker do. The broker is seen as
 a log of the calls made to it.
 */
module AmqpWorker {
  import opened Wrappers
  import opened Retry

  /** Calls to the broker that took effect; connections, channels and tasks by number. */
  datatype Call =
    | Dial(connection: nat)
    | OpenChannel(channel: nat, connection: nat)
    | Publish(task: nat, channel: nat, confirmed: bool)
    | CloseChannel(channel: nat)
    | CloseConnection(connection: nat)

  /** What a log leaves open. */
  datatype Open = Open(connection: Option<nat>, channel: Option<nat>, dialled: nat, channels: nat)

  /**
   The rules of the protocol: one connection at a time, one channel at a time and only on
   the open connection, messages only on the open channel, the channel closed before its
   connection, and nothing closed twice. None for a call that breaks them.
   */
  function Obeys(o: Open, call: Call): Option<Open> {
    match call
    case Dial(k) =>
      if o.connection.None? && k == o.dialled then Some(o.(connection := Some(k), dialled := k + 1)) else None
    case OpenChannel(c, k) =>
      if o.connection == Some(k) && o.channel.None? && c == o.channels
      then Some(o.(channel := Some(c), channels := c + 1)) else None
    case Publish(_, c, _) =>
      if o.channel == Some(c) then Some(o) else None
    case CloseChannel(c) =>
      if o.channel == Some(c) then Some(o.(channel := None)) else None
    case CloseConnection(k) =>
      if o.connection == Some(k) && o.channel.None? then Some(o.(connection := None)) else None
  }

  function Replay(log: seq<Call>): Option<Open> {
    if log == [] then Some(Open(None, None, 0, 0))
    else
      var before := Replay(log[..|log| - 1]);
      if before.None? then None else Obeys(before.value, log[|log| - 1])
  }

  function CountDials(log: seq<Call>): nat {
    if log == [] then 0 else CountDials(log[..|log| - 1]) + if log[|log| - 1].Dial? then 1 else 0
  }

  function CountHangUps(log: seq<Call>): nat {
    if log == [] then 0 else CountHangUps(log[..|log| - 1]) + if log[|log| - 1].CloseConnection? then 1 else 0
  }

  predicate Confirms(call: Call, task: nat) {
    call.Publish? && call.confirmed && call.task == task
  }

  /** How often the broker took the message of a task. */
  function Confirmed(log: seq<Call>, task: nat): nat {
    if log == [] then 0
    else Confirmed(log[..|log| - 1], task) + if Confirms(log[|log| - 1], task) then 1 else 0
  }

  /** In a log that obeys the rules, connections opened minus closed is one or zero: one exactly while one is held. */
  lemma {:induction false} OpenMinusClosed(log: seq<Call>)
    requires Replay(log).Some?
    ensures CountDials(log) == CountHangUps(log) + if Replay(log).value.connection.Some? then 1 else 0
    ensures Replay(log).value.channel.Some? ==> Replay(log).value.connection.Some?
  {
    if log != [] {
      OpenMinusClosed(log[..|log| - 1]);
    }
  }

  lemma Extend(log: seq<Call>, call: Call)
    ensures Replay(log + [call]) == if Replay(log).None? then None else Obeys(Replay(log).value, call)
  {
    assert (log + [call])[..|log|] == log;
  }

  lemma {:induction false} ConfirmedInBoth(before: seq<Call>, calls: seq<Call>, task: nat)
    ensures Confirmed(before + calls, task) == Confirmed(before, task) + Confirmed(calls, task)
  {
    if calls == [] {
      assert before + calls == before;
    } else {
      assert (before + calls)[..|before + calls| - 1] == before + calls[..|calls| - 1];
      ConfirmedInBoth(before, calls[..|calls| - 1], task);
    }
  }

  /** What the broker does with one attempt, and how long it takes. */
  datatype Attempt = Attempt(dials: bool, allocates: bool, publishes: bool, took: nat)

  function Tooks(attempts: nat -> Attempt): Durations {
    (i: nat) => attempts(i).took
  }

  predicate Succeeds(a: Attempt, connected: bool, ready: bool) {
    (ready || ((connected || a.dials) && a.allocates)) && a.publishes
  }

  /** Success of each attempt of one task: only the first can use what was open before. */
  function SendOutcomes(attempts: nat -> Attempt, connected: bool, ready: bool): Outcomes {
    (i: nat) => Succeeds(attempts(i), i == 0 && connected, i == 0 && ready)
  }

  // ---------------------------------------------------------------- the calls of each step

  function Closing(o: Open): seq<Call> {
    (if o.channel.Some? then [CloseChannel(o.channel.value)] else [])
    + if o.connection.Some? then [CloseConnection(o.connection.value)] else []
  }

  function Connecting(o: Open, a: Attempt): seq<Call> {
    if o.connection.Some? || !a.dials then [] else [Dial(o.dialled)]
  }

  /** A channel that cannot be opened takes its connection with it. */
  function Preparing(o: Open, a: Attempt): seq<Call> {
    if o.channel.Some? then []
    else if o.connection.None? && !a.dials then []
    else
      var connection := o.connection.GetOr(o.dialled);
      Connecting(o, a) + [if a.allocates then OpenChannel(o.channels, connection) else CloseConnection(connection)]
  }

  function Publishing(o: Open, task: nat, a: Attempt): seq<Call> {
    if o.channel.None? && !((o.connection.Some? || a.dials) && a.allocates) then []
    else [Publish(task, o.channel.GetOr(o.channels), a.publishes)]
  }

  function Sending(o: Open, task: nat, a: Attempt): seq<Call> {
    Preparing(o, a) + Publishing(o, task, a)
  }

  /** What a log leaves open, where only logs that obey the rules matter. */
  function Left(log: seq<Call>): Open {
    Replay(log).GetOr(Open(None, None, 0, 0))
  }

  /** The log after one attempt, which closes all that is open unless the message was taken. */
  function AfterAttempt(log: seq<Call>, task: nat, a: Attempt): seq<Call> {
    var sent := log + Sending(Left(log), task, a);
    if Succeeds(a, Left(log).connection.Some?, Left(log).channel.Some?) then sent else sent + Closing(Left(sent))
  }

  /** The log after the first `n` attempts of a task. */
  function AfterAttempts(log: seq<Call>, task: nat, attempts: nat -> Attempt, n: nat): seq<Call> {
    if n == 0 then log else AfterAttempt(AfterAttempts(log, task, attempts, n - 1), task, attempts(n - 1))
  }

  /** The log after as many tasks as there are numbers of attempts. */
  function AfterTasks(jobs: seq<Job>, made: seq<nat>): seq<Call>
    requires |made| <= |jobs|
  {
    if made == [] then []
    else
      var k := |made| - 1;
      AfterAttempts(AfterTasks(jobs, made[..k]), k, jobs[k].attempts, made[k])
  }

  /** The log only grows; it gains one confirmation of the task if it was delivered, and none of any other. */
  ghost predicate Adds(before: seq<Call>, after: seq<Call>, task: nat, delivered: bool) {
    && before <= after
    && forall k: nat :: Confirmed(after, k) == Confirmed(before, k) + if k == task && delivered then 1 else 0
  }

  lemma AddsNothing(log: seq<Call>, task: nat)
    ensures Adds(log, log, task, false)
  {
  }

  lemma AddsMore(a: seq<Call>, b: seq<Call>, c: seq<Call>, task: nat, delivered: bool)
    requires Adds(a, b, task, false) && Adds(b, c, task, delivered)
    ensures Adds(a, c, task, delivered)
  {
  }

  lemma {:induction false} NothingConfirmed(calls: seq<Call>, task: nat)
    requires forall i | 0 <= i < |calls| :: !calls[i].Publish?
    ensures Confirmed(calls, task) == 0
  {
    if calls != [] {
      NothingConfirmed(calls[..|calls| - 1], task);
    }
  }

  lemma ClosingConfirms(after: seq<Call>, before: seq<Call>, o: Open)
    requires after == before + Closing(o)
    ensures before <= after && forall k: nat :: Confirmed(after, k) == Confirmed(before, k)
  {
    forall k: nat ensures Confirmed(after, k) == Confirmed(before, k) {
      ConfirmedInBoth(before, Closing(o), k);
      NothingConfirmed(Closing(o), k);
    }
  }

  lemma PublishingConfirms(o: Open, task: nat, a: Attempt, k: nat)
    ensures Confirmed(Publishing(o, task, a), k)
         == if k == task && Succeeds(a, o.connection.Some?, o.channel.Some?) then 1 else 0
  {
    var calls := Publishing(o, task, a);
    assert calls != [] ==> calls[..0] == [];
  }

  lemma SendingConfirms(after: seq<Call>, before: seq<Call>, o: Open, task: nat, a: Attempt)
    requires after == before + Sending(o, task, a)
    ensures Adds(before, after, task, Succeeds(a, o.connection.Some?, o.channel.Some?))
  {
    hide Confirmed, Publishing, Succeeds;
    forall k: nat
      ensures Confirmed(after, k)
           == Confirmed(before, k) + if k == task && Succeeds(a, o.connection.Some?, o.channel.Some?) then 1 else 0
    {
      ConfirmedInBoth(before, Sending(o, task, a), k);
      ConfirmedInBoth(Preparing(o, a), Publishing(o, task, a), k);
      NothingConfirmed(Preparing(o, a), k);
      PublishingConfirms(o, task, a, k);
    }
  }

  class Worker {
    var connection: Option<nat>
    var channel: Option<nat>
    var log: seq<Call>

    constructor ()
      ensures Valid() && log == [] && connection == None && channel == None
    {
      connection, channel, log := None, None, [];
    }

    /** The fields say exactly what the log leaves open. */
    ghost predicate Valid()
      reads this
    {
      && Replay(log).Some?
      && Replay(log).value.connection == connection && Replay(log).value.channel == channel
      && (channel.Some? ==> connection.Some?)
    }

    method Call(call: Call)
      requires Replay(log).Some? && Obeys(Replay(log).value, call).Some?
      modifies this`log
      ensures log == old(log) + [call]
      ensures Replay(log) == Obeys(Replay(old(log)).value, call)
    {
      Extend(log, call);
      log := log + [call];
    }

    method Close()
      requires Valid()
      modifies this
      ensures Valid() && connection == None && channel == None
      ensures log == old(log) + Closing(Left(old(log)))
    {
      if channel.Some? {
        Call(CloseChannel(channel.value));
      }
      channel := None;
      if connection.Some? {
        Call(CloseConnection(connection.value));
      }
      connection := None;
    }

    method GetConnection(a: Attempt) returns (ok: bool)
      requires Valid() && channel == None
      modifies this
      ensures Valid() && channel == None
      ensures ok == connection.Some?
      ensures ok <==> old(connection).Some? || a.dials
      ensures old(connection).Some? ==> connection == old(connection)
      ensures log == old(log) + Connecting(Left(old(log)), a)
      ensures Left(log).channels == Left(old(log)).channels
      ensures ok ==> connection.value == old(connection).GetOr(Left(old(log)).dialled)
    {
      if connection.Some? {
        return true;
      }
      if !a.dials {
        return false;
      }
      var number := Replay(log).value.dialled;
      Call(Dial(number));
      connection := Some(number);
      return true;
    }

    method GetChannel(a: Attempt) returns (ok: bool)
      requires Valid()
      modifies this
      ensures Valid()
      ensures ok == channel.Some?
      ensures ok <==> old(channel).Some? || ((old(connection).Some? || a.dials) && a.allocates)
      ensures ok ==> channel.value == old(channel).GetOr(Left(old(log)).channels)
      ensures !ok ==> connection == None
      ensures log == old(log) + Preparing(Left(old(log)), a)
    {
      if channel.Some? {
        return true;
      }
      var connected := GetConnection(a);
      if !connected {
        return false;
      }
      if !a.allocates {
        Close();
        return false;
      }
      var number := Replay(log).value.channels;
      Call(OpenChannel(number, connection.value));
      channel := Some(number);
      return true;
    }

    method TrySend(task: nat, a: Attempt) returns (ok: bool)
      requires Valid()
      modifies this
      ensures Valid()
      ensures ok == Succeeds(a, old(connection).Some?, old(channel).Some?)
      ensures ok ==> channel.Some?
      ensures log == old(log) + Sending(Left(old(log)), task, a)
    {
      var ready := GetChannel(a);
      if !ready {
        return false;
      }
      Call(Publish(task, channel.value, a.publishes));
      return a.publishes;
    }

    /** One attempt, after which all is closed unless the message was taken. */
    method SendOrReset(task: nat, a: Attempt) returns (ok: bool)
      requires Valid()
      modifies this
      ensures Valid()
      ensures ok == Succeeds(a, old(connection).Some?, old(channel).Some?)
      ensures if ok then connection.Some? && channel.Some? else connection == None && channel == None
      ensures log == AfterAttempt(old(log), task, a)
      ensures Adds(old(log), log, task, ok)
    {
      ghost var before := Left(log);
      ok := TrySend(task, a);
      SendingConfirms(log, old(log), before, task, a);
      if !ok {
        ghost var sent := log;
        ghost var open := Left(log);
        Close();
        ClosingConfirms(log, sent, open);
      }
    }

    /**
     Publishes one task: as many attempts as the retry loop allows, each failure closing all
     that is open, and the message confirmed once if it was delivered and else not at all.
     */
    method SendTask(task: nat, job: Job) returns (made: nat, delivered: bool, elapsed: nat)
      requires Valid()
      modifies this
      ensures Valid()
      ensures var ok := SendOutcomes(job.attempts, old(connection).Some?, old(channel).Some?);
        && Attempts(job.retry, ok, job.stopped, made)
        && delivered == ok(made - 1)
        && elapsed == TotalTime(job.retry, ok, Tooks(job.attempts), Pauses(job.timeout, job.stopped, job.cut), made)
      ensures log == AfterAttempts(old(log), task, job.attempts, made)
      ensures Adds(old(log), log, task, delivered)
      ensures if delivered then connection.Some? && channel.Some? else connection == None && channel == None
    {
      hide Valid, Adds, Succeeds, GoesOn, Elapsed, AfterAttempt;
      ghost var ok := SendOutcomes(job.attempts, connection.Some?, channel.Some?);
      ghost var took := Tooks(job.attempts);
      ghost var pauses := Pauses(job.timeout, job.stopped, job.cut);
      made, delivered, elapsed := 0, false, 0;
      NoRoundYet(job.retry, ok, job.stopped, took, pauses);
      AddsNothing(log, task);
      while true
        invariant Valid() && !delivered && made < Bound(job.retry)
        invariant made > 0 ==> connection == None && channel == None
        invariant made == 0 ==> connection == old(connection) && channel == old(channel)
        invariant log == AfterAttempts(old(log), task, job.attempts, made)
        invariant Adds(old(log), log, task, false)
        invariant elapsed == Elapsed(made, took, pauses)
        invariant GoesOn(job.retry, ok, job.stopped, made)
        decreases Bound(job.retry) - made
      {
        ghost var before := log;
        delivered := SendOrReset(task, job.attempts(made));
        AddsMore(old(log), before, log, task, delivered);
        assert delivered == ok(made);
        elapsed := elapsed + job.attempts(made).took;
        made := made + 1;
        if delivered {
          break;
        }
        if made - 1 >= job.retry {
          break;
        }
        if job.stopped(made - 1) {
          elapsed := elapsed + if job.cut(made - 1) < job.timeout then job.cut(made - 1) else job.timeout;
          break;
        }
        elapsed := elapsed + job.timeout;
        OneMoreRound(job.retry, ok, job.stopped, took, pauses, made - 1);
      }
    }
  }

  /** One task as a publisher meets it. */
  datatype Job = Job(retry: int, timeout: nat, attempts: nat -> Attempt, stopped: Outcomes, cut: Durations)

  /**
   Task `k` of a run was attempted and delivered as its outcomes say; it finds an open
   channel exactly if the task before it was delivered.
   */
  ghost predicate Treated(jobs: seq<Job>, made: seq<nat>, delivered: seq<bool>, k: nat)
    requires k < |jobs| && k < |made| == |delivered|
  {
    var open := k > 0 && delivered[k - 1];
    var ok := SendOutcomes(jobs[k].attempts, open, open);
    Attempts(jobs[k].retry, ok, jobs[k].stopped, made[k]) && delivered[k] == ok(made[k] - 1)
  }

  ghost predicate AllTreated(jobs: seq<Job>, made: seq<nat>, delivered: seq<bool>) {
    && |made| == |delivered| <= |jobs|
    && forall k: nat | k < |made| :: Treated(jobs, made, delivered, k)
  }

  lemma OneMoreTreated(jobs: seq<Job>, made: seq<nat>, delivered: seq<bool>, n: nat, sent: bool)
    requires AllTreated(jobs, made, delivered) && |made| < |jobs|
    requires Treated(jobs, made + [n], delivered + [sent], |made|)
    ensures AllTreated(jobs, made + [n], delivered + [sent])
  {
    forall k: nat | k < |made| ensures Treated(jobs, made + [n], delivered + [sent], k) {
      assert Treated(jobs, made, delivered, k);
    }
  }

  /** The broker took the message of each delivered task once, and no other message. */
  ghost predicate ConfirmedOnce(log: seq<Call>, delivered: seq<bool>) {
    forall k: nat :: Confirmed(log, k) == if k < |delivered| && delivered[k] then 1 else 0
  }

  lemma OneMoreConfirmed(before: seq<Call>, after: seq<Call>, delivered: seq<bool>, sent: bool)
    requires ConfirmedOnce(before, delivered) && Adds(before, after, |delivered|, sent)
    ensures ConfirmedOnce(after, delivered + [sent])
  {
    hide Confirmed;
  }

  /**
   The run of a publisher until the queue is closed or the process stops. Each task is
   attempted as its outcomes say, and its message confirmed once if it was delivered and
   else never; whatever the broker did, its log obeys the rules, and in the end all
   connections that were opened are closed.
   */
  method Run(jobs: seq<Job>) returns (w: Worker, made: seq<nat>, delivered: seq<bool>)
    ensures fresh(w) && w.Valid() && w.connection == None && w.channel == None
    ensures |made| == |jobs| && AllTreated(jobs, made, delivered)
    ensures w.log == AfterTasks(jobs, made) + Closing(Left(AfterTasks(jobs, made)))
    ensures ConfirmedOnce(w.log, delivered)
    ensures CountDials(w.log) == CountHangUps(w.log)
  {
    hide Confirmed, AllTreated, Adds, CountDials, CountHangUps, AfterAttempts;
    w := new Worker();
    made, delivered := [], [];
    NothingTreated(jobs);
    for i := 0 to |jobs|
      invariant fresh(w) && w.Valid()
      invariant |made| == |delivered| == i
      invariant w.connection.Some? == w.channel.Some? == (i > 0 && delivered[i - 1])
      invariant AllTreated(jobs, made, delivered)
      invariant w.log == AfterTasks(jobs, made)
      invariant ConfirmedOnce(w.log, delivered)
    {
      ghost var before := w.log;
      var n, sent, _ := w.SendTask(i, jobs[i]);
      OneMoreTreated(jobs, made, delivered, n, sent);
      OneMoreConfirmed(before, w.log, delivered, sent);
      assert (made + [n])[..i] == made;
      made, delivered := made + [n], delivered + [sent];
    }
    ghost var before, open := w.log, Left(w.log);
    w.Close();
    ClosingConfirms(w.log, before, open);
    OpenMinusClosed(w.log);
  }

  lemma NothingTreated(jobs: seq<Job>)
    ensures AllTreated(jobs, [], []) && ConfirmedOnce([], [])
  {
  }
}
