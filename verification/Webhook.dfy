/** Delivery of one webhook: the sending loop with its waits, against a remote side that may do anything. */
module Webhook {
  import opened Retry

  /** What one attempt may come to. */
  datatype Answer = NoRequest | NoResponse | Status(code: nat)

  /** The success test of the original, with the truncating division on a status code. */
  predicate Delivered(a: Answer) {
    a.Status? && a.code / 100 == 2
  }

  lemma DeliveredIs2xx(a: Answer)
    ensures Delivered(a) <==> a.Status? && 200 <= a.code <= 299
  {
  }

  /** One attempt as seen from outside: its answer and how long it took. */
  datatype Attempt = Attempt(answer: Answer, took: nat)

  function Oks(attempts: nat -> Attempt): Outcomes {
    (i: nat) => Delivered(attempts(i).answer)
  }

  function Tooks(attempts: nat -> Attempt): Durations {
    (i: nat) => attempts(i).took
  }

  /**
   The sending loop. `stopped(i)` says that the process stops during the wait after attempt
   `i`, `cut(i)` after how long. With an invalid address nothing is sent. The elapsed time
   counts attempts and waits.
   */
  method Send(validUrl: bool, s: Settings, attempts: nat -> Attempt, stopped: Outcomes, cut: Durations)
    returns (made: nat, delivered: bool, elapsed: nat)
    requires s.timeout > 0
    ensures !validUrl ==> made == 0 && !delivered && elapsed == 0
    ensures validUrl ==>
              && Attempts(s.retry, Oks(attempts), stopped, made)
              && delivered == Delivered(attempts(made - 1).answer)
              && elapsed == TotalTime(s.retry, Oks(attempts), Tooks(attempts), Pauses(s.timeout, stopped, cut), made)
  {
    made, delivered, elapsed := 0, false, 0;
    if !validUrl {
      return;
    }
    ghost var ok := Oks(attempts);
    ghost var pauses := Pauses(s.timeout, stopped, cut);
    while true
      invariant made < Bound(s.retry)
      invariant GoesOn(s.retry, ok, stopped, made)
      invariant elapsed == Elapsed(made, Tooks(attempts), pauses)
      invariant !delivered
      decreases Bound(s.retry) - made
    {
      var attempt := attempts(made);
      elapsed := elapsed + attempt.took;
      made := made + 1;
      if Delivered(attempt.answer) {
        delivered := true;
        break;
      }
      if made - 1 >= s.retry {
        break;
      }
      if stopped(made - 1) {
        elapsed := elapsed + if cut(made - 1) < s.timeout then cut(made - 1) else s.timeout;
        break;
      }
      elapsed := elapsed + s.timeout;
    }
  }
}
