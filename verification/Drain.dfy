/** Waiting for the background workers to finish before a planned stop (scripts/sleep_drain.py). */
module Drain {
  import opened Relational
  import opened Sums
  import opened Eligibility

  /** The work one poll still sees. */
  datatype Remaining = Remaining(open: int, pending: int, inProgress: int, retrying: int, queues: map<string, int>)

  /** What a poll reads, and the clock just after it. */
  datatype Reading = Reading(counts: Counts, lengths: map<string, nat>, at: int)

  predicate IsDrained(r: Remaining) {
    r.open == 0 && r.pending == 0 && r.inProgress == 0 && r.retrying == 0 && r.queues == map[]
  }

  /** No consumed task is open, pending or running and no consumed queue holds anything. */
  predicate NothingLeft(router: Router, counts: Counts, lengths: map<string, nat>) {
    && !HasWork(router, counts, Open) && !HasWork(router, counts, Pending)
    && !HasWork(router, counts, InProgress) && !HasWork(router, counts, Retrying)
    && !QueuedWork(router, lengths)
  }

  method PollRemaining(router: Router, counts: Counts, lengths: map<string, nat>) returns (r: Remaining)
    ensures IsDrained(r) <==> NothingLeft(router, counts, lengths)
  {
    var sum := SummarizeTasks(router, counts, map[]);
    StateTotalMeansWork(router, counts, sum, Open);
    StateTotalMeansWork(router, counts, sum, Pending);
    StateTotalMeansWork(router, counts, sum, InProgress);
    StateTotalMeansWork(router, counts, sum, Retrying);
    BacklogIsQueued(router, lengths);
    r := Remaining(At(sum.byState, Open), At(sum.byState, Pending), At(sum.byState, InProgress),
                   At(sum.byState, Retrying),
                   Backlog(router, lengths));
  }

  /**
   * Drain and eligibility agree: drained means the verdict on the same readings names no running, open,
   * pending or queued work.
   */
  lemma DrainAgreesWithEligibility(router: Router, f: Facts, reasons: seq<Reason>)
    requires NamesTheWork(router, f, reasons)
    ensures NothingLeft(router, f.counts, f.queueLengths) <==>
              && !Mentions(reasons, Running) && !Mentions(reasons, Unrouted)
              && !Mentions(reasons, Queued) && !Mentions(reasons, Backlogged)
  {
  }

  // ----- the polling loop -----

  /** How long the loop sleeps once `waited` has passed. */
  function SleepFor(timeout: int, poll: int, waited: int): int {
    var left := if timeout - waited > 0 then timeout - waited else 0;
    if poll < left then poll else left
  }

  ghost predicate Advances(world: nat -> Reading, started: int, timeout: int, poll: int, k: nat) {
    world(k + 1).at >= world(k).at + SleepFor(timeout, poll, world(k).at - started)
  }

  /** The clock never runs backwards and a sleep takes at least as long as it was asked to. */
  ghost predicate HonestClock(world: nat -> Reading, started: int, timeout: int, poll: int) {
    && world(0).at >= started
    && forall k: nat :: Advances(world, started, timeout, poll, k)
  }

  /** How many polls fit when `left` remains: one now, and one more per poll interval begun. */
  function Polls(left: int, poll: nat): nat
    requires poll > 0
    decreases if left > 0 then left else 0
  {
    if left <= 0 then 1 else 1 + Polls(left - poll, poll)
  }

  /** That is ceil(left / poll) + 1. */
  lemma {:induction false} PollsIsCeilingPlusOne(left: int, poll: nat)
    requires poll > 0 && left > 0
    ensures (Polls(left, poll) - 2) * poll < left <= (Polls(left, poll) - 1) * poll
    decreases left
  {
    var n := Polls(left - poll, poll);
    assert (1 + n - 1) * poll == (n - 1) * poll + poll;
    assert (1 + n - 2) * poll == (n - 2) * poll + poll;
    if left > poll {
      PollsIsCeilingPlusOne(left - poll, poll);
    }
  }

  lemma {:induction false} PollsMonotone(a: int, b: int, poll: nat)
    requires poll > 0 && a <= b
    ensures Polls(a, poll) <= Polls(b, poll)
    decreases if b > 0 then b else 0
  {
    if a > 0 {
      PollsMonotone(a - poll, b - poll, poll);
    }
  }

  datatype Outcome = Drained | TimedOut | Aborted | Failed

  predicate Quiet(router: Router, r: Reading) {
    NothingLeft(router, r.counts, r.lengths)
  }

  /** None of the first `n` polls saw an empty system. */
  ghost predicate Busy(router: Router, world: nat -> Reading, n: int) {
    forall k: nat :: k < n ==> !Quiet(router, world(k))
  }

  lemma BusyStep(router: Router, world: nat -> Reading, n: nat)
    requires Busy(router, world, n) && !Quiet(router, world(n))
    ensures Busy(router, world, n + 1)
  {
  }

  /** Every sleep asked for is the poll interval or the time left, whichever is less, and positive. */
  ghost predicate WithinDeadline(world: nat -> Reading, started: int, timeout: int, poll: int, sleeps: seq<int>) {
    forall k: nat :: k < |sleeps| ==>
      var left := timeout - (world(k).at - started);
      && 0 < sleeps[k] <= left && sleeps[k] <= poll
      && (sleeps[k] == left || sleeps[k] == poll)
  }

  /** What may be said when the loop stops, whichever way it does. */
  ghost predicate Bounded(router: Router, timeout: nat, poll: nat, started: int, world: nat -> Reading, polls: nat,
                          sleeps: seq<int>)
    requires poll > 0
  {
    && |sleeps| <= polls <= Polls(timeout, poll)
    && WithinDeadline(world, started, timeout, poll, sleeps)
    && Busy(router, world, polls - 1)
  }

  lemma OneMoreSleep(world: nat -> Reading, started: int, timeout: int, poll: nat, sleeps: seq<int>)
    requires poll > 0 && WithinDeadline(world, started, timeout, poll, sleeps) && world(|sleeps|).at - started < timeout
    ensures WithinDeadline(world, started, timeout, poll,
                           sleeps + [SleepFor(timeout, poll, world(|sleeps|).at - started)])
  {
  }

  method PollOnce(router: Router, reading: Reading) returns (drained: bool)
    ensures drained == Quiet(router, reading)
  {
    var remaining := PollRemaining(router, reading.counts, reading.lengths);
    drained := IsDrained(remaining);
  }

  /** Poll number `k` and all that may follow it fit into the bound. */
  ghost predicate Fits(world: nat -> Reading, started: int, timeout: int, poll: nat, k: nat)
    requires poll > 0
  {
    k + Polls(timeout - (world(k).at - started), poll) <= Polls(timeout, poll)
  }

  lemma FitsInBound(world: nat -> Reading, started: int, timeout: int, poll: nat, k: nat)
    requires poll > 0 && Fits(world, started, timeout, poll, k)
    ensures k + 1 <= Polls(timeout, poll)
  {
  }

  lemma FirstPollFits(world: nat -> Reading, started: int, timeout: int, poll: nat)
    requires poll > 0 && HonestClock(world, started, timeout, poll)
    ensures Fits(world, started, timeout, poll, 0)
  {
    PollsMonotone(timeout - (world(0).at - started), timeout, poll);
  }

  /** A poll that is not out of time leaves room for the next one. */
  lemma NextPollFits(world: nat -> Reading, started: int, timeout: int, poll: nat, k: nat)
    requires poll > 0 && HonestClock(world, started, timeout, poll) && world(k).at - started < timeout
    requires Fits(world, started, timeout, poll, k)
    ensures Fits(world, started, timeout, poll, k + 1)
  {
    assert Advances(world, started, timeout, poll, k);
    var left := timeout - (world(k).at - started);
    var next := timeout - (world(k + 1).at - started);
    assert Polls(left, poll) == 1 + Polls(left - poll, poll);
    if next > 0 {
      PollsMonotone(next, left - poll, poll);
    } else {
      assert Polls(next, poll) == 1;
    }
  }

  /**
   * The loop ends within ceil(timeout / poll) + 1 polls, never asks to sleep past the deadline, says drained
   * exactly when the last poll saw nothing left, is only ever aborted by a signal and only fails when a read
   * raises. `signal` is the await at which a signal is delivered, if any, and `broken` the one that raises: 0
   * for the connect, then one per poll and one per sleep; only the connect and the polls can raise.
   */
  method DrainLoop(router: Router, timeout: nat, poll: nat, started: int, world: nat -> Reading, signal: Option<nat>,
                   broken: Option<nat>)
    returns (outcome: Outcome, polls: nat, sleeps: seq<int>)
    requires poll > 0 && timeout > 0 && HonestClock(world, started, timeout, poll)
    ensures Bounded(router, timeout, poll, started, world, polls, sleeps)
    ensures outcome == Drained ==> polls > 0 && Quiet(router, world(polls - 1))
    ensures outcome == TimedOut ==>
              polls > 0 && !Quiet(router, world(polls - 1)) && world(polls - 1).at - started >= timeout
    ensures outcome == Aborted ==> signal.Some?
    ensures outcome == Failed ==> broken.Some?
    ensures signal.None? && broken.None? ==> outcome == Drained || outcome == TimedOut
    ensures signal.None? && broken.None? && Quiet(router, world(0)) ==> outcome == Drained && polls == 1
  {
    assert Busy(router, world, 0) && Busy(router, world, -1);
    polls, sleeps := 0, [];
    if signal == Some(0) {
      return Aborted, polls, sleeps;
    }
    if broken == Some(0) {
      return Failed, polls, sleeps;
    }
    FirstPollFits(world, started, timeout, poll);
    while true
      invariant polls == |sleeps| && Fits(world, started, timeout, poll, polls)
      invariant WithinDeadline(world, started, timeout, poll, sleeps)
      invariant Busy(router, world, polls)
      decreases Polls(timeout, poll) - polls
    {
      if signal == Some(1 + 2 * polls) {
        return Aborted, polls, sleeps;
      }
      if broken == Some(1 + 2 * polls) {
        return Failed, polls, sleeps;
      }
      FitsInBound(world, started, timeout, poll, polls);
      var reading := world(polls);
      var drained := PollOnce(router, reading);
      var waited := reading.at - started;
      if drained {
        return Drained, polls + 1, sleeps;
      }
      BusyStep(router, world, polls);
      if waited >= timeout {
        return TimedOut, polls + 1, sleeps;
      }
      OneMoreSleep(world, started, timeout, poll, sleeps);
      var pause := SleepFor(timeout, poll, waited);
      sleeps := sleeps + [pause];
      if signal == Some(2 + 2 * polls) {
        return Aborted, polls + 1, sleeps;
      }
      NextPollFits(world, started, timeout, poll, polls);
      polls := polls + 1;
    }
  }
}
