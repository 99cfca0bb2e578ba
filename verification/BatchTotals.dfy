/**
 The two places that count finished tasks into a batch: one at a time when an agent reports
 (backend/services/task_service.py), and in bulk when the watchdog expires tasks
 (backend/tasks/task_heartbeat_watchdog.py).
 */
module BatchTotals {

  datatype BatchStatus = Pending | Running | Completed | Partial | Failed | Cancelled

  datatype Batch = Batch(org: nat, status: BatchStatus, total: nat, succeeded: nat, failed: nat)

  /** Verdict over a finished batch. */
  function Verdict(succeeded: nat, failed: nat): BatchStatus {
    if failed == 0 then Completed else if succeeded == 0 then BatchStatus.Failed else Partial
  }

  /** A batch whose counters have reached its total: COMPLETED without failures, FAILED without successes. */
  predicate Decided(batch: Batch) {
    batch.succeeded + batch.failed >= batch.total ==>
      && (batch.status == Completed <==> batch.failed == 0)
      && (batch.status == BatchStatus.Failed <==> batch.failed > 0 && batch.succeeded == 0)
      && (batch.status == Partial <==> batch.failed > 0 && batch.succeeded > 0)
  }

  /** One report from an agent. */
  function Reported(batch: Batch, success: bool): Batch {
    var b := if success then batch.(succeeded := batch.succeeded + 1) else batch.(failed := batch.failed + 1);
    if b.succeeded + b.failed >= b.total then b.(status := Verdict(b.succeeded, b.failed))
    else if b.status == Pending then b.(status := Running)
    else b
  }

  /** `count` tasks expired by one watchdog cycle. */
  function TimedOut(batch: Batch, count: nat): Batch {
    var b := batch.(failed := batch.failed + count);
    if b.succeeded + b.failed >= b.total then b.(status := Verdict(b.succeeded, b.failed)) else b
  }

  /** One update of a batch: an agent's report, or the share of a watchdog cycle. */
  datatype Tally = Report(success: bool) | Expiry(count: nat)

  function Tallied(batch: Batch, tally: Tally): Batch {
    match tally
    case Report(success) => Reported(batch, success)
    case Expiry(count) => TimedOut(batch, count)
  }

  /** A run of updates, in order. */
  function TalliedAll(batch: Batch, tallies: seq<Tally>): Batch {
    if tallies == [] then batch
    else Tallied(TalliedAll(batch, tallies[..|tallies| - 1]), tallies[|tallies| - 1])
  }

  function Successes(tallies: multiset<Tally>): nat {
    tallies[Report(true)]
  }

  function Failures(tallies: seq<Tally>): nat {
    if tallies == [] then 0
    else
      Failures(tallies[..|tallies| - 1]) + Lost(tallies[|tallies| - 1])
  }

  predicate HasReport(tallies: seq<Tally>) {
    Report(true) in tallies || Report(false) in tallies
  }

  /** `batch` after some updates with these totals; `reported` says whether an agent reported. */
  function Settled(batch: Batch, succeeded: nat, failed: nat, reported: bool): Batch {
    var s, f := batch.succeeded + succeeded, batch.failed + failed;
    batch.(succeeded := s, failed := f,
           status := if s + f >= batch.total then Verdict(s, f)
                     else if batch.status == Pending && reported then Running
                     else batch.status)
  }

  /**
   Closed form: what a nonempty run of updates leaves behind depends on how many tasks succeeded
   and failed in it, and (for a batch still PENDING) on whether an agent reported at all.
   */
  lemma {:induction false} TalliesInClosedForm(batch: Batch, tallies: seq<Tally>)
    requires tallies != []
    ensures TalliedAll(batch, tallies) ==
            Settled(batch, Successes(multiset(tallies)), Failures(tallies), HasReport(tallies))
  {
    var front, last := tallies[..|tallies| - 1], tallies[|tallies| - 1];
    assert tallies == front + [last];
    LastTally(batch, front, last);
    if front == [] {
      SettledFirst(batch, last);
    } else {
      TalliesInClosedForm(batch, front);
      SettledNext(batch, Successes(multiset(front)), Failures(front), HasReport(front), last);
    }
  }

  function Won(tally: Tally): nat { if tally == Report(true) then 1 else 0 }

  function Lost(tally: Tally): nat {
    match tally
    case Report(success) => if success then 0 else 1
    case Expiry(count) => count
  }

  lemma LastTally(batch: Batch, front: seq<Tally>, last: Tally)
    ensures TalliedAll(batch, front + [last]) == Tallied(TalliedAll(batch, front), last)
    ensures HasReport(front + [last]) <==> HasReport(front) || last.Report?
    ensures Successes(multiset(front + [last])) == Successes(multiset(front)) + Won(last)
    ensures Failures(front + [last]) == Failures(front) + Lost(last)
  {
    assert (front + [last])[..|front|] == front;
  }

  lemma SettledFirst(batch: Batch, tally: Tally)
    ensures Tallied(batch, tally) == Settled(batch, Won(tally), Lost(tally), tally.Report?)
  {
  }

  lemma SettledNext(batch: Batch, s: nat, f: nat, reported: bool, tally: Tally)
    ensures Tallied(Settled(batch, s, f, reported), tally)
         == Settled(batch, s + Won(tally), f + Lost(tally), reported || tally.Report?)
  {
  }

  /** Failures do not depend on the order of the updates. */
  lemma {:induction false} FailuresCommute(first: seq<Tally>, second: seq<Tally>)
    requires multiset(first) == multiset(second)
    ensures Failures(first) == Failures(second)
    decreases |first|
  {
    if first == [] {
      assert |multiset(second)| == 0;
    } else {
      var front, last := first[..|first| - 1], first[|first| - 1];
      assert first == front + [last];
      assert last in multiset(second);
      var k :| 0 <= k < |second| && second[k] == last;
      var before, after := second[..k], second[k + 1..];
      assert second == before + [last] + after;
      DropLast(front, before, after, last);
      FailuresCommute(front, before + after);
      FailuresSplit(before, after);
      FailuresSplit(before + [last], after);
      assert (before + [last])[..k] == before;
    }
  }

  lemma DropLast(front: seq<Tally>, before: seq<Tally>, after: seq<Tally>, last: Tally)
    requires multiset(front + [last]) == multiset(before + [last] + after)
    ensures multiset(front) == multiset(before + after)
  {
    assert multiset(before + [last] + after) == multiset(before + after) + multiset{last};
    assert multiset(front + [last]) == multiset(front) + multiset{last};
    assert multiset(front) == multiset(front + [last]) - multiset{last};
    assert multiset(before + after) == multiset(before + [last] + after) - multiset{last};
  }

  lemma {:induction false} FailuresSplit(a: seq<Tally>, b: seq<Tally>)
    ensures Failures(a + b) == Failures(a) + Failures(b)
  {
    if b == [] {
      assert a + b == a;
    } else {
      var front := b[..|b| - 1];
      assert (a + b)[..|a + b| - 1] == a + front;
      FailuresSplit(a, front);
    }
  }

  /** Any permutation of the same reports and expiries leaves the batch in the same state. */
  lemma TalliesCommute(batch: Batch, first: seq<Tally>, second: seq<Tally>)
    requires multiset(first) == multiset(second)
    ensures TalliedAll(batch, first) == TalliedAll(batch, second)
  {
    FailuresCommute(first, second);
    assert |multiset(first)| == |first| && |multiset(second)| == |second|;
    assert forall t :: t in first <==> t in multiset(first);
    assert forall t :: t in second <==> t in multiset(second);
    if first != [] {
      TalliesInClosedForm(batch, first);
      TalliesInClosedForm(batch, second);
    }
  }

  /**
   The watchdog's bulk update by `count` is `count` single failure reports, exactly when the
   batch is not left PENDING by the bulk update (the single path moves PENDING to RUNNING, the
   bulk path does not).
   */
  lemma BulkIsRepeatedSingle(batch: Batch, count: nat)
    requires count > 0
    ensures TimedOut(batch, count) == TalliedAll(batch, seq(count, i => Report(false)))
       <==> batch.status != Pending || batch.succeeded + batch.failed + count >= batch.total
  {
    var reports := seq(count, i => Report(false));
    TalliesInClosedForm(batch, reports);
    OnlyFailures(reports);
    assert reports[0] in reports;
  }

  lemma {:induction false} OnlyFailures(reports: seq<Tally>)
    requires forall i | 0 <= i < |reports| :: reports[i] == Report(false)
    ensures Failures(reports) == |reports| && Successes(multiset(reports)) == 0
  {
    if reports == [] {
    } else {
      OnlyFailures(reports[..|reports| - 1]);
      assert Report(true) !in reports;
    }
  }
}
