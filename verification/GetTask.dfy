/**
 The regulated search for a task (pfunc/taskmgr.hpp, `get_task`).

 The completion predicate and the queue scan are the outside world: `done(k)` is the answer to the k-th test and
 `scan(k)` the result of the k-th scan.  A search may go on forever, so a call is watched for an arbitrary number of
 tests; whatever the length of the watch, the activity seen so far obeys the contract.
 */
module GetTask {
  import opened Common

  datatype Activity<T> = Tested(answer: bool) | Scanned(found: Option<T>) | Yielded

  datatype Outcome<T> = Returned(task: Option<T>) | StillSearching

  function Last<T>(trace: seq<Activity<T>>): Activity<T>
    requires trace != []
  {
    trace[|trace| - 1]
  }

  function ButLast<T>(trace: seq<Activity<T>>): seq<Activity<T>>
    requires trace != []
  {
    trace[..|trace| - 1]
  }

  function Tests<T>(trace: seq<Activity<T>>): nat {
    if trace == [] then 0 else Tests(ButLast(trace)) + if Last(trace).Tested? then 1 else 0
  }

  function Scans<T>(trace: seq<Activity<T>>): nat {
    if trace == [] then 0 else Scans(ButLast(trace)) + if Last(trace).Scanned? then 1 else 0
  }

  function Yields<T>(trace: seq<Activity<T>>): nat {
    if trace == [] then 0 else Yields(ButLast(trace)) + if Last(trace).Yielded? then 1 else 0
  }

  /** Scans since the last time the processor was given up. */
  function Burst<T>(trace: seq<Activity<T>>): nat {
    if trace == [] || Last(trace).Yielded? then 0
    else Burst(ButLast(trace)) + if Last(trace).Scanned? then 1 else 0
  }

  /** How many scans are allowed before the next yield. */
  function Budget(maxAttempts: nat, given: nat): nat {
    if given == 0 then maxAttempts
    else if maxAttempts / 2 == 0 then 1 else maxAttempts / 2
  }

  /** No burst of scans ever exceeds its budget. */
  ghost predicate Regulated<T>(trace: seq<Activity<T>>, maxAttempts: nat) {
    trace == [] ||
    (Regulated(ButLast(trace), maxAttempts) && Burst(trace) <= Budget(maxAttempts, Yields(trace)))
  }

  /** The processor is given up only once the budget is used up. */
  ghost predicate FullBursts<T>(trace: seq<Activity<T>>, maxAttempts: nat) {
    trace == [] ||
    (&& FullBursts(ButLast(trace), maxAttempts)
     && (Last(trace).Yielded? ==> Burst(ButLast(trace)) == Budget(maxAttempts, Yields(ButLast(trace)))))
  }

  /** The activity is what the outside world answered, in order. */
  ghost predicate Replays<T>(trace: seq<Activity<T>>, done: nat -> bool, scan: nat -> Option<T>) {
    trace == [] ||
    (&& Replays(ButLast(trace), done, scan)
     && match Last(trace)
        case Tested(c) => c == done(Tests(ButLast(trace)))
        case Scanned(x) => x == scan(Scans(ButLast(trace)))
        case Yielded => true)
  }

  /** Once completion has been seen it stays: the predicate is "twice testable". */
  ghost predicate Monotone(done: nat -> bool) {
    forall j, k :: j <= k && done(j) ==> done(k)
  }

  /** No scan of the trace found a task. */
  ghost predicate FoundNothing<T>(trace: seq<Activity<T>>) {
    forall i :: 0 <= i < |trace| && trace[i].Scanned? ==> trace[i].found == None
  }

  /** After completion has been seen the next activity is another test: no scan and no yield. */
  ghost predicate HeedsCompletion<T>(trace: seq<Activity<T>>) {
    forall i :: 0 <= i < |trace| - 1 && trace[i] == Tested(true) ==> trace[i + 1].Tested?
  }

  ghost predicate NotSeen<T>(trace: seq<Activity<T>>) {
    forall i :: 0 <= i < |trace| ==> trace[i] != Tested(true)
  }

  lemma ExtendHeeding<T>(trace: seq<Activity<T>>, a: Activity<T>)
    requires HeedsCompletion(trace) && (a.Tested? || trace == [] || Last(trace) != Tested(true))
    ensures HeedsCompletion(trace + [a])
    ensures NotSeen(trace) && a != Tested(true) ==> NotSeen(trace + [a])
  {
  }

  /** Everything the trace of a search obeys at any time. */
  ghost predicate Lawful<T>(trace: seq<Activity<T>>, done: nat -> bool, scan: nat -> Option<T>, maxAttempts: nat) {
    && Replays(trace, done, scan)
    && Regulated(trace, maxAttempts)
    && (Monotone(done) ==> FullBursts(trace, maxAttempts))
  }

  lemma Extend<T>(trace: seq<Activity<T>>, a: Activity<T>)
    ensures var t := trace + [a];
            && ButLast(t) == trace && Last(t) == a
            && Tests(t) == Tests(trace) + (if a.Tested? then 1 else 0)
            && Scans(t) == Scans(trace) + (if a.Scanned? then 1 else 0)
            && Yields(t) == Yields(trace) + (if a.Yielded? then 1 else 0)
            && Burst(t) == (if a.Yielded? then 0 else if a.Scanned? then Burst(trace) + 1 else Burst(trace))
    ensures FoundNothing(trace) && !(a.Scanned? && a.found.Some?) ==> FoundNothing(trace + [a])
  {
    var t := trace + [a];
    assert ButLast(t) == trace;
  }

  lemma ExtendTested<T>(trace: seq<Activity<T>>, done: nat -> bool, scan: nat -> Option<T>, maxAttempts: nat)
    requires Lawful(trace, done, scan, maxAttempts) && Burst(trace) <= Budget(maxAttempts, Yields(trace))
    ensures Lawful(trace + [Tested(done(Tests(trace)))], done, scan, maxAttempts)
  {
    Extend(trace, Tested(done(Tests(trace))));
  }

  lemma ExtendScanned<T>(trace: seq<Activity<T>>, done: nat -> bool, scan: nat -> Option<T>, maxAttempts: nat)
    requires Lawful(trace, done, scan, maxAttempts) && Burst(trace) < Budget(maxAttempts, Yields(trace))
    ensures Lawful(trace + [Scanned(scan(Scans(trace)))], done, scan, maxAttempts)
  {
    Extend(trace, Scanned(scan(Scans(trace))));
  }

  lemma ExtendYielded<T>(trace: seq<Activity<T>>, done: nat -> bool, scan: nat -> Option<T>, maxAttempts: nat)
    requires Lawful(trace, done, scan, maxAttempts)
    requires Monotone(done) ==> Burst(trace) == Budget(maxAttempts, Yields(trace))
    ensures Lawful(trace + [Yielded], done, scan, maxAttempts)
  {
    Extend(trace, Yielded);
  }

  /** Why the inner loop ended. */
  datatype Stop = WatchOver | SawCompletion | OutOfAttempts | FoundTask

  /** Where a search stands: nothing found yet, and `attempts` scans left before the next yield. */
  ghost predicate Searching<T>(
    trace: seq<Activity<T>>, done: nat -> bool, scan: nat -> Option<T>, maxAttempts: nat, attempts: nat, watch: nat)
  {
    && Lawful(trace, done, scan, maxAttempts) && FoundNothing(trace) && Tests(trace) <= watch
    && attempts + Burst(trace) == Budget(maxAttempts, Yields(trace))
    && HeedsCompletion(trace) && (trace != [] ==> Last(trace) != Tested(true)) && (Monotone(done) ==> NotSeen(trace))
  }

  /** What the inner loop leaves behind. */
  ghost predicate BurstEnded<T>(
    stop: Stop, found: Option<T>, trace: seq<Activity<T>>, done: nat -> bool, scan: nat -> Option<T>, maxAttempts: nat)
  {
    && Lawful(trace, done, scan, maxAttempts) && Burst(trace) <= Budget(maxAttempts, Yields(trace))
    && (stop == FoundTask <==> found.Some?)
    && (if found.Some? then trace != [] && Last(trace) == Scanned(found) && FoundNothing(ButLast(trace))
        else FoundNothing(trace))
    && (stop == SawCompletion <==> trace != [] && Last(trace) == Tested(true))
    && (stop == OutOfAttempts ==> Burst(trace) == Budget(maxAttempts, Yields(trace)))
    && HeedsCompletion(trace)
    && (Monotone(done) ==> NotSeen(if stop == SawCompletion then ButLast(trace) else trace))
  }

  /** The test at the head of the inner loop. */
  lemma FirstTest<T>(
    trace: seq<Activity<T>>, done: nat -> bool, scan: nat -> Option<T>, maxAttempts: nat, attempts: nat, watch: nat)
    requires Searching(trace, done, scan, maxAttempts, attempts, watch) && Tests(trace) < watch
    ensures var complete := done(Tests(trace));
            var next := trace + [Tested(complete)];
            && Tests(next) == Tests(trace) + 1 && Scans(next) == Scans(trace)
            && (complete ==> BurstEnded(SawCompletion, None, next, done, scan, maxAttempts))
            && (!complete ==> Searching(next, done, scan, maxAttempts, attempts, watch))
  {
    var complete := done(Tests(trace));
    ExtendTested(trace, done, scan, maxAttempts);
    Extend(trace, Tested(complete));
    ExtendHeeding(trace, Tested(complete));
  }

  /** The burst stops with nothing found, at the end of the watch or of its attempts. */
  lemma BurstStops<T>(
    stop: Stop, trace: seq<Activity<T>>, done: nat -> bool, scan: nat -> Option<T>, maxAttempts: nat, attempts: nat,
    watch: nat)
    requires Searching(trace, done, scan, maxAttempts, attempts, watch)
    requires stop == WatchOver || (stop == OutOfAttempts && attempts == 0)
    ensures BurstEnded(stop, None, trace, done, scan, maxAttempts)
  {
  }

  /** A scan uses up one attempt. */
  lemma OneScan<T>(
    trace: seq<Activity<T>>, done: nat -> bool, scan: nat -> Option<T>, maxAttempts: nat, attempts: nat, watch: nat)
    requires Searching(trace, done, scan, maxAttempts, attempts, watch) && attempts > 0
    ensures var found := scan(Scans(trace));
            var next := trace + [Scanned(found)];
            && Tests(next) == Tests(trace) && Scans(next) == Scans(trace) + 1
            && (found.Some? ==> BurstEnded(FoundTask, found, next, done, scan, maxAttempts))
            && (found.None? ==> Searching(next, done, scan, maxAttempts, attempts - 1, watch))
  {
    var found := scan(Scans(trace));
    ExtendScanned(trace, done, scan, maxAttempts);
    Extend(trace, Scanned(found));
    ExtendHeeding(trace, Scanned(found));
  }

  /** The inner loop: test and scan until completion, a task, or the end of the attempts. */
  method SearchBurst<T>(
    done: nat -> bool, scan: nat -> Option<T>, maxAttempts: nat, watch: nat,
    trace0: seq<Activity<T>>, attempts0: nat, tests0: nat, scans0: nat)
    returns (stop: Stop, found: Option<T>, attempts: nat, trace: seq<Activity<T>>, tests: nat, scans: nat)
    requires Searching(trace0, done, scan, maxAttempts, attempts0, watch) && attempts0 < WORD && Tests(trace0) <= watch
    requires tests0 == Tests(trace0) && scans0 == Scans(trace0)
    ensures tests == Tests(trace) <= watch && scans == Scans(trace) && attempts < WORD
    ensures tests0 < tests || stop == WatchOver
    ensures BurstEnded(stop, found, trace, done, scan, maxAttempts)
    ensures stop == WatchOver ==> tests == watch
    ensures stop == SawCompletion ==> tests > 0 && done(tests - 1)
  {
    found, attempts, trace, tests, scans := None, attempts0, trace0, tests0, scans0;
    while true
      invariant tests0 <= tests == Tests(trace) <= watch && scans == Scans(trace) && attempts < WORD
      invariant found == None && Searching(trace, done, scan, maxAttempts, attempts, watch)
      decreases watch - tests
    {
      if tests == watch {
        stop := WatchOver;
        BurstStops(stop, trace, done, scan, maxAttempts, attempts, watch);
        return;
      }
      var complete := done(tests);
      FirstTest(trace, done, scan, maxAttempts, attempts, watch);
      trace, tests := trace + [Tested(complete)], tests + 1;
      if complete {
        stop := SawCompletion;
        return;
      }
      var more := 0 < attempts;
      attempts := Wrap32(attempts - 1);
      if !more {
        stop := OutOfAttempts;
        BurstStops(stop, trace, done, scan, maxAttempts, 0, watch);
        return;
      }
      found := scan(scans);
      OneScan(trace, done, scan, maxAttempts, attempts + 1, watch);
      trace, scans := trace + [Scanned(found)], scans + 1;
      if found.Some? {
        stop := FoundTask;
        return;
      }
    }
  }

  /** What a search promises of its outcome and of everything it did. */
  ghost predicate Kept<T>(
    outcome: Outcome<T>, trace: seq<Activity<T>>, done: nat -> bool, scan: nat -> Option<T>, maxAttempts: nat,
    watch: nat)
  {
    && Lawful(trace, done, scan, maxAttempts)
    // NULL is returned only after the completion predicate was seen true
    && (outcome == Returned(None) ==> trace != [] && Last(trace) == Tested(true) && FoundNothing(trace))
    // a task that was found is returned, whatever the completion predicate says meanwhile
    && (outcome.Returned? && outcome.task.Some? ==>
          && |trace| >= 2 && Last(trace).Tested? && Last(ButLast(trace)) == Scanned(outcome.task)
          && FoundNothing(ButLast(ButLast(trace))))
    && (outcome.StillSearching? ==> Tests(trace) == watch)
    && (outcome.StillSearching? ==>
          FoundNothing(trace) || (trace != [] && Last(trace).Scanned? && FoundNothing(ButLast(trace))))
    // completion ends the search: after it was seen nothing is scanned, and if it stays, one more test is the last
    && HeedsCompletion(trace)
    && (Monotone(done) && |trace| >= 2 ==> NotSeen(ButLast(ButLast(trace))))
    && (Monotone(done) && |trace| >= 2 && Last(ButLast(trace)) == Tested(true) ==> outcome == Returned(None))
  }

  /** The watch is over before the second test. */
  lemma WatchEnds<T>(
    stop: Stop, found: Option<T>, trace: seq<Activity<T>>, done: nat -> bool, scan: nat -> Option<T>,
    maxAttempts: nat, watch: nat)
    requires BurstEnded(stop, found, trace, done, scan, maxAttempts) && Tests(trace) == watch
    ensures Kept(StillSearching, trace, done, scan, maxAttempts, watch)
  {
  }

  /** The second test ends the search. */
  lemma SecondTestEnds<T>(
    stop: Stop, found: Option<T>, trace: seq<Activity<T>>, done: nat -> bool, scan: nat -> Option<T>,
    maxAttempts: nat, watch: nat)
    requires BurstEnded(stop, found, trace, done, scan, maxAttempts)
    requires var complete := done(Tests(trace));
             && (complete || found.Some?)
             && (Monotone(done) && stop == SawCompletion ==> complete)
    ensures Kept(Returned(found), trace + [Tested(done(Tests(trace)))], done, scan, maxAttempts, watch)
  {
    var complete := done(Tests(trace));
    ExtendTested(trace, done, scan, maxAttempts);
    Extend(trace, Tested(complete));
    ExtendHeeding(trace, Tested(complete));
    var all := trace + [Tested(complete)];
    assert ButLast(all) == trace && Last(all) == Tested(complete);
  }

  /** The second test fails with nothing found: the processor is given up and the attempts are set anew. */
  lemma SecondTestFails<T>(
    stop: Stop, trace: seq<Activity<T>>, done: nat -> bool, scan: nat -> Option<T>, maxAttempts: nat, watch: nat)
    requires BurstEnded(stop, None, trace, done, scan, maxAttempts) && Tests(trace) < watch && stop != WatchOver
    requires !done(Tests(trace)) && (Monotone(done) && stop == SawCompletion ==> done(Tests(trace)))
    ensures var next := trace + [Tested(false)] + [Yielded];
            && Searching(next, done, scan, maxAttempts, Budget(maxAttempts, 1), watch)
            && Tests(next) == Tests(trace) + 1 && Scans(next) == Scans(trace)
  {
    var tested := trace + [Tested(false)];
    ExtendTested(trace, done, scan, maxAttempts);
    Extend(trace, Tested(false));
    ExtendHeeding(trace, Tested(false));
    ExtendYielded(tested, done, scan, maxAttempts);
    Extend(tested, Yielded);
    ExtendHeeding(tested, Yielded);
  }

  method Search<T>(done: nat -> bool, scan: nat -> Option<T>, maxAttempts: nat, watch: nat)
    returns (outcome: Outcome<T>, trace: seq<Activity<T>>)
    requires maxAttempts < WORD
    ensures Kept(outcome, trace, done, scan, maxAttempts, watch)
  {
    var attempts: nat := maxAttempts;
    var tests: nat, scans: nat := 0, 0;
    trace := [];
    while true
      invariant tests == Tests(trace) <= watch && scans == Scans(trace) && attempts < WORD
      invariant Searching(trace, done, scan, maxAttempts, attempts, watch)
      decreases watch - tests
    {
      var stop, found;
      stop, found, attempts, trace, tests, scans :=
        SearchBurst(done, scan, maxAttempts, watch, trace, attempts, tests, scans);
      if tests == watch {
        WatchEnds(stop, found, trace, done, scan, maxAttempts, watch);
        return StillSearching, trace;
      }
      var complete := done(tests);
      if complete || found.Some? {
        SecondTestEnds(stop, found, trace, done, scan, maxAttempts, watch);
        return Returned(found), trace + [Tested(complete)];
      }
      // the counter, wrapped by the failed test, is overwritten here before it is looked at again
      attempts := if maxAttempts / 2 == 0 then 1 else maxAttempts / 2;
      SecondTestFails(stop, trace, done, scan, maxAttempts, watch);
      trace, tests := trace + [Tested(false)] + [Yielded], tests + 1;
    }
  }
}
