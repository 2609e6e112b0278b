/**
 How spawn and wait run a fork-join program, and that every such run is one of the program's traces.

 The code of a task is a list of what it has still to do: run a program, or wait for a task it has spawned.  A spawned
 task is kept with the wait for it.  Any task may take the next step, unless it is at a wait for a task that has not
 ended; which of them do, and on which threads, is up to the scheduler.  The side-by-side parts of a program run as a
 spawn of one part, the other part in place, and a wait.
 */
module SpawnAndWait {
  import opened Common
  import opened ForkJoin

  datatype Item<L, !V> =
    | Perform(program: Program<L, V>)
    | Wait(child: seq<Item<L, V>>)

  type Code<L, !V> = seq<Item<L, V>>

  /** The first item is replaced by `code`, performing at most one memory operation. */
  ghost predicate HeadStep<L(!new), V(!new)>(x: Item<L, V>, op: Option<Act<L, V>>, code: Code<L, V>) {
    match x
    case Wait(child) => child == [] && op == None && code == []
    case Perform(p) =>
      match p
      case Do(acts) =>
        if acts == [] then op == None && code == []
        else op == Some(acts[0]) && code == [Perform(ForkJoin.Do(acts[1..]))]
      case Then(q, r) => op == None && code == [Perform(q), Perform(r)]
      case Both(q, r) =>
        && op == None
        && (code == [Perform(q), Wait([Perform(r)])] || code == [Perform(r), Wait([Perform(q)])])
  }

  /** One step of the task itself, or of a task it has spawned, or of one further down. */
  ghost predicate Step<L(!new), V(!new)>(code: Code<L, V>, op: Option<Act<L, V>>, code': Code<L, V>)
    decreases code
  {
    || OwnStep(code, op, code')
    || exists k, child' :: ChildStep(code, op, code', k, child')
  }

  ghost predicate OwnStep<L(!new), V(!new)>(code: Code<L, V>, op: Option<Act<L, V>>, code': Code<L, V>) {
    code != [] && exists head :: HeadStep(code[0], op, head) && code' == head + code[1..]
  }

  ghost predicate ChildStep<L(!new), V(!new)>(
    code: Code<L, V>, op: Option<Act<L, V>>, code': Code<L, V>, k: int, child': Code<L, V>)
    decreases code, 0
  {
    && 0 <= k < |code| && code[k].Wait? && Step(code[k].child, op, child')
    && code' == code[k := Wait(child')]
  }

  function Operation<L, V>(op: Option<Act<L, V>>): seq<Act<L, V>> {
    match op case Some(a) => [a] case None => []
  }

  /** The memory operations performed on the way through `codes`. */
  function Performed<L, V>(ops: seq<Option<Act<L, V>>>): seq<Act<L, V>> {
    if ops == [] then [] else Operation(ops[0]) + Performed(ops[1..])
  }

  /** A run that goes through `codes` and ends with nothing left to do. */
  ghost predicate CompleteRun<L(!new), V(!new)>(codes: seq<Code<L, V>>, ops: seq<Option<Act<L, V>>>) {
    && |codes| == |ops| + 1
    && (forall i :: 0 <= i < |ops| ==> Step(codes[i], ops[i], codes[i + 1]))
    && codes[|ops|] == []
  }

  // ---------------------------------------------------------------- what is left to do, as a program

  /** What code still has to do: items one after the other, and beside them the tasks they wait for. */
  ghost function Residual<L(!new), V(!new)>(code: Code<L, V>): Program<L, V>
    decreases code
  {
    if code == [] then ForkJoin.Do([])
    else Extend(Residual(code[..|code| - 1]), code[|code| - 1], ResidualOfChild(code[|code| - 1]))
  }

  ghost function ResidualOfChild<L(!new), V(!new)>(x: Item<L, V>): Program<L, V>
    decreases x
  {
    match x case Wait(child) => Residual(child) case Perform(p) => p
  }

  function Extend<L, V>(before: Program<L, V>, x: Item<L, V>, p: Program<L, V>): Program<L, V> {
    if x.Wait? then Both(p, before) else Then(before, p)
  }

  lemma ResidualSnoc<L(!new), V(!new)>(code: Code<L, V>, x: Item<L, V>)
    ensures Residual(code + [x]) == Extend(Residual(code), x, ResidualOfChild(x))
  {
    var all := code + [x];
    assert all[..|all| - 1] == code && all[|all| - 1] == x;
  }

  // ---------------------------------------------------------------- traces in context

  lemma ThenTrace<L(!new), V(!new)>(q: Program<L, V>, r: Program<L, V>, a: seq<Act<L, V>>, b: seq<Act<L, V>>)
    requires Trace(q, a) && Trace(r, b)
    ensures Trace(Then(q, r), a + b)
  {
    var tr := a + b;
    assert tr[..|a|] == a && tr[|a|..] == b;
    assert InSequence(q, r, tr, |a|);
  }

  lemma BothTrace<L(!new), V(!new)>(
    q: Program<L, V>, r: Program<L, V>, tr: seq<Act<L, V>>, a: seq<Act<L, V>>, b: seq<Act<L, V>>)
    requires Trace(q, a) && Trace(r, b) && Interleaves(tr, a, b)
    ensures Trace(Both(q, r), tr)
  {
    assert SideBySide(q, r, tr, a, b);
  }

  lemma ThenParts<L(!new), V(!new)>(
    q: Program<L, V>, r: Program<L, V>, tr: seq<Act<L, V>>) returns (a: seq<Act<L, V>>, b: seq<Act<L, V>>)
    requires Trace(Then(q, r), tr)
    ensures Trace(q, a) && Trace(r, b) && tr == a + b
  {
    var k: nat :| InSequence(q, r, tr, k);
    a, b := tr[..k], tr[k..];
  }

  lemma NothingThen<L(!new), V(!new)>(p: Program<L, V>, tr: seq<Act<L, V>>)
    ensures Trace(Then(ForkJoin.Do([]), p), tr) <==> Trace(p, tr)
  {
    var none: Program<L, V> := ForkJoin.Do([]);
    if Trace(Then(none, p), tr) {
      var a, b := ThenParts(none, p, tr);
      assert a == [] && b == tr;
    }
    if Trace(p, tr) {
      ThenTrace(none, p, [], tr);
      assert [] + tr == tr;
    }
  }

  lemma {:induction false} InterleavesSwap<L(!new), V(!new)>(tr: seq<Act<L, V>>, a: seq<Act<L, V>>, b: seq<Act<L, V>>)
    requires Interleaves(tr, a, b)
    ensures Interleaves(tr, b, a)
    decreases |tr|
  {
    if tr != [] {
      if a != [] && tr[0] == a[0] && Interleaves(tr[1..], a[1..], b) {
        InterleavesSwap(tr[1..], a[1..], b);
      } else {
        InterleavesSwap(tr[1..], a, b[1..]);
      }
    }
  }

  lemma InterleavesEarlier<L(!new), V(!new)>(
    op: Option<Act<L, V>>, tr: seq<Act<L, V>>, a: seq<Act<L, V>>, b: seq<Act<L, V>>)
    requires Interleaves(tr, a, b)
    ensures Interleaves(Operation(op) + tr, Operation(op) + a, b) &&
              Interleaves(Operation(op) + tr, a, Operation(op) + b)
  {
    match op {
      case None =>
        assert Operation(op) + tr == tr && Operation(op) + a == a && Operation(op) + b == b;
      case Some(x) =>
        assert ([x] + tr)[1..] == tr && ([x] + a)[1..] == a && ([x] + b)[1..] == b;
    }
  }

  lemma BothParts<L(!new), V(!new)>(
    q: Program<L, V>, r: Program<L, V>, tr: seq<Act<L, V>>) returns (a: seq<Act<L, V>>, b: seq<Act<L, V>>)
    requires Trace(Both(q, r), tr)
    ensures Trace(q, a) && Trace(r, b) && Interleaves(tr, a, b)
  {
    a, b :| SideBySide(q, r, tr, a, b);
  }

  // ---------------------------------------------------------------- steps and traces

  /** The first item stepping on its own. */
  lemma HeadSimulates<L(!new), V(!new)>(x: Item<L, V>, op: Option<Act<L, V>>, head: Code<L, V>, tr: seq<Act<L, V>>)
    requires HeadStep(x, op, head) && Trace(Residual(head), tr)
    ensures Trace(Residual([x]), Operation(op) + tr)
  {
    var none: Program<L, V> := ForkJoin.Do([]);
    ResidualSnoc([], x);
    assert [] + [x] == [x] && Residual<L, V>([]) == none;
    assert op.None? ==> Operation(op) + tr == tr;
    match x {
      case Wait(_) =>
        BothTrace(none, none, tr, [], []);
      case Perform(p) =>
        match p {
          case Do(acts) => DoSimulates(acts, op, head, tr);
          case Then(q, r) => ThenSimulates(q, r, tr);
          case Both(q, r) => BothSimulates(q, r, head, tr);
        }
        NothingThen(p, Operation(op) + tr);
    }
  }

  lemma ResidualOne<L(!new), V(!new)>(p: Program<L, V>)
    ensures Residual([Perform(p)]) == Then(ForkJoin.Do([]), p)
  {
    ResidualSnoc([], Perform(p));
    assert [] + [Perform(p)] == [Perform(p)];
  }

  lemma DoSimulates<L(!new), V(!new)>(acts: seq<Act<L, V>>, op: Option<Act<L, V>>, head: Code<L, V>, tr: seq<Act<L, V>>)
    requires HeadStep(Perform(ForkJoin.Do(acts)), op, head) && Trace(Residual(head), tr)
    ensures Trace(ForkJoin.Do(acts), Operation(op) + tr)
  {
    if acts != [] {
      ResidualOne(ForkJoin.Do(acts[1..]));
      NothingThen(ForkJoin.Do(acts[1..]), tr);
      assert [acts[0]] + acts[1..] == acts;
    }
  }

  lemma ThenSimulates<L(!new), V(!new)>(q: Program<L, V>, r: Program<L, V>, tr: seq<Act<L, V>>)
    requires Trace(Residual([Perform(q), Perform(r)]), tr)
    ensures Trace(Then(q, r), tr)
  {
    ResidualSnoc([Perform(q)], Perform(r));
    assert [Perform(q)] + [Perform(r)] == [Perform(q), Perform(r)];
    var a, b := ThenParts(Residual([Perform(q)]), r, tr);
    ResidualOne(q);
    NothingThen(q, a);
    ThenTrace(q, r, a, b);
  }

  /** Spawning `r` and running `q` in place. */
  lemma SpawnSimulates<L(!new), V(!new)>(q: Program<L, V>, r: Program<L, V>, tr: seq<Act<L, V>>)
    requires Trace(Residual([Perform(q), Wait([Perform(r)])]), tr)
    ensures Trace(Both(r, q), tr) && Trace(Both(q, r), tr)
  {
    ResidualSnoc([Perform(q)], Wait([Perform(r)]));
    assert [Perform(q)] + [Wait([Perform(r)])] == [Perform(q), Wait([Perform(r)])];
    var a, b := BothParts(Residual([Perform(r)]), Residual([Perform(q)]), tr);
    ResidualOne(q);
    ResidualOne(r);
    NothingThen(r, a);
    NothingThen(q, b);
    BothTrace(r, q, tr, a, b);
    InterleavesSwap(tr, a, b);
    BothTrace(q, r, tr, b, a);
  }

  lemma BothSimulates<L(!new), V(!new)>(q: Program<L, V>, r: Program<L, V>, head: Code<L, V>, tr: seq<Act<L, V>>)
    requires head == [Perform(q), Wait([Perform(r)])] || head == [Perform(r), Wait([Perform(q)])]
    requires Trace(Residual(head), tr)
    ensures Trace(Both(q, r), tr)
  {
    if head == [Perform(q), Wait([Perform(r)])] {
      SpawnSimulates(q, r, tr);
    } else {
      SpawnSimulates(r, q, tr);
    }
  }

  /** A step among the items before the last one, under the last one. */
  lemma {:induction false} InitSimulates<L(!new), V(!new)>(
    code: Code<L, V>, op: Option<Act<L, V>>, init': Code<L, V>, tr: seq<Act<L, V>>)
    requires code != [] && Step(code[..|code| - 1], op, init')
    requires Trace(Residual(init' + [code[|code| - 1]]), tr)
    ensures Trace(Residual(code), Operation(op) + tr)
    decreases code, 0
  {
    var init, x := code[..|code| - 1], code[|code| - 1];
    var p := ResidualOfChild(x);
    ResidualSnoc(init', x);
    if x.Wait? {
      var a, b := BothParts(p, Residual(init'), tr);
      StepSimulates(init, op, init', b);
      InterleavesEarlier(op, tr, a, b);
      BothTrace(p, Residual(init), Operation(op) + tr, a, Operation(op) + b);
    } else {
      var a, b := ThenParts(Residual(init'), p, tr);
      StepSimulates(init, op, init', a);
      ThenTrace(Residual(init), p, Operation(op) + a, b);
      assert (Operation(op) + a) + b == Operation(op) + (a + b);
    }
  }

  /** A step of the task that the last item waits for. */
  lemma {:induction false} LastChildSimulates<L(!new), V(!new)>(
    code: Code<L, V>, op: Option<Act<L, V>>, child': Code<L, V>, tr: seq<Act<L, V>>)
    requires code != [] && code[|code| - 1].Wait? && Step(code[|code| - 1].child, op, child')
    requires Trace(Residual(code[..|code| - 1] + [Wait(child')]), tr)
    ensures Trace(Residual(code), Operation(op) + tr)
    decreases code, 0
  {
    var init, x := code[..|code| - 1], code[|code| - 1];
    ResidualSnoc(init, Wait(child'));
    assert Residual(code) == Both(Residual(x.child), Residual(init));
    var a, b := BothParts(Residual(child'), Residual(init), tr);
    StepSimulates(x.child, op, child', a);
    InterleavesEarlier(op, tr, a, b);
    BothTrace(Residual(x.child), Residual(init), Operation(op) + tr, Operation(op) + a, b);
  }

  /**
   Whatever the rest of the run performs, preceded by the operation of this step, is a trace of what there was to do.
   */
  lemma {:induction false} StepSimulates<L(!new), V(!new)>(
    code: Code<L, V>, op: Option<Act<L, V>>, code': Code<L, V>, tr: seq<Act<L, V>>)
    requires Step(code, op, code') && Trace(Residual(code'), tr)
    ensures Trace(Residual(code), Operation(op) + tr)
    decreases code, 1
  {
    var n := |code| - 1;
    if OwnStep(code, op, code') {
      if n == 0 {
        var head :| HeadStep(code[0], op, head) && code' == head + code[1..];
        assert code == [code[0]] && code' == head;
        HeadSimulates(code[0], op, head, tr);
      } else {
        var init' := OwnStepOfInit(code, op, code');
        InitSimulates(code, op, init', tr);
      }
    } else {
      var k, child' :| ChildStep(code, op, code', k, child');
      if k == n {
        assert code' == code[..n] + [Wait(child')];
        LastChildSimulates(code, op, child', tr);
      } else {
        var init' := ChildStepOfInit(code, op, code', k, child');
        InitSimulates(code, op, init', tr);
      }
    }
  }

  lemma OwnStepOfInit<L(!new), V(!new)>(code: Code<L, V>, op: Option<Act<L, V>>, code': Code<L, V>)
    returns (init': Code<L, V>)
    requires |code| > 1 && OwnStep(code, op, code')
    ensures Step(code[..|code| - 1], op, init') && init' + [code[|code| - 1]] == code'
  {
    var init := code[..|code| - 1];
    var head :| HeadStep(code[0], op, head) && code' == head + code[1..];
    init' := head + init[1..];
    assert HeadStep(init[0], op, head);
    assert OwnStep(init, op, init');
  }

  lemma ChildStepOfInit<L(!new), V(!new)>(
    code: Code<L, V>, op: Option<Act<L, V>>, code': Code<L, V>, k: int, child': Code<L, V>)
    returns (init': Code<L, V>)
    requires ChildStep(code, op, code', k, child') && k < |code| - 1
    ensures Step(code[..|code| - 1], op, init') && init' + [code[|code| - 1]] == code'
  {
    var init := code[..|code| - 1];
    init' := init[k := Wait(child')];
    assert ChildStep(init, op, init', k, child');
  }

  lemma {:induction false} RestOfRun<L(!new), V(!new)>(codes: seq<Code<L, V>>, ops: seq<Option<Act<L, V>>>, i: nat)
    requires CompleteRun(codes, ops) && i <= |ops|
    ensures Trace(Residual(codes[i]), Performed(ops[i..]))
    decreases |ops| - i
  {
    if i < |ops| {
      RestOfRun(codes, ops, i + 1);
      assert ops[i..][1..] == ops[i + 1..];
      StepSimulates(codes[i], ops[i], codes[i + 1], Performed(ops[i + 1..]));
    }
  }

  /** However spawned tasks are scheduled, the operations of a complete run are a trace of the program. */
  lemma EveryRunIsTrace<L(!new), V(!new)>(p: Program<L, V>, codes: seq<Code<L, V>>, ops: seq<Option<Act<L, V>>>)
    requires CompleteRun(codes, ops) && codes[0] == [Perform(p)]
    ensures Trace(p, Performed(ops))
  {
    RestOfRun(codes, ops, 0);
    assert ops[0..] == ops;
    ResidualOne(p);
    NothingThen(p, Performed(ops));
  }

  /** So a race-free program, run by spawning and waiting, ends in the memory of its serial execution. */
  lemma EveryRunIsSerial<L(!new), V(!new)>(
    p: Program<L, V>, codes: seq<Code<L, V>>, ops: seq<Option<Act<L, V>>>, m: Memory<L, V>)
    requires CompleteRun(codes, ops) && codes[0] == [Perform(p)] && RaceFree(p) && ForkJoin.Total(m)
    ensures Run(Performed(ops), m) == Run(Serial(p), m)
  {
    EveryRunIsTrace(p, codes, ops);
    EveryScheduleIsSerial(p, Performed(ops), m);
  }

  // ---------------------------------------------------------------- runs end

  /** Until everything is done, some task can take a step. */
  lemma {:induction false} SomethingCanStep<L(!new), V(!new)>(code: Code<L, V>)
    returns (op: Option<Act<L, V>>, code': Code<L, V>)
    requires code != []
    ensures Step(code, op, code')
    decreases code
  {
    var x := code[0];
    op := None;
    if x.Wait? && x.child != [] {
      var child';
      op, child' := SomethingCanStep(x.child);
      code' := code[0 := Wait(child')];
      assert ChildStep(code, op, code', 0, child');
    } else {
      var head: Code<L, V> := [];
      match x {
        case Wait(_) =>
        case Perform(Do(acts)) =>
          if acts != [] {
            op, head := Some(acts[0]), [Perform(ForkJoin.Do(acts[1..]))];
          }
        case Perform(Then(q, r)) => head := [Perform(q), Perform(r)];
        case Perform(Both(q, r)) => head := [Perform(q), Wait([Perform(r)])];
      }
      assert HeadStep(x, op, head);
      code' := head + code[1..];
      assert OwnStep(code, op, code');
    }
  }

  /** How many steps a program takes. */
  function Steps<L, V>(p: Program<L, V>): nat {
    match p
    case Do(acts) => |acts| + 1
    case Then(q, r) => Steps(q) + Steps(r) + 1
    case Both(q, r) => Steps(q) + Steps(r) + 2
  }

  function ItemSteps<L, V>(x: Item<L, V>): nat
    decreases x
  {
    match x case Perform(p) => Steps(p) case Wait(child) => CodeSteps(child) + 1
  }

  function CodeSteps<L, V>(code: Code<L, V>): nat
    decreases code
  {
    if code == [] then 0 else ItemSteps(code[0]) + CodeSteps(code[1..])
  }

  lemma {:induction false} CodeStepsConcat<L, V>(a: Code<L, V>, b: Code<L, V>)
    ensures CodeSteps(a + b) == CodeSteps(a) + CodeSteps(b)
  {
    if a == [] {
      assert a + b == b;
    } else {
      CodeStepsConcat(a[1..], b);
      assert (a + b)[1..] == a[1..] + b;
    }
  }

  lemma {:induction false} CodeStepsUpdate<L, V>(code: Code<L, V>, k: nat, x: Item<L, V>)
    requires k < |code|
    ensures CodeSteps(code[k := x]) + ItemSteps(code[k]) == CodeSteps(code) + ItemSteps(x)
  {
    if k == 0 {
      assert code[k := x][1..] == code[1..];
    } else {
      CodeStepsUpdate(code[1..], k - 1, x);
      assert code[k := x][1..] == code[1..][k - 1 := x];
    }
  }

  lemma HeadStepCounts<L(!new), V(!new)>(x: Item<L, V>, op: Option<Act<L, V>>, head: Code<L, V>)
    requires HeadStep(x, op, head)
    ensures CodeSteps(head) + 1 == ItemSteps(x)
  {
    if |head| == 2 {
      assert head == [head[0]] + [head[1]];
      CodeStepsConcat([head[0]], [head[1]]);
      CodeStepsOne(head[0]);
      CodeStepsOne(head[1]);
      if head[1].Wait? {
        CodeStepsOne(head[1].child[0]);
      }
    } else if |head| == 1 {
      CodeStepsOne(head[0]);
    }
  }

  lemma CodeStepsOne<L, V>(x: Item<L, V>)
    ensures CodeSteps([x]) == ItemSteps(x)
  {
    assert [x][1..] == [];
  }

  /** Every step brings the end closer by exactly one. */
  lemma {:induction false} StepCounts<L(!new), V(!new)>(code: Code<L, V>, op: Option<Act<L, V>>, code': Code<L, V>)
    requires Step(code, op, code')
    ensures CodeSteps(code') + 1 == CodeSteps(code)
    decreases code
  {
    if OwnStep(code, op, code') {
      var head :| HeadStep(code[0], op, head) && code' == head + code[1..];
      HeadStepCounts(code[0], op, head);
      CodeStepsConcat(head, code[1..]);
    } else {
      var k, child' :| ChildStep(code, op, code', k, child');
      StepCounts(code[k].child, op, child');
      CodeStepsUpdate(code, k, Wait(child'));
    }
  }

  /** Steps so far and what is left add up. */
  lemma {:induction false} RunCounts<L(!new), V(!new)>(codes: seq<Code<L, V>>, ops: seq<Option<Act<L, V>>>, i: nat)
    requires |codes| == |ops| + 1 && i <= |ops| && forall j :: 0 <= j < |ops| ==> Step(codes[j], ops[j], codes[j + 1])
    ensures i + CodeSteps(codes[i]) == CodeSteps(codes[0])
  {
    if i > 0 {
      RunCounts(codes, ops, i - 1);
      StepCounts(codes[i - 1], ops[i - 1], codes[i - 1 + 1]);
    }
  }

  /**
   Spawning and waiting always comes to an end: every run can be continued until nothing is left to do, and it has then
   taken exactly as many steps as the program has, whatever the schedule.
   */
  lemma EveryRunTakesAsLong<L(!new), V(!new)>(p: Program<L, V>, codes: seq<Code<L, V>>, ops: seq<Option<Act<L, V>>>)
    requires |codes| == |ops| + 1 && forall j :: 0 <= j < |ops| ==> Step(codes[j], ops[j], codes[j + 1])
    requires codes[0] == [Perform(p)]
    ensures |ops| <= Steps(p)
    ensures |ops| == Steps(p) <==> codes[|ops|] == []
    ensures |ops| < Steps(p) ==> exists op, code' :: Step(codes[|ops|], op, code')
  {
    RunCounts(codes, ops, |ops|);
    var last := codes[|ops|];
    assert CodeSteps([Perform(p)]) == Steps(p);
    if last != [] {
      var op, code' := SomethingCanStep(last);
      StepCounts(last, op, code');
    }
  }

  // ---------------------------------------------------------------- every trace is a run

  /** A step of the first items is a step of the whole code. */
  lemma StepOfInit<L(!new), V(!new)>(init: Code<L, V>, op: Option<Act<L, V>>, init': Code<L, V>, x: Item<L, V>)
    requires Step(init, op, init')
    ensures Step(init + [x], op, init' + [x])
  {
    var code := init + [x];
    if OwnStep(init, op, init') {
      var head :| HeadStep(init[0], op, head) && init' == head + init[1..];
      assert code[1..] == init[1..] + [x];
      assert HeadStep(code[0], op, head) && init' + [x] == head + code[1..];
      assert OwnStep(code, op, init' + [x]);
    } else {
      var k, child' :| ChildStep(init, op, init', k, child');
      assert init' + [x] == code[k := Wait(child')];
      assert ChildStep(code, op, init' + [x], k, child');
    }
  }

  /** A step of the task that the last item waits for is a step of the whole code. */
  lemma StepOfLastChild<L(!new), V(!new)>(
    init: Code<L, V>, op: Option<Act<L, V>>, child: Code<L, V>, child': Code<L, V>)
    requires Step(child, op, child')
    ensures Step(init + [Wait(child)], op, init + [Wait(child')])
  {
    var code := init + [Wait(child)];
    assert code[|init| := Wait(child')] == init + [Wait(child')];
    assert ChildStep(code, op, init + [Wait(child')], |init|, child');
  }

  lemma OperationFirst<L, V>(op: Option<Act<L, V>>, tr: seq<Act<L, V>>, rest: seq<Act<L, V>>)
    requires tr == Operation(op) + rest
    ensures op.None? ==> rest == tr
    ensures op.Some? ==> tr != [] && tr[0] == op.value && tr[1..] == rest
  {
  }

  /** How the trace of what is left goes on: with a step that performs its first operation, or none. */
  ghost predicate GoesOn<L(!new), V(!new)>(
    code: Code<L, V>, tr: seq<Act<L, V>>, op: Option<Act<L, V>>, code': Code<L, V>, rest: seq<Act<L, V>>)
  {
    Step(code, op, code') && tr == Operation(op) + rest && Trace(Residual(code'), rest)
  }

  lemma OwnGoesOn<L(!new), V(!new)>(
    x: Item<L, V>, tr: seq<Act<L, V>>, op: Option<Act<L, V>>, head: Code<L, V>, rest: seq<Act<L, V>>)
    requires HeadStep(x, op, head) && tr == Operation(op) + rest && Trace(Residual(head), rest)
    ensures GoesOn([x], tr, op, head, rest)
  {
    assert head + [x][1..] == head;
    assert OwnStep([x], op, head);
  }

  lemma {:induction false} PerformGoesOn<L(!new), V(!new)>(p: Program<L, V>, tr: seq<Act<L, V>>)
    returns (op: Option<Act<L, V>>, head: Code<L, V>, rest: seq<Act<L, V>>)
    requires Trace(p, tr)
    ensures GoesOn([Perform(p)], tr, op, head, rest)
  {
    op, rest := None, tr;
    match p {
      case Do(acts) =>
        if acts == [] {
          head := [];
        } else {
          op, rest, head := Some(acts[0]), acts[1..], [Perform(ForkJoin.Do(acts[1..]))];
          ResidualOne(ForkJoin.Do(acts[1..]));
          NothingThen(ForkJoin.Do(acts[1..]), rest);
        }
      case Then(q, r) =>
        head := [Perform(q), Perform(r)];
        ThenIsPerformed(q, r, tr);
      case Both(q, r) =>
        head := [Perform(q), Wait([Perform(r)])];
        BothIsSpawned(q, r, tr);
    }
    OwnGoesOn(Perform(p), tr, op, head, rest);
  }

  lemma ThenIsPerformed<L(!new), V(!new)>(q: Program<L, V>, r: Program<L, V>, tr: seq<Act<L, V>>)
    requires Trace(Then(q, r), tr)
    ensures Trace(Residual([Perform(q), Perform(r)]), tr)
  {
    ResidualSnoc([Perform(q)], Perform(r));
    assert [Perform(q)] + [Perform(r)] == [Perform(q), Perform(r)];
    var a, b := ThenParts(q, r, tr);
    ResidualOne(q);
    NothingThen(q, a);
    ThenTrace(Residual([Perform(q)]), r, a, b);
  }

  lemma BothIsSpawned<L(!new), V(!new)>(q: Program<L, V>, r: Program<L, V>, tr: seq<Act<L, V>>)
    requires Trace(Both(q, r), tr)
    ensures Trace(Residual([Perform(q), Wait([Perform(r)])]), tr)
  {
    ResidualSnoc([Perform(q)], Wait([Perform(r)]));
    assert [Perform(q)] + [Wait([Perform(r)])] == [Perform(q), Wait([Perform(r)])];
    var a, b := BothParts(q, r, tr);
    ResidualOne(q);
    ResidualOne(r);
    NothingThen(q, a);
    NothingThen(r, b);
    InterleavesSwap(tr, a, b);
    BothTrace(Residual([Perform(r)]), Residual([Perform(q)]), tr, b, a);
  }

  /** Of two parts side by side, one whose next step performs nothing, or the first operation, can go first. */
  lemma WhoGoesFirst<L(!new), V(!new)>(
    tr: seq<Act<L, V>>, a: seq<Act<L, V>>, b: seq<Act<L, V>>,
    opA: Option<Act<L, V>>, restA: seq<Act<L, V>>, opB: Option<Act<L, V>>, restB: seq<Act<L, V>>)
    returns (left: bool, rest: seq<Act<L, V>>)
    requires Interleaves(tr, a, b) && a == Operation(opA) + restA && b == Operation(opB) + restB
    ensures left ==> tr == Operation(opA) + rest && Interleaves(rest, restA, b)
    ensures !left ==> tr == Operation(opB) + rest && Interleaves(rest, a, restB)
  {
    OperationFirst(opA, a, restA);
    OperationFirst(opB, b, restB);
    if opA.None? {
      left, rest := true, tr;
    } else if opB.None? {
      left, rest := false, tr;
    } else {
      left := tr[0] == a[0] && Interleaves(tr[1..], a[1..], b);
      rest := tr[1..];
      assert tr == [tr[0]] + rest;
    }
  }

  /** One part goes on, beside a last item that has nothing left to wait for. */
  lemma {:induction false} InterleavesNothing<L(!new), V(!new)>(tr: seq<Act<L, V>>, b: seq<Act<L, V>>)
    ensures Interleaves(tr, [], b) <==> tr == b
    decreases |tr|
  {
    if tr != [] && b != [] {
      InterleavesNothing(tr[1..], b[1..]);
      assert tr == [tr[0]] + tr[1..] && b == [b[0]] + b[1..];
    }
  }

  /** What comes before an item, and what it waits for, takes fewer steps than both together. */
  lemma CodeStepsSnoc<L, V>(init: Code<L, V>, x: Item<L, V>)
    ensures CodeSteps(init + [x]) == CodeSteps(init) + ItemSteps(x)
    ensures CodeSteps(init) < CodeSteps(init + [x])
    ensures x.Wait? ==> CodeSteps(x.child) < CodeSteps(init + [x]) && CodeSteps(x.child) < CodeSteps([x])
  {
    CodeStepsConcat(init, [x]);
    CodeStepsOne(x);
    if x.Perform? {
      StepsPositive(x.program);
    }
  }

  lemma StepsPositive<L, V>(p: Program<L, V>)
    ensures Steps(p) > 0
  {
  }

  lemma {:induction false} WaitAloneGoesOn<L(!new), V(!new)>(child: Code<L, V>, tr: seq<Act<L, V>>)
    returns (op: Option<Act<L, V>>, code': Code<L, V>, rest: seq<Act<L, V>>)
    requires Trace(Residual([Wait(child)]), tr)
    ensures GoesOn([Wait(child)], tr, op, code', rest)
    decreases CodeSteps([Wait(child)]), 1
  {
    CodeStepsSnoc([], Wait(child));
    var none: Program<L, V> := ForkJoin.Do([]);
    ResidualSnoc([], Wait(child));
    assert [] + [Wait(child)] == [Wait(child)] && Residual<L, V>([]) == none;
    var a, b := BothParts(Residual(child), none, tr);
    InterleavesSwap(tr, a, b);
    InterleavesNothing(tr, a);
    if child == [] {
      op, code', rest := None, [], [];
      OwnGoesOn(Wait(child), tr, op, code', rest);
    } else {
      var child';
      op, child', rest := SomeStepGoesOn(child, tr);
      code' := [Wait(child')];
      StepOfLastChild([], op, child, child');
      assert [] + [Wait(child')] == code';
      ResidualSnoc([], Wait(child'));
      InterleavesNothing(rest, rest);
      InterleavesSwap(rest, [], rest);
      BothTrace(Residual(child'), none, rest, rest, []);
    }
  }

  lemma {:induction false} PerformLastGoesOn<L(!new), V(!new)>(init: Code<L, V>, p: Program<L, V>, tr: seq<Act<L, V>>)
    returns (op: Option<Act<L, V>>, code': Code<L, V>, rest: seq<Act<L, V>>)
    requires init != [] && Trace(Residual(init + [Perform(p)]), tr)
    ensures GoesOn(init + [Perform(p)], tr, op, code', rest)
    decreases CodeSteps(init + [Perform(p)]), 1
  {
    CodeStepsSnoc(init, Perform(p));
    ResidualSnoc(init, Perform(p));
    var a, b := ThenParts(Residual(init), p, tr);
    var init', restA;
    op, init', restA := SomeStepGoesOn(init, a);
    code', rest := init' + [Perform(p)], restA + b;
    StepOfInit(init, op, init', Perform(p));
    ResidualSnoc(init', Perform(p));
    ThenTrace(Residual(init'), p, restA, b);
    assert (Operation(op) + restA) + b == Operation(op) + (restA + b);
  }

  lemma {:induction false} WaitLastGoesOn<L(!new), V(!new)>(init: Code<L, V>, child: Code<L, V>, tr: seq<Act<L, V>>)
    returns (op: Option<Act<L, V>>, code': Code<L, V>, rest: seq<Act<L, V>>)
    requires init != [] && Trace(Residual(init + [Wait(child)]), tr)
    ensures GoesOn(init + [Wait(child)], tr, op, code', rest)
    decreases CodeSteps(init + [Wait(child)]), 1
  {
    ResidualSnoc(init, Wait(child));
    var a, b := BothParts(Residual(child), Residual(init), tr);
    CodeStepsSnoc(init, Wait(child));
    var opB, init', restB := SomeStepGoesOn(init, b);
    var left := false;
    if child == [] {
      InterleavesNothing(tr, b);
      InterleavesNothing(restB, restB);
      rest := restB;
    } else {
      var opA, child', restA := SomeStepGoesOn(child, a);
      left, rest := WhoGoesFirst(tr, a, b, opA, restA, opB, restB);
      if left {
        op, code' := opA, init + [Wait(child')];
        StepOfLastChild(init, opA, child, child');
        ResidualSnoc(init, Wait(child'));
        BothTrace(Residual(child'), Residual(init), rest, restA, b);
      }
    }
    if !left {
      op, code' := opB, init' + [Wait(child)];
      StepOfInit(init, opB, init', Wait(child));
      ResidualSnoc(init', Wait(child));
      BothTrace(Residual(child), Residual(init'), rest, a, restB);
    }
  }

  lemma {:induction false} SomeStepGoesOn<L(!new), V(!new)>(code: Code<L, V>, tr: seq<Act<L, V>>)
    returns (op: Option<Act<L, V>>, code': Code<L, V>, rest: seq<Act<L, V>>)
    requires code != [] && Trace(Residual(code), tr)
    ensures GoesOn(code, tr, op, code', rest)
    decreases CodeSteps(code), 2
  {
    var n := |code| - 1;
    var init, x := code[..n], code[n];
    assert code == init + [x];
    match x {
      case Perform(p) =>
        if init == [] {
          assert code == [Perform(p)];
          ResidualOne(p);
          NothingThen(p, tr);
          op, code', rest := PerformGoesOn(p, tr);
        } else {
          op, code', rest := PerformLastGoesOn(init, p, tr);
        }
      case Wait(child) =>
        if init == [] {
          assert code == [Wait(child)];
          op, code', rest := WaitAloneGoesOn(child, tr);
        } else {
          op, code', rest := WaitLastGoesOn(init, child, tr);
        }
    }
  }

  lemma {:induction false} TraceIsPerformed<L(!new), V(!new)>(code: Code<L, V>, tr: seq<Act<L, V>>)
    returns (codes: seq<Code<L, V>>, ops: seq<Option<Act<L, V>>>)
    requires Trace(Residual(code), tr)
    ensures CompleteRun(codes, ops) && codes[0] == code && Performed(ops) == tr
    decreases CodeSteps(code)
  {
    if code == [] {
      codes, ops := [code], [];
    } else {
      var op, code', rest := SomeStepGoesOn(code, tr);
      StepCounts(code, op, code');
      var codes', ops' := TraceIsPerformed(code', rest);
      codes, ops := [code] + codes', [op] + ops';
      assert ops[1..] == ops';
      forall i | 0 <= i < |ops|
        ensures Step(codes[i], ops[i], codes[i + 1])
      {
        if i > 0 {
          assert Step(codes'[i - 1], ops'[i - 1], codes'[i - 1 + 1]);
        }
      }
    }
  }

  /**
   The traces of a program are exactly what its runs perform: spawned tasks can run beside their parent in every way
   that the waits allow.
   */
  lemma TracesAreExactlyTheRuns<L(!new), V(!new)>(p: Program<L, V>, tr: seq<Act<L, V>>)
    ensures Trace(p, tr) <==>
            exists codes: seq<Code<L, V>>, ops: seq<Option<Act<L, V>>> ::
              CompleteRun(codes, ops) && codes[0] == [Perform(p)] && Performed(ops) == tr
  {
    if Trace(p, tr) {
      ResidualOne(p);
      NothingThen(p, tr);
      var codes, ops := TraceIsPerformed([Perform(p)], tr);
      assert CompleteRun(codes, ops) && codes[0] == [Perform(p)] && Performed(ops) == tr;
    }
    forall codes: seq<Code<L, V>>, ops: seq<Option<Act<L, V>>>
      | CompleteRun(codes, ops) && codes[0] == [Perform(p)] && Performed(ops) == tr
      ensures Trace(p, tr)
    {
      EveryRunIsTrace(p, codes, ops);
    }
  }
}
