/**
 * The false-optional analysis (`ImplicationAnalysis`): for each pair of
 * literals it asks the solver, under the negations of the pair's literals,
 * whether the model stays satisfiable, and records the pair when it does
 * not. A ring of recent models lets it skip pairs whose second literal is
 * missing from one of them.
 *
 * The solver behind the `ISolver` interface is a stack of pushed literals
 * with oracles for the answers it gives; the monitor is an oracle telling,
 * for its n-th check, whether the run was cancelled.
 */
module Implication {
  import opened Wrappers
  import opened SatResults
  import opened RingLists

  /**
   * The solver's answers as functions of its current stack: whether pushing
   * a literal raises a `ContradictionException`, `isSatisfiable`, the model
   * `getSoulution` gives after a TRUE answer, and `findSolution`.
   */
  datatype Oracles = Oracles(
    contradicts: (seq<int>, int) -> bool,
    sat: seq<int> -> SatResult,
    solution: seq<int> -> seq<int>,
    findSolution: seq<int> -> Option<seq<int>>)

  /** How a run ends: normally, by the monitor's cancel exception, or by popping an empty stack. */
  datatype Status = Running | Cancelled | Underflow

  /** One run's parameters: the solver's answers, the monitor's, and the ring's capacity. */
  datatype Env = Env(o: Oracles, cancel: nat -> bool, capacity: nat)

  /** The solver stack, the model ring, the recorded pairs and the number of cancel checks so far. */
  datatype State = State(status: Status, stack: seq<int>, cache: seq<seq<int>>, result: seq<seq<int>>, checks: nat)

  predicate WellFormed(pairs: seq<seq<int>>)
  {
    forall k :: 0 <= k < |pairs| ==> |pairs[k]| >= 2
  }

  /** `pair[1]` occurs in every cached model. */
  predicate InEveryModel(cache: seq<seq<int>>, v: int)
  {
    forall m :: m in cache ==> v in m
  }

  /**
   * Pushing the negation of each of `lits` in order; a push that raises a
   * contradiction pushes nothing and records the pair.
   */
  function PushNegations(o: Oracles, stack: seq<int>, result: seq<seq<int>>, pair: seq<int>, lits: seq<int>): (seq<int>, seq<seq<int>>)
    decreases |lits|
  {
    if lits == [] then (stack, result)
    else
      var (s, r) := PushNegations(o, stack, result, pair, lits[..|lits| - 1]);
      var l := -lits[|lits| - 1];
      if o.contradicts(s, l) then (s, r + [pair]) else (s + [l], r)
  }

  /** `n` pops: the stack without its top `n` entries, or `None` when it runs empty first. */
  function PopN(stack: seq<int>, n: nat): Option<seq<int>>
  {
    if n == 0 then Some(stack)
    else if stack == [] then None
    else PopN(stack[..|stack| - 1], n - 1)
  }

  /** Lines 82-102: push, ask, record or cache, pop as often as the pair is long. */
  function Examine(env: Env, st: State, pair: seq<int>): State
  {
    var (s1, r1) := PushNegations(env.o, st.stack, st.result, pair, pair);
    var answer := env.o.sat(s1);
    var r2 := if answer == FALSE then r1 + [pair] else r1;
    var c2 := if answer == TRUE then RingAdd(st.cache, env.capacity, env.o.solution(s1)) else st.cache;
    match PopN(s1, |pair|)
    case None => State(Underflow, [], c2, r2, st.checks)
    case Some(s2) => State(Running, s2, c2, r2, st.checks)
  }

  /** One iteration of the pair loop. */
  function Step(env: Env, st: State, pair: seq<int>): State
    requires |pair| >= 2
  {
    if env.cancel(st.checks) then st.(status := Cancelled, checks := st.checks + 1)
    else
      var st1 := st.(checks := st.checks + 1);
      if InEveryModel(st.cache, pair[1]) then Examine(env, st1, pair) else st1
  }

  /** The pair loop over `pairs`, stopping at the first exception. */
  function Loop(env: Env, st: State, pairs: seq<seq<int>>): State
    requires WellFormed(pairs)
    decreases |pairs|
  {
    if pairs == [] then st
    else
      var s := Loop(env, st, pairs[..|pairs| - 1]);
      if s.status != Running then s else Step(env, s, pairs[|pairs| - 1])
  }

  /** `analyze` from a solver stack `stack` and a monitor that has been checked `checks` times. */
  function AnalyzeSpec(o: Oracles, cancel: nat -> bool, maxBuffer: nat, pairs: Option<seq<seq<int>>>,
                       stack: seq<int>, checks: nat): State
    requires pairs.Some? ==> WellFormed(pairs.value)
  {
    match pairs
    case None => State(Running, stack, [], [], checks)
    case Some(ps) =>
      var env := Env(o, cancel, Min(|ps|, maxBuffer));
      if cancel(checks) then State(Cancelled, stack, [], [], checks + 1)
      else
        match o.findSolution(stack)
        case None => State(Running, stack, [], [], checks + 1)
        case Some(m) => Loop(env, State(Running, stack, RingAdd([], env.capacity, m), [], checks + 1), ps)
  }

  /** `n` copies of `p`. */
  function Repeat(p: seq<int>, n: nat): (r: seq<seq<int>>)
    ensures |r| == n && forall k :: 0 <= k < n ==> r[k] == p
  {
    if n == 0 then [] else Repeat(p, n - 1) + [p]
  }

  /** The list made of `counts[k]` copies of `pairs[k]` for each `k` in order. */
  function Expanded(pairs: seq<seq<int>>, counts: seq<nat>): seq<seq<int>>
    requires |counts| == |pairs|
    decreases |pairs|
  {
    if pairs == [] then []
    else Expanded(pairs[..|pairs| - 1], counts[..|counts| - 1]) + Repeat(pairs[|pairs| - 1], counts[|counts| - 1])
  }

  /** The result lists input pairs in input order, each at most once per literal plus once for FALSE. */
  ghost predicate RecordedInOrder(result: seq<seq<int>>, pairs: seq<seq<int>>)
  {
    exists counts: seq<nat> ::
      |counts| == |pairs| && (forall k :: 0 <= k < |pairs| ==> counts[k] <= |pairs[k]| + 1) &&
      Expanded(pairs, counts) == result
  }

  // ----- Facts about single steps -----

  /**
   * The pushes leave the old stack below the newly pushed negations and
   * append one copy of the pair per contradiction.
   */
  lemma {:induction false} PushNegationsShape(o: Oracles, stack: seq<int>, result: seq<seq<int>>, pair: seq<int>, lits: seq<int>)
    ensures var (s, r) := PushNegations(o, stack, result, pair, lits);
            |result| <= |r| <= |result| + |lits| && r == result + Repeat(pair, |r| - |result|) &&
            |s| == |stack| + |lits| - (|r| - |result|) && s[..|stack|] == stack
    decreases |lits|
  {
    if lits != [] {
      PushNegationsShape(o, stack, result, pair, lits[..|lits| - 1]);
      var (s, r) := PushNegations(o, stack, result, pair, lits[..|lits| - 1]);
      var l := -lits[|lits| - 1];
      if o.contradicts(s, l) {
        assert Repeat(pair, |r| - |result| + 1) == Repeat(pair, |r| - |result|) + [pair];
      } else {
        assert (s + [l])[..|stack|] == s[..|stack|];
      }
    }
  }

  lemma {:induction false} PopNShape(stack: seq<int>, n: nat)
    ensures PopN(stack, n) == if n <= |stack| then Some(stack[..|stack| - n]) else None
    decreases n
  {
    if n == 0 {
      assert stack[..|stack|] == stack;
    } else if stack != [] {
      PopNShape(stack[..|stack| - 1], n - 1);
      if n <= |stack| {
        assert stack[..|stack| - 1][..|stack| - 1 - (n - 1)] == stack[..|stack| - n];
      }
    }
  }

  /**
   * Popping as often as the pair is long removes one entry too many per
   * push that raised a contradiction: the stack comes back to its old depth
   * exactly when every push succeeded, and the run fails when fewer entries
   * than contradictions lay below. The pair is recorded once per
   * contradiction and once more on FALSE; the model the solver gives after
   * TRUE goes into the ring.
   */
  lemma ExamineEffect(env: Env, st: State, pair: seq<int>) returns (contradictions: nat)
    ensures var s := Examine(env, st, pair);
            var (s1, r1) := PushNegations(env.o, st.stack, st.result, pair, pair);
            s.result == r1 + (if env.o.sat(s1) == FALSE then [pair] else []) &&
            s.cache == (if env.o.sat(s1) == TRUE then RingAdd(st.cache, env.capacity, env.o.solution(s1)) else st.cache) &&
            s.checks == st.checks &&
            contradictions == |PushNegations(env.o, st.stack, st.result, pair, pair).1| - |st.result| &&
            (s.status == Running <==> contradictions <= |st.stack|) &&
            (s.status == Running ==> s.stack == st.stack[..|st.stack| - contradictions]) &&
            s.status != Cancelled &&
            contradictions <= |pair| &&
            s.result == st.result + Repeat(pair, contradictions + if env.o.sat(s1) == FALSE then 1 else 0)
  {
    var (s1, r1) := PushNegations(env.o, st.stack, st.result, pair, pair);
    PushNegationsShape(env.o, st.stack, st.result, pair, pair);
    contradictions := |r1| - |st.result|;
    PopNShape(s1, |pair|);
    if |pair| <= |s1| {
      assert s1[..|s1| - |pair|] == s1[..|st.stack|][..|st.stack| - contradictions];
    }
    var answer := env.o.sat(s1);
    if answer == FALSE {
      assert Repeat(pair, contradictions + 1) == Repeat(pair, contradictions) + [pair];
    }
  }

  /**
   * A pair whose second literal is missing from a cached model costs one
   * cancel check and leaves everything else as it was: no push, no pop, no
   * record.
   */
  lemma SkippedPairUnchanged(env: Env, st: State, pair: seq<int>)
    requires |pair| >= 2 && !env.cancel(st.checks) && !InEveryModel(st.cache, pair[1])
    ensures Step(env, st, pair) == st.(checks := st.checks + 1)
  {
  }

  /** A step keeps the ring within its capacity, and a non-empty ring stays non-empty. */
  lemma StepKeepsCache(env: Env, st: State, pair: seq<int>)
    requires |pair| >= 2 && |st.cache| <= env.capacity
    ensures |Step(env, st, pair).cache| <= env.capacity
    ensures st.cache != [] ==> Step(env, st, pair).cache != []
  {
    var (s1, r1) := PushNegations(env.o, st.stack, st.result, pair, pair);
    RingAddBounded(st.cache, env.capacity, env.o.solution(s1));
  }

  // ----- Facts about the loop -----

  /** Once stopped, the loop stays stopped: longer inputs give the same state. */
  lemma {:induction false} LoopStopped(env: Env, st: State, pairs: seq<seq<int>>, k: nat)
    requires WellFormed(pairs) && k <= |pairs|
    requires Loop(env, st, pairs[..k]).status != Running
    ensures Loop(env, st, pairs) == Loop(env, st, pairs[..k])
    decreases |pairs| - k
  {
    if k < |pairs| {
      var p := pairs[..|pairs| - 1];
      assert p[..k] == pairs[..k];
      LoopStopped(env, st, p, k);
    } else {
      assert pairs[..k] == pairs;
    }
  }

  lemma {:induction false} LoopKeepsCache(env: Env, st: State, pairs: seq<seq<int>>)
    requires WellFormed(pairs) && |st.cache| <= env.capacity
    ensures |Loop(env, st, pairs).cache| <= env.capacity
    ensures st.cache != [] ==> Loop(env, st, pairs).cache != []
    decreases |pairs|
  {
    if pairs != [] {
      LoopKeepsCache(env, st, pairs[..|pairs| - 1]);
      var s := Loop(env, st, pairs[..|pairs| - 1]);
      if s.status == Running {
        StepKeepsCache(env, s, pairs[|pairs| - 1]);
      }
    }
  }

  /**
   * The loop checks the monitor once per pair and stops at the first check
   * that reports a cancel: a finished loop saw no cancel, a cancelled one
   * saw it exactly at its last check.
   */
  lemma {:induction false} LoopChecks(env: Env, st: State, pairs: seq<seq<int>>)
    requires WellFormed(pairs) && st.status == Running
    ensures var s := Loop(env, st, pairs);
            st.checks <= s.checks <= st.checks + |pairs| &&
            (s.status == Running ==> s.checks == st.checks + |pairs|) &&
            (s.status == Cancelled ==> s.checks > st.checks && env.cancel(s.checks - 1)) &&
            (forall n :: st.checks <= n < s.checks - (if s.status == Cancelled then 1 else 0) ==> !env.cancel(n))
    decreases |pairs|
  {
    if pairs != [] {
      var p := pairs[..|pairs| - 1];
      LoopChecks(env, st, p);
      var s := Loop(env, st, p);
      if s.status == Running {
        StepChecks(env, s, pairs[|pairs| - 1]);
      }
    }
  }

  /** A step checks the monitor once, and ends cancelled exactly when that check reports a cancel. */
  lemma StepChecks(env: Env, s: State, pair: seq<int>)
    requires |pair| >= 2 && s.status == Running
    ensures Step(env, s, pair).checks == s.checks + 1
    ensures Step(env, s, pair).status == Cancelled <==> env.cancel(s.checks)
  {
  }

  lemma {:induction false} ExpandedSnoc(pairs: seq<seq<int>>, counts: seq<nat>, p: seq<int>, n: nat)
    requires |counts| == |pairs|
    ensures Expanded(pairs + [p], counts + [n]) == Expanded(pairs, counts) + Repeat(p, n)
  {
    assert (pairs + [p])[..|pairs|] == pairs;
    assert (counts + [n])[..|counts|] == counts;
  }

  /** What a step adds to the result: some copies of its pair, at most one per literal and one for FALSE. */
  lemma StepRecords(env: Env, st: State, pair: seq<int>) returns (n: nat)
    requires |pair| >= 2
    ensures Step(env, st, pair).result == st.result + Repeat(pair, n) && n <= |pair| + 1
  {
    if env.cancel(st.checks) || !InEveryModel(st.cache, pair[1]) {
      n := 0;
      assert st.result + Repeat(pair, 0) == st.result;
    } else {
      var s := Examine(env, st.(checks := st.checks + 1), pair);
      var c := ExamineEffect(env, st.(checks := st.checks + 1), pair);
      n := c + if s.result != st.result + Repeat(pair, c) then 1 else 0;
    }
  }

  lemma {:induction false} LoopRecords(env: Env, st: State, pairs: seq<seq<int>>) returns (counts: seq<nat>)
    requires WellFormed(pairs)
    ensures |counts| == |pairs| && (forall k :: 0 <= k < |pairs| ==> counts[k] <= |pairs[k]| + 1)
    ensures Loop(env, st, pairs).status == Running ==> Loop(env, st, pairs).result == st.result + Expanded(pairs, counts)
    decreases |pairs|
  {
    if pairs == [] {
      counts := [];
    } else {
      var p := pairs[..|pairs| - 1];
      var pair := pairs[|pairs| - 1];
      var prev := LoopRecords(env, st, p);
      var s := Loop(env, st, p);
      var n: nat := 0;
      if s.status == Running {
        n := StepRecords(env, s, pair);
      }
      counts := prev + [n];
      assert pairs == p + [pair];
      ExpandedSnoc(p, prev, pair, n);
      forall k | 0 <= k < |pairs| ensures counts[k] <= |pairs[k]| + 1 {
        if k < |p| {
          assert counts[k] == prev[k] && pairs[k] == p[k];
        }
      }
    }
  }

  /** With a solver that never raises a contradiction the loop restores the stack after every pair. */
  lemma {:induction false} LoopBalanced(env: Env, st: State, pairs: seq<seq<int>>)
    requires WellFormed(pairs) && st.status == Running
    requires forall s, l :: !env.o.contradicts(s, l)
    ensures Loop(env, st, pairs).status != Underflow && Loop(env, st, pairs).stack == st.stack
    decreases |pairs|
  {
    if pairs != [] {
      LoopBalanced(env, st, pairs[..|pairs| - 1]);
      var s := Loop(env, st, pairs[..|pairs| - 1]);
      var pair := pairs[|pairs| - 1];
      if s.status == Running && !env.cancel(s.checks) && InEveryModel(s.cache, pair[1]) {
        var s1 := s.(checks := s.checks + 1);
        var c := ExamineEffect(env, s1, pair);
        NoContradictions(env.o, s1.stack, s1.result, pair, pair);
        assert s1.stack[..|s1.stack|] == s1.stack;
      }
    }
  }

  lemma {:induction false} NoContradictions(o: Oracles, stack: seq<int>, result: seq<seq<int>>, pair: seq<int>, lits: seq<int>)
    requires forall s, l :: !o.contradicts(s, l)
    ensures PushNegations(o, stack, result, pair, lits).1 == result
    decreases |lits|
  {
    if lits != [] {
      NoContradictions(o, stack, result, pair, lits[..|lits| - 1]);
    }
  }

  // ----- Facts about the whole analysis -----

  /** A null pair list gives an empty result without touching the solver or the monitor. */
  lemma NullPairs(o: Oracles, cancel: nat -> bool, maxBuffer: nat, stack: seq<int>, checks: nat)
    ensures AnalyzeSpec(o, cancel, maxBuffer, None, stack, checks) == State(Running, stack, [], [], checks)
  {
  }

  /**
   * When the first `findSolution` finds no model, the result is empty and no
   * pair is examined: one cancel check, nothing pushed.
   */
  lemma NoInitialModel(o: Oracles, cancel: nat -> bool, maxBuffer: nat, pairs: seq<seq<int>>, stack: seq<int>, checks: nat)
    requires WellFormed(pairs) && !cancel(checks) && o.findSolution(stack) == None
    ensures AnalyzeSpec(o, cancel, maxBuffer, Some(pairs), stack, checks) == State(Running, stack, [], [], checks + 1)
  {
  }

  /**
   * The result of a run that ends normally lists input pairs only, in
   * input order, each at most once per literal plus once for FALSE.
   */
  lemma ResultInOrder(o: Oracles, cancel: nat -> bool, maxBuffer: nat, pairs: seq<seq<int>>, stack: seq<int>, checks: nat)
    requires WellFormed(pairs)
    ensures var s := AnalyzeSpec(o, cancel, maxBuffer, Some(pairs), stack, checks);
            s.status == Running ==> RecordedInOrder(s.result, pairs)
  {
    var env := Env(o, cancel, Min(|pairs|, maxBuffer));
    var s := AnalyzeSpec(o, cancel, maxBuffer, Some(pairs), stack, checks);
    if !cancel(checks) {
      match o.findSolution(stack)
      case None =>
        var zeros := seq(|pairs|, k => 0);
        ExpandedZero(pairs, zeros);
      case Some(m) =>
        var init := State(Running, stack, RingAdd([], env.capacity, m), [], checks + 1);
        var counts := LoopRecords(env, init, pairs);
        if s.status == Running {
          assert [] + Expanded(pairs, counts) == Expanded(pairs, counts);
        }
    }
  }

  lemma {:induction false} ExpandedZero(pairs: seq<seq<int>>, counts: seq<nat>)
    requires |counts| == |pairs| && forall k :: 0 <= k < |counts| ==> counts[k] == 0
    ensures Expanded(pairs, counts) == []
    decreases |pairs|
  {
    if pairs != [] {
      ExpandedZero(pairs[..|pairs| - 1], counts[..|counts| - 1]);
    }
  }

  /** Every recorded pair is an input pair. */
  lemma {:induction false} ExpandedMembers(pairs: seq<seq<int>>, counts: seq<nat>)
    requires |counts| == |pairs|
    ensures forall p :: p in Expanded(pairs, counts) ==> p in pairs
    decreases |pairs|
  {
    if pairs != [] {
      var q := pairs[..|pairs| - 1];
      ExpandedMembers(q, counts[..|counts| - 1]);
      forall p | p in Expanded(pairs, counts) ensures p in pairs {
        if p in Expanded(q, counts[..|counts| - 1]) {
          assert p in q;
        } else {
          assert p == pairs[|pairs| - 1];
        }
      }
    }
  }

  /**
   * The ring holds at most `min(pairs.size(), MAX_SOLUTION_BUFFER)` models,
   * and at least one once the first model was found and some pair can use it.
   */
  lemma CacheBounded(o: Oracles, cancel: nat -> bool, maxBuffer: nat, pairs: seq<seq<int>>, stack: seq<int>, checks: nat)
    requires WellFormed(pairs)
    ensures var s := AnalyzeSpec(o, cancel, maxBuffer, Some(pairs), stack, checks);
            |s.cache| <= Min(|pairs|, maxBuffer) &&
            (!cancel(checks) && o.findSolution(stack).Some? && Min(|pairs|, maxBuffer) > 0 ==> s.cache != [])
  {
    var env := Env(o, cancel, Min(|pairs|, maxBuffer));
    if !cancel(checks) && o.findSolution(stack).Some? {
      var m := o.findSolution(stack).value;
      RingAddBounded([], env.capacity, m);
      LoopKeepsCache(env, State(Running, stack, RingAdd([], env.capacity, m), [], checks + 1), pairs);
    }
  }

  /**
   * The monitor is checked once before the first solve and once per pair:
   * a run that ends normally after finding a model checks it `1 + |pairs|` times.
   */
  lemma CancelChecks(o: Oracles, cancel: nat -> bool, maxBuffer: nat, pairs: seq<seq<int>>, stack: seq<int>, checks: nat)
    requires WellFormed(pairs)
    ensures var s := AnalyzeSpec(o, cancel, maxBuffer, Some(pairs), stack, checks);
            (s.status == Running && o.findSolution(stack).Some? ==> s.checks == checks + 1 + |pairs|) &&
            (s.status == Cancelled ==> s.checks > checks && cancel(s.checks - 1)) &&
            (forall n :: checks <= n < s.checks - (if s.status == Cancelled then 1 else 0) ==> !cancel(n))
  {
    var env := Env(o, cancel, Min(|pairs|, maxBuffer));
    if !cancel(checks) && o.findSolution(stack).Some? {
      var m := o.findSolution(stack).value;
      LoopChecks(env, State(Running, stack, RingAdd([], env.capacity, m), [], checks + 1), pairs);
    }
  }

  /** With a solver that never raises a contradiction, the run leaves the solver stack as it found it. */
  lemma AnalyzeBalanced(o: Oracles, cancel: nat -> bool, maxBuffer: nat, pairs: seq<seq<int>>, stack: seq<int>, checks: nat)
    requires WellFormed(pairs)
    requires forall s, l :: !o.contradicts(s, l)
    ensures var s := AnalyzeSpec(o, cancel, maxBuffer, Some(pairs), stack, checks);
            s.status != Underflow && s.stack == stack
  {
    var env := Env(o, cancel, Min(|pairs|, maxBuffer));
    if !cancel(checks) && o.findSolution(stack).Some? {
      var m := o.findSolution(stack).value;
      LoopBalanced(env, State(Running, stack, RingAdd([], env.capacity, m), [], checks + 1), pairs);
    }
  }

  // ----- The running code -----

  /** `isInSolution`: the linear search of a model for a literal. */
  method IsInSolution(solution: seq<int>, value: int) returns (found: bool)
    ensures found <==> value in solution
  {
    for k := 0 to |solution|
      invariant value !in solution[..k]
    {
      if solution[k] == value {
        return true;
      }
    }
    assert solution[..|solution|] == solution;
    return false;
  }

  newtype Int32 = x: int | -0x8000_0000 <= x < 0x8000_0000

  /** Java's `x >>> 31` on an `int`: its 32-bit pattern read unsigned, shifted right by 31 with zero fill. */
  function TopBit(x: Int32): int
  {
    (((x as int) + 0x1_0000_0000) % 0x1_0000_0000) / 0x8000_0000
  }

  /** The top bit of an `int` is its sign. */
  lemma TopBitIsSign(x: Int32)
    ensures TopBit(x) == if x < 0 then 1 else 0
  {
    var u := ((x as int) + 0x1_0000_0000) % 0x1_0000_0000;
    assert x < 0 ==> u == x as int + 0x1_0000_0000;
    assert x >= 0 ==> u == x as int;
  }

  /** The number of negative entries of a model. */
  function NegativeCount(model: seq<Int32>): (r: nat)
    ensures r <= |model|
  {
    if model == [] then 0 else NegativeCount(model[..|model| - 1]) + (if model[|model| - 1] < 0 then 1 else 0)
  }

  /** No negative entry means a count of 0, and only negative entries a count of the whole length. */
  lemma {:induction false} NegativeCountExtremes(model: seq<Int32>)
    ensures NegativeCount(model) == 0 <==> forall k :: 0 <= k < |model| ==> model[k] >= 0
    ensures NegativeCount(model) == |model| <==> forall k :: 0 <= k < |model| ==> model[k] < 0
    decreases |model|
  {
    if model != [] {
      var p := model[..|model| - 1];
      NegativeCountExtremes(p);
      assert forall k :: 0 <= k < |p| ==> p[k] == model[k];
    }
  }

  /** `countNegative`: the sum of the top bits of the entries. */
  method CountNegative(model: seq<Int32>) returns (count: int)
    ensures count == NegativeCount(model)
  {
    count := 0;
    for k := 0 to |model|
      invariant count == NegativeCount(model[..k])
    {
      assert model[..k + 1][..k] == model[..k];
      TopBitIsSign(model[k]);
      count := count + TopBit(model[k]);
    }
    assert model[..|model|] == model;
  }

  /** The solver behind `ISolver`: its stack of pushed literals, and its answers as oracles. */
  class StackSolver {
    const o: Oracles
    var stack: seq<int>

    constructor(o: Oracles, stack: seq<int>)
      ensures this.o == o && this.stack == stack
    {
      this.o := o;
      this.stack := stack;
    }

    /** `push`: fails with a contradiction, pushing nothing, or pushes the literal. */
    method Push(literal: int) returns (contradiction: bool)
      modifies this`stack
      ensures contradiction == o.contradicts(old(stack), literal)
      ensures stack == if contradiction then old(stack) else old(stack) + [literal]
    {
      contradiction := o.contradicts(stack, literal);
      if !contradiction {
        stack := stack + [literal];
      }
    }

    /** `pop`: fails on an empty stack, else removes the top entry. */
    method Pop() returns (ok: bool)
      modifies this`stack
      ensures ok == (old(stack) != [])
      ensures stack == if ok then old(stack)[..|old(stack)| - 1] else old(stack)
    {
      ok := stack != [];
      if ok {
        stack := stack[..|stack| - 1];
      }
    }

    method IsSatisfiable() returns (r: SatResult)
      ensures r == o.sat(stack)
    {
      r := o.sat(stack);
    }

    method GetSolution() returns (m: seq<int>)
      ensures m == o.solution(stack)
    {
      m := o.solution(stack);
    }

    method FindSolution() returns (m: Option<seq<int>>)
      ensures m == o.findSolution(stack)
    {
      m := o.findSolution(stack);
    }
  }

  /** The monitor, cancelled at the checks `cancelAt` says. */
  class Monitor {
    const cancelAt: nat -> bool
    var checks: nat

    constructor(cancelAt: nat -> bool)
      ensures this.cancelAt == cancelAt && checks == 0
    {
      this.cancelAt := cancelAt;
      checks := 0;
    }

    /** `checkCancel`: reports whether this check throws the cancel exception. */
    method CheckCancel() returns (cancelled: bool)
      modifies this`checks
      ensures checks == old(checks) + 1 && cancelled == cancelAt(old(checks))
    {
      cancelled := cancelAt(checks);
      checks := checks + 1;
    }
  }

  class ImplicationAnalysis {
    const solver: StackSolver
    var pairs: Option<seq<seq<int>>>

    constructor(solver: StackSolver, pairs: Option<seq<seq<int>>>)
      ensures this.solver == solver && this.pairs == pairs
    {
      this.solver := solver;
      this.pairs := pairs;
    }

    /** `initParis`. */
    method InitPairs(pairs: Option<seq<seq<int>>>)
      modifies this`pairs
      ensures this.pairs == pairs
    {
      this.pairs := pairs;
    }

    /**
     * `analyze`: the recorded pairs, the solver's new stack and the number
     * of cancel checks are those of the specification; a status other than
     * `Running` stands for the exception that ends the run.
     */
    method Analyze(monitor: Monitor, maxBuffer: nat) returns (status: Status, resultList: seq<seq<int>>)
      requires pairs.Some? ==> WellFormed(pairs.value)
      modifies solver`stack, monitor`checks
      ensures var s := AnalyzeSpec(solver.o, monitor.cancelAt, maxBuffer, pairs, old(solver.stack), old(monitor.checks));
              status == s.status && resultList == s.result && solver.stack == s.stack && monitor.checks == s.checks
    {
      ghost var spec := AnalyzeSpec(solver.o, monitor.cancelAt, maxBuffer, pairs, solver.stack, monitor.checks);
      resultList := [];
      if pairs.None? {
        return Running, [];
      }
      var ps := pairs.value;
      var cache := new RingList(Min(|ps|, maxBuffer));
      ghost var env := Env(solver.o, monitor.cancelAt, cache.capacity);
      var cancelled := monitor.CheckCancel();
      if cancelled {
        assert spec == State(Cancelled, solver.stack, [], [], monitor.checks);
        return Cancelled, [];
      }
      var model1 := solver.FindSolution();
      if model1.None? {
        assert spec == State(Running, solver.stack, [], [], monitor.checks);
        return Running, [];
      }
      cache.Add(model1.value);
      assert spec == Loop(env, State(Running, solver.stack, cache.items, [], monitor.checks), ps);
      status, resultList := PairLoop(monitor, cache, ps, env);
    }

    /** The `pairLoop` of lines 73-103, from a ring seeded with the first model. */
    method PairLoop(monitor: Monitor, cache: RingList<seq<int>>, ps: seq<seq<int>>, ghost env: Env)
      returns (status: Status, resultList: seq<seq<int>>)
      requires WellFormed(ps) && cache.Valid()
      requires env.o == solver.o && env.cancel == monitor.cancelAt && env.capacity == cache.capacity
      modifies solver`stack, monitor`checks, cache`items
      ensures Loop(env, State(Running, old(solver.stack), old(cache.items), [], old(monitor.checks)), ps)
              == State(status, solver.stack, cache.items, resultList, monitor.checks)
    {
      resultList := [];
      ghost var init := State(Running, solver.stack, cache.items, [], monitor.checks);
      for k := 0 to |ps|
        invariant cache.Valid()
        invariant Loop(env, init, ps[..k]) == State(Running, solver.stack, cache.items, resultList, monitor.checks)
      {
        assert ps[..k + 1][..k] == ps[..k];
        var pair := ps[k];
        ghost var before := State(Running, solver.stack, cache.items, resultList, monitor.checks);
        assert Loop(env, init, ps[..k + 1]) == Step(env, before, pair);
        var cancelled := monitor.CheckCancel();
        if cancelled {
          assert Loop(env, init, ps[..k + 1]) == State(Cancelled, solver.stack, cache.items, resultList, monitor.checks);
          LoopStopped(env, init, ps, k + 1);
          return Cancelled, resultList;
        }
        var inEvery := InEveryCachedModel(cache.items, pair[1]);
        if inEvery {
          var ok;
          ok, resultList := ExaminePair(cache, pair, resultList, env, monitor.checks);
          assert Loop(env, init, ps[..k + 1]) == State(if ok then Running else Underflow, solver.stack, cache.items, resultList, monitor.checks);
          if !ok {
            LoopStopped(env, init, ps, k + 1);
            return Underflow, resultList;
          }
        }
      }
      assert ps[..|ps|] == ps;
      return Running, resultList;
    }

    /** Lines 82-102 for one pair that reached the solver; `ok` is false when a pop found the stack empty. */
    method ExaminePair(cache: RingList<seq<int>>, pair: seq<int>, resultIn: seq<seq<int>>, ghost env: Env, ghost checks: nat)
      returns (ok: bool, resultList: seq<seq<int>>)
      requires cache.Valid() && env.o == solver.o && env.capacity == cache.capacity
      modifies solver`stack, cache`items
      ensures cache.Valid()
      ensures var s := Examine(env, State(Running, old(solver.stack), old(cache.items), resultIn, checks), pair);
              ok == (s.status == Running) && solver.stack == s.stack && cache.items == s.cache && resultList == s.result
    {
      resultList := PushPair(pair, resultIn);
      var answer := solver.IsSatisfiable();
      if answer == FALSE {
        resultList := resultList + [pair];
      } else if answer == TRUE {
        var m := solver.GetSolution();
        cache.Add(m);
      }
      ok := PopPair(|pair|);
    }

    /** The push loop of lines 82-88: the negation of each literal, or a recorded contradiction. */
    method PushPair(pair: seq<int>, resultIn: seq<seq<int>>) returns (resultList: seq<seq<int>>)
      modifies solver`stack
      ensures (solver.stack, resultList) == PushNegations(solver.o, old(solver.stack), resultIn, pair, pair)
    {
      resultList := resultIn;
      ghost var stack0 := solver.stack;
      for t := 0 to |pair|
        invariant (solver.stack, resultList) == PushNegations(solver.o, stack0, resultIn, pair, pair[..t])
      {
        assert pair[..t + 1][..t] == pair[..t];
        var contradiction := solver.Push(-pair[t]);
        if contradiction {
          resultList := resultList + [pair];
        }
      }
      assert pair[..|pair|] == pair;
    }

    /** The pop loop of lines 99-101: `n` pops, failing once the stack is empty. */
    method PopPair(n: nat) returns (ok: bool)
      modifies solver`stack
      ensures ok == PopN(old(solver.stack), n).Some?
      ensures solver.stack == if ok then PopN(old(solver.stack), n).value else []
    {
      ghost var s1 := solver.stack;
      PopNShape(s1, n);
      for t := 0 to n
        invariant t <= |s1| && solver.stack == s1[..|s1| - t]
      {
        var popped := solver.Pop();
        if !popped {
          return false;
        }
        assert s1[..|s1| - t][..|s1| - t - 1] == s1[..|s1| - (t + 1)];
      }
      return true;
    }
  }

  /** The `solutionLoop`: does `v` occur in every cached model? */
  method InEveryCachedModel(models: seq<seq<int>>, v: int) returns (inEvery: bool)
    ensures inEvery == InEveryModel(models, v)
  {
    for j := 0 to |models|
      invariant InEveryModel(models[..j], v)
    {
      var found := IsInSolution(models[j], v);
      if !found {
        assert models[j] in models;
        return false;
      }
      assert models[..j + 1] == models[..j] + [models[j]];
    }
    assert models[..|models|] == models;
    return true;
  }
}
