/**
 * The bookkeeping of the JavaSMT-backed solver wrapper (`JavaSmtSatSolver`):
 * the base clause list and the formula/node maps built from the problem's
 * root children, the stack of pushed constraints, the mapping of the
 * prover's answers, models and unsatisfiable cores back to the problem's
 * terms, and the configuration of the back end.
 *
 * The translator, the context factory and the prover are oracles. A prover
 * answer is a function of the back end and the list of constraints added to
 * the prover environment; `None` stands for a `SolverException` or an
 * `InterruptedException`.
 */
module JavaSmt {
  import opened Wrappers
  import opened SatResults

  /** A constraint of the problem (a prop4j `Node`), identified by a value. */
  datatype Node = Node(id: int)

  /** A translated constraint (a JavaSMT `BooleanFormula`), identified by a value. */
  datatype Formula = Formula(id: int)

  /** A back end of JavaSMT's `Solvers` enumeration. */
  datatype Solvers = Solvers(name: string)

  /** A configuration value: a back end, or anything else. */
  datatype ConfigValue = SolverValue(solver: Solvers) | OtherValue

  /** One entry of a model: a variable's name and the printed value. */
  datatype Assignment = Assignment(name: string, value: string)

  /**
   * A prover environment's answers for a back end and a constraint list:
   * `isUnsat` (`None` for a `SolverException` or an interruption), the model
   * `getModel` returns (`None` when it raises a `SolverException`), the
   * unsatisfiable core, whether a context can be created for a back end, and
   * the problem's variable numbering.
   */
  datatype Prover = Prover(
    isUnsat: (Solvers, seq<Formula>) -> Option<bool>,
    model: (Solvers, seq<Formula>) -> Option<seq<Assignment>>,
    unsatCore: (Solvers, seq<Formula>) -> seq<Formula>,
    createContext: Solvers -> bool,
    indexOfVariable: string -> int)

  const SOLVER_TYPE := "solver_type"

  // ----- The base clauses and the two maps -----

  /** The clause list built by the constructor: one translated formula per root child, in order. */
  function BaseClauses(translate: Node -> Formula, children: seq<Node>): (r: seq<Formula>)
    ensures |r| == |children| && forall i :: 0 <= i < |children| ==> r[i] == translate(children[i])
  {
    if children == [] then [] else BaseClauses(translate, children[..|children| - 1]) + [translate(children[|children| - 1])]
  }

  function NodeMap(translate: Node -> Formula, children: seq<Node>): map<Node, Formula>
  {
    if children == [] then map[]
    else NodeMap(translate, children[..|children| - 1])[children[|children| - 1] := translate(children[|children| - 1])]
  }

  function FormulaMap(translate: Node -> Formula, children: seq<Node>): map<Formula, Node>
  {
    if children == [] then map[]
    else FormulaMap(translate, children[..|children| - 1])[translate(children[|children| - 1]) := children[|children| - 1]]
  }

  /**
   * `nodeToFormula` maps exactly the root children, each to its translation;
   * `formulaToNode` maps exactly their translations, each back to a child it
   * is the translation of.
   */
  lemma {:induction false} BaseMaps(translate: Node -> Formula, children: seq<Node>)
    ensures forall n :: n in NodeMap(translate, children) <==> n in children
    ensures forall n :: n in NodeMap(translate, children) ==> NodeMap(translate, children)[n] == translate(n)
    ensures forall f :: f in FormulaMap(translate, children) <==> exists n :: n in children && translate(n) == f
    ensures forall f :: f in FormulaMap(translate, children) ==>
              FormulaMap(translate, children)[f] in children && translate(FormulaMap(translate, children)[f]) == f
    decreases |children|
  {
    if children != [] {
      var p := children[..|children| - 1];
      var last := children[|children| - 1];
      BaseMaps(translate, p);
      assert children == p + [last];
      var f2n := FormulaMap(translate, children);
      assert f2n == FormulaMap(translate, p)[translate(last) := last];
      forall f | f in f2n ensures exists n :: n in children && translate(n) == f {
        if f != translate(last) {
          assert f in FormulaMap(translate, p);
          var n :| n in p && translate(n) == f;
          assert n in children;
        }
      }
      forall f | exists n :: n in children && translate(n) == f ensures f in f2n {
        var n :| n in children && translate(n) == f;
        if n != last {
          assert n in p;
          assert f in FormulaMap(translate, p);
        }
      }
    }
  }

  /** For a translator without collisions, the two maps are inverse on the root children. */
  lemma MapsInverse(translate: Node -> Formula, children: seq<Node>)
    requires forall a, b :: a in children && b in children && translate(a) == translate(b) ==> a == b
    ensures forall n :: n in children ==>
              n in NodeMap(translate, children) && NodeMap(translate, children)[n] in FormulaMap(translate, children) &&
              FormulaMap(translate, children)[NodeMap(translate, children)[n]] == n
  {
    BaseMaps(translate, children);
    forall n | n in children
      ensures NodeMap(translate, children)[n] in FormulaMap(translate, children) &&
              FormulaMap(translate, children)[NodeMap(translate, children)[n]] == n
    {
      assert NodeMap(translate, children)[n] == translate(n);
    }
  }

  // ----- The push stack -----

  type Entry = (Node, Formula)

  /** The entries pushed for `nodes`, in argument order. */
  function Entries(translate: Node -> Formula, nodes: seq<Node>): (r: seq<Entry>)
    ensures |r| == |nodes| && forall i :: 0 <= i < |nodes| ==> r[i] == (nodes[i], translate(nodes[i]))
  {
    if nodes == [] then [] else Entries(translate, nodes[..|nodes| - 1]) + [(nodes[|nodes| - 1], translate(nodes[|nodes| - 1]))]
  }

  /** `getFormulasAsList`: the pushed formulas in push order. */
  function Formulas(stack: seq<Entry>): (r: seq<Formula>)
    ensures |r| == |stack| && forall i :: 0 <= i < |stack| ==> r[i] == stack[i].1
  {
    if stack == [] then [] else Formulas(stack[..|stack| - 1]) + [stack[|stack| - 1].1]
  }

  /** `getNodeOfFormula`: the node most recently pushed with that formula. */
  function NodeOfFormula(stack: seq<Entry>, f: Formula): (r: Option<Node>)
    ensures r.Some? <==> exists i :: 0 <= i < |stack| && stack[i].1 == f
    ensures r.Some? ==> exists i :: 0 <= i < |stack| && stack[i] == (r.value, f)
  {
    if stack == [] then None
    else if stack[|stack| - 1].1 == f then Some(stack[|stack| - 1].0)
    else
      var r := NodeOfFormula(stack[..|stack| - 1], f);
      assert forall i :: 0 <= i < |stack| - 1 ==> stack[..|stack| - 1][i] == stack[i];
      r
  }

  /**
   * `pop(count)`: what each of `count` pops gives, in pop order, and the
   * stack left behind. The loop does not stop at an empty stack: every pop
   * after that gives `None`.
   */
  function PopSpec(stack: seq<Entry>, count: int): (seq<Option<Node>>, seq<Entry>)
    decreases if count < 0 then 0 else count
  {
    if count <= 0 then ([], stack)
    else if stack == [] then
      var (r, s) := PopSpec([], count - 1);
      ([None] + r, s)
    else
      var (r, s) := PopSpec(stack[..|stack| - 1], count - 1);
      ([Some(stack[|stack| - 1].0)] + r, s)
  }

  /**
   * `pop(count)` gives `count` entries: the top nodes of the stack, most
   * recent first, as long as there are any, then `None` for each pop that
   * found the stack empty; the stack keeps what lay below the popped nodes.
   */
  lemma {:induction false} PopSpecShape(stack: seq<Entry>, count: nat)
    ensures var (r, s) := PopSpec(stack, count);
            |r| == count &&
            (forall k :: 0 <= k < count ==> r[k] == if k < |stack| then Some(stack[|stack| - 1 - k].0) else None) &&
            s == (if count <= |stack| then stack[..|stack| - count] else [])
    decreases count
  {
    if count == 0 {
      assert stack[..|stack|] == stack;
    } else if stack == [] {
      PopSpecShape([], count - 1);
    } else {
      var p := stack[..|stack| - 1];
      PopSpecShape(p, count - 1);
      var (r, s) := PopSpec(p, count - 1);
      if count <= |stack| {
        assert p[..|p| - (count - 1)] == stack[..|stack| - count];
      }
      var nodes := [Some(stack[|stack| - 1].0)] + r;
      forall k | 0 <= k < count
        ensures nodes[k] == if k < |stack| then Some(stack[|stack| - 1 - k].0) else None
      {
        if 0 < k < |stack| {
          assert nodes[k] == r[k - 1] == Some(p[|p| - 1 - (k - 1)].0);
        }
      }
    }
  }

  /** The stack is LIFO: popping as many nodes as were pushed gives them back in reverse and restores the stack. */
  lemma PushPopRoundTrip(translate: Node -> Formula, stack: seq<Entry>, nodes: seq<Node>)
    ensures var (r, s) := PopSpec(stack + Entries(translate, nodes), |nodes|);
            s == stack && |r| == |nodes| && forall k :: 0 <= k < |nodes| ==> r[k] == Some(nodes[|nodes| - 1 - k])
  {
    var full := stack + Entries(translate, nodes);
    PopSpecShape(full, |nodes|);
    forall j | |stack| <= j < |full| ensures full[j].0 == nodes[j - |stack|] {
      assert full[j] == Entries(translate, nodes)[j - |stack|];
    }
    assert full[..|full| - |nodes|] == stack;
  }

  // ----- The answers -----

  /** The three-way result of `isSatisfiable` from the prover's `isUnsat`. */
  function SatOf(unsat: Option<bool>): (r: SatResult)
    ensures r == TRUE <==> unsat == Some(false)
    ensures r == FALSE <==> unsat == Some(true)
    ensures r == TIMEOUT <==> unsat == None
  {
    match unsat
    case None => TIMEOUT
    case Some(u) => if u then FALSE else TRUE
  }

  /** `getSoulution`'s sign convention: `+index` for a variable printed as "true", `-index` otherwise. */
  function SignedModel(indexOf: string -> int, model: seq<Assignment>): (r: seq<int>)
    ensures |r| == |model|
    ensures forall i :: 0 <= i < |model| ==>
              r[i] == (if model[i].value == "true" then indexOf(model[i].name) else -indexOf(model[i].name))
  {
    if model == [] then []
    else
      var last := model[|model| - 1];
      SignedModel(indexOf, model[..|model| - 1]) + [if last.value == "true" then indexOf(last.name) else -indexOf(last.name)]
  }

  /** The nodes an unsatisfiable core maps back to, through `formulaToNode` and through the push stack. */
  function Explanation(core: seq<Formula>, f2n: map<Formula, Node>, stack: seq<Entry>): set<Node>
  {
    if core == [] then {}
    else
      var f := core[|core| - 1];
      Explanation(core[..|core| - 1], f2n, stack) +
      (if f in f2n then {f2n[f]} else {}) +
      (match NodeOfFormula(stack, f) case Some(n) => {n} case None => {})
  }

  /**
   * A node is in the explanation exactly when some core formula maps to it,
   * through `formulaToNode` or as a pushed constraint; core formulas known
   * to neither contribute nothing.
   */
  lemma {:induction false} ExplanationMembers(core: seq<Formula>, f2n: map<Formula, Node>, stack: seq<Entry>)
    ensures forall n :: n in Explanation(core, f2n, stack) <==>
              exists f :: f in core && ((f in f2n && f2n[f] == n) || NodeOfFormula(stack, f) == Some(n))
    decreases |core|
  {
    if core != [] {
      var p := core[..|core| - 1];
      var f := core[|core| - 1];
      ExplanationMembers(p, f2n, stack);
      assert core == p + [f];
      forall n ensures n in Explanation(core, f2n, stack) <==>
                exists g :: g in core && ((g in f2n && f2n[g] == n) || NodeOfFormula(stack, g) == Some(n)) {
        if n in Explanation(core, f2n, stack) && n !in Explanation(p, f2n, stack) {
          assert f in core;
        }
        if exists g :: g in core && ((g in f2n && f2n[g] == n) || NodeOfFormula(stack, g) == Some(n)) {
          var g :| g in core && ((g in f2n && f2n[g] == n) || NodeOfFormula(stack, g) == Some(n));
          if g in p {
            assert n in Explanation(p, f2n, stack);
          } else {
            assert g == f;
          }
        }
      }
    }
  }

  /**
   * With the maps the constructor builds, every node of the explanation is a
   * root child or a pushed node.
   */
  lemma ExplanationFromProblem(translate: Node -> Formula, children: seq<Node>, core: seq<Formula>, stack: seq<Entry>)
    ensures forall n :: n in Explanation(core, FormulaMap(translate, children), stack) ==>
              n in children || exists i :: 0 <= i < |stack| && stack[i].0 == n
  {
    var f2n := FormulaMap(translate, children);
    ExplanationMembers(core, f2n, stack);
    BaseMaps(translate, children);
    forall n | n in Explanation(core, f2n, stack) ensures n in children || exists i :: 0 <= i < |stack| && stack[i].0 == n {
      var f :| f in core && ((f in f2n && f2n[f] == n) || NodeOfFormula(stack, f) == Some(n));
      if f in f2n && f2n[f] == n {
        assert n in children;
      } else {
        var i :| 0 <= i < |stack| && stack[i] == (NodeOfFormula(stack, f).value, f);
        assert stack[i].0 == n;
      }
    }
  }

  // ----- The aliased base list -----

  /**
   * The constraints of a query as written: `usedConstraint` is `clauses`
   * itself, so adding the pushed formulas to it grows the base list.
   */
  function UsedAsWritten(clauses: seq<Formula>, stack: seq<Entry>): seq<Formula>
  {
    if stack != [] then clauses + Formulas(stack) else clauses
  }

  /** The base list after `k` queries with the same stack. */
  function AfterQueries(clauses: seq<Formula>, stack: seq<Entry>, k: nat): seq<Formula>
  {
    if k == 0 then clauses else UsedAsWritten(AfterQueries(clauses, stack, k - 1), stack)
  }

  /** Every query grows the base list by the stack size. */
  lemma {:induction false} QueriesGrowBase(clauses: seq<Formula>, stack: seq<Entry>, k: nat)
    ensures |AfterQueries(clauses, stack, k)| == |clauses| + k * |stack|
    ensures AfterQueries(clauses, stack, k)[..|clauses|] == clauses
  {
    if k > 0 {
      QueriesGrowBase(clauses, stack, k - 1);
      assert k * |stack| == (k - 1) * |stack| + |stack|;
      var prev := AfterQueries(clauses, stack, k - 1);
      assert UsedAsWritten(prev, stack)[..|prev|] == prev;
    }
  }

  /**
   * The consequence: once a query ran with pushed constraints and they are
   * all popped again, the next query still asserts them.
   */
  lemma PoppedConstraintsStayAsserted(base: seq<Formula>, stack: seq<Entry>)
    requires stack != []
    ensures var afterQuery := UsedAsWritten(base, stack);
            var afterPop := PopSpec(stack, |stack|).1;
            afterPop == [] && UsedAsWritten(afterQuery, afterPop) == base + Formulas(stack) &&
            UsedAsWritten(afterQuery, afterPop) != base
  {
    PopSpecShape(stack, |stack|);
    assert |base + Formulas(stack)| > |base|;
  }

  /** The constraints of a scoped query: the base list followed by the pushed formulas, copied. */
  function UsedScoped(clauses: seq<Formula>, stack: seq<Entry>): seq<Formula>
  {
    clauses + Formulas(stack)
  }

  /**
   * With scoped queries a push block is invisible once popped: pushing
   * `nodes` and popping as many leaves the constraints of the next query as
   * they were before the push.
   */
  lemma ScopedQueriesForgetPoppedConstraints(translate: Node -> Formula, base: seq<Formula>, stack: seq<Entry>, nodes: seq<Node>)
    ensures UsedScoped(base, PopSpec(stack + Entries(translate, nodes), |nodes|).1) == UsedScoped(base, stack)
  {
    PushPopRoundTrip(translate, stack, nodes);
  }

  /** `setConfiguration` accepts the solver type when its value is a `Solvers` for which a context can be created. */
  predicate AcceptsSolverType(prover: Prover, config: map<string, Option<ConfigValue>>)
  {
    SOLVER_TYPE in config && config[SOLVER_TYPE].Some? && config[SOLVER_TYPE].value.SolverValue? &&
    prover.createContext(config[SOLVER_TYPE].value.solver)
  }

  /** The loop of `getSoulution`: each assignment as its variable index, negated unless the value is `true`. */
  method SignModel(indexOf: string -> int, model: seq<Assignment>) returns (values: seq<int>)
    ensures values == SignedModel(indexOf, model)
  {
    values := [];
    var k := 0;
    while k < |model|
      invariant 0 <= k <= |model|
      invariant values == SignedModel(indexOf, model[..k])
    {
      assert model[..k + 1][..k] == model[..k];
      var value := model[k];
      if value.value == "true" {
        values := values + [indexOf(value.name)];
      } else {
        values := values + [-indexOf(value.name)];
      }
      k := k + 1;
    }
    assert model[..|model|] == model;
  }

  class JavaSmtSatSolver {
    const translate: Node -> Formula
    const prover: Prover
    /** False when the constructor's context creation failed and the exception was swallowed. */
    var initialized: bool
    var context: Solvers
    var clauses: seq<Formula>
    var nodeToFormula: map<Node, Formula>
    var formulaToNode: map<Formula, Node>
    var pushstack: seq<Entry>

    /** Lines 80-103. */
    constructor(children: seq<Node>, translate: Node -> Formula, prover: Prover, solver: Solvers,
                configuration: Option<map<string, Option<ConfigValue>>>)
      ensures this.translate == translate && this.prover == prover && pushstack == []
      ensures initialized == prover.createContext(solver)
      ensures initialized ==>
                clauses == BaseClauses(translate, children) &&
                nodeToFormula == NodeMap(translate, children) &&
                formulaToNode == FormulaMap(translate, children)
      ensures initialized ==>
                context == if configuration.Some? && AcceptsSolverType(prover, configuration.value)
                           then configuration.value[SOLVER_TYPE].value.solver else solver
    {
      this.translate := translate;
      this.prover := prover;
      initialized := false;
      context := solver;
      clauses := [];
      nodeToFormula := map[];
      formulaToNode := map[];
      pushstack := [];
      new;
      if prover.createContext(solver) {
        initialized := true;
        for i := 0 to |children|
          invariant clauses == BaseClauses(translate, children[..i])
          invariant nodeToFormula == NodeMap(translate, children[..i])
          invariant formulaToNode == FormulaMap(translate, children[..i])
          invariant context == solver && initialized && pushstack == []
        {
          assert children[..i + 1][..i] == children[..i];
          var node := children[i];
          var formula := translate(node);
          clauses := clauses + [formula];
          nodeToFormula := nodeToFormula[node := formula];
          formulaToNode := formulaToNode[formula := node];
        }
        assert children[..|children|] == children;
        var _ := SetConfiguration(configuration);
      }
    }

    /**
     * `setConfiguration`: null for a null map; otherwise the keys it applied,
     * which can only be the solver type, switching the context to the new
     * back end. Null values and all other keys are skipped.
     */
    method SetConfiguration(config: Option<map<string, Option<ConfigValue>>>) returns (applied: Option<seq<string>>)
      modifies this`context
      ensures config.None? ==> applied == None && context == old(context)
      ensures config.Some? ==>
                applied == Some(if AcceptsSolverType(prover, config.value) then [SOLVER_TYPE] else []) &&
                context == if AcceptsSolverType(prover, config.value) then config.value[SOLVER_TYPE].value.solver else old(context)
    {
      if config.None? {
        return None;
      }
      var cfg := config.value;
      var list: set<string> := {};
      var keys := cfg.Keys;
      while keys != {}
        invariant keys <= cfg.Keys
        invariant SOLVER_TYPE in keys ==> list == {} && context == old(context)
        invariant SOLVER_TYPE !in keys ==>
                    list == (if AcceptsSolverType(prover, cfg) then {SOLVER_TYPE} else {}) &&
                    context == if AcceptsSolverType(prover, cfg) then cfg[SOLVER_TYPE].value.solver else old(context)
        decreases keys
      {
        var configID :| configID in keys;
        keys := keys - {configID};
        var value := cfg[configID];
        if value.None? {
          continue;
        }
        if configID == SOLVER_TYPE && value.value.SolverValue? {
          var solverType := value.value.solver;
          if prover.createContext(solverType) {
            context := solverType;
            list := list + {SOLVER_TYPE};
          }
        }
      }
      return Some(if SOLVER_TYPE in list then [SOLVER_TYPE] else []);
    }

    /** `push(Node)`: the node and its translation go on top of the stack. */
    method Push(node: Node)
      modifies this`pushstack
      ensures pushstack == old(pushstack) + [(node, translate(node))]
    {
      pushstack := pushstack + [(node, translate(node))];
    }

    /** `push(Node...)`: the nodes in argument order. */
    method PushAll(nodes: seq<Node>)
      modifies this`pushstack
      ensures pushstack == old(pushstack) + Entries(translate, nodes)
    {
      for i := 0 to |nodes|
        invariant pushstack == old(pushstack) + Entries(translate, nodes[..i])
      {
        assert nodes[..i + 1][..i] == nodes[..i];
        Push(nodes[i]);
      }
      assert nodes[..|nodes|] == nodes;
    }

    /** `pop()`: the most recently pushed node, or `None` when the stack is empty. */
    method Pop() returns (node: Option<Node>)
      modifies this`pushstack
      ensures old(pushstack) == [] ==> node == None && pushstack == []
      ensures old(pushstack) != [] ==>
                node == Some(old(pushstack)[|old(pushstack)| - 1].0) && pushstack == old(pushstack)[..|old(pushstack)| - 1]
    {
      if pushstack == [] {
        return None;
      }
      node := Some(pushstack[|pushstack| - 1].0);
      pushstack := pushstack[..|pushstack| - 1];
    }

    /** `pop(count)`: `count` pops, what each gave in pop order. */
    method PopCount(count: int) returns (nodes: seq<Option<Node>>)
      modifies this`pushstack
      ensures (nodes, pushstack) == PopSpec(old(pushstack), count)
    {
      nodes := [];
      ghost var stack0 := pushstack;
      var n := if count < 0 then 0 else count;
      PopSpecShape(stack0, n);
      for i := 0 to n
        invariant pushstack == if i <= |stack0| then stack0[..|stack0| - i] else []
        invariant |nodes| == i
        invariant forall k :: 0 <= k < i ==> nodes[k] == if k < |stack0| then Some(stack0[|stack0| - 1 - k].0) else None
      {
        var node := Pop();
        nodes := nodes + [node];
        if i < |stack0| {
          assert stack0[..|stack0| - i][..|stack0| - i - 1] == stack0[..|stack0| - (i + 1)];
        }
      }
      assert nodes == PopSpec(stack0, count).0;
    }

    method GrowClauses()
      modifies this`clauses
      ensures clauses == UsedAsWritten(old(clauses), pushstack)
    {
      if pushstack != [] {
        clauses := clauses + Formulas(pushstack);
      }
    }

    /**
     * `isSatisfiable` as written: the pushed formulas are added to the base
     * list itself, then TRUE when the prover finds no contradiction, FALSE
     * when it does, TIMEOUT on an exception.
     */
    method IsSatisfiable() returns (r: SatResult)
      requires initialized
      modifies this`clauses
      ensures clauses == UsedAsWritten(old(clauses), pushstack)
      ensures r == SatOf(prover.isUnsat(context, clauses))
    {
      GrowClauses();
      var unsat := prover.isUnsat(context, clauses);
      match unsat
      case None => r := TIMEOUT;
      case Some(u) => r := if u then FALSE else TRUE;
    }

    /** The query as intended: the same answer over a copy, leaving the base list alone. */
    method IsSatisfiableScoped() returns (r: SatResult)
      requires initialized
      ensures r == SatOf(prover.isUnsat(context, UsedScoped(clauses, pushstack)))
    {
      var usedConstraint := clauses + Formulas(pushstack);
      var unsat := prover.isUnsat(context, usedConstraint);
      match unsat
      case None => r := TIMEOUT;
      case Some(u) => r := if u then FALSE else TRUE;
    }

    /**
     * `getSoulution`: null when unsatisfiable or on an exception, otherwise
     * one signed variable index per model assignment.
     */
    method GetSolution() returns (solution: Option<seq<int>>)
      requires initialized
      modifies this`clauses
      ensures clauses == UsedAsWritten(old(clauses), pushstack)
      ensures solution == if prover.isUnsat(context, clauses) == Some(false) && prover.model(context, clauses).Some?
                          then Some(SignedModel(prover.indexOfVariable, prover.model(context, clauses).value))
                          else None
    {
      GrowClauses();
      if prover.isUnsat(context, clauses) != Some(false) {
        return None;
      }
      var model := prover.model(context, clauses);
      if model.None? {
        return None;
      }
      var values := SignModel(prover.indexOfVariable, model.value);
      return Some(values);
    }

    /** `findSolution` is `getSoulution`. */
    method FindSolution() returns (solution: Option<seq<int>>)
      requires initialized
      modifies this`clauses
      ensures clauses == UsedAsWritten(old(clauses), pushstack)
      ensures solution == if prover.isUnsat(context, clauses) == Some(false) && prover.model(context, clauses).Some?
                          then Some(SignedModel(prover.indexOfVariable, prover.model(context, clauses).value))
                          else None
    {
      solution := GetSolution();
    }

    /**
     * `getMinimalUnsatisfiableSubset`: null when satisfiable or on an
     * exception, otherwise the nodes the unsatisfiable core maps back to.
     */
    method GetMinimalUnsatisfiableSubset() returns (explanation: Option<set<Node>>)
      requires initialized
      modifies this`clauses
      ensures clauses == UsedAsWritten(old(clauses), pushstack)
      ensures explanation == if prover.isUnsat(context, clauses) == Some(true)
                             then Some(Explanation(prover.unsatCore(context, clauses), formulaToNode, pushstack))
                             else None
    {
      GrowClauses();
      if prover.isUnsat(context, clauses) != Some(true) {
        return None;
      }
      var formula := prover.unsatCore(context, clauses);
      var nodes: set<Node> := {};
      for i := 0 to |formula|
        invariant nodes == Explanation(formula[..i], formulaToNode, pushstack)
      {
        assert formula[..i + 1][..i] == formula[..i];
        if formula[i] in formulaToNode {
          nodes := nodes + {formulaToNode[formula[i]]};
        }
        var pushed := NodeOfFormula(pushstack, formula[i]);
        if pushed.Some? {
          nodes := nodes + {pushed.value};
        }
      }
      assert formula[..|formula|] == formula;
      return Some(nodes);
    }

    /** `getAllMinimalUnsatisfiableSubsets`: the one-element list of `getMinimalUnsatisfiableSubset`. */
    method GetAllMinimalUnsatisfiableSubsets() returns (all: seq<Option<set<Node>>>)
      requires initialized
      modifies this`clauses
      ensures clauses == UsedAsWritten(old(clauses), pushstack)
      ensures all == [if prover.isUnsat(context, clauses) == Some(true)
                      then Some(Explanation(prover.unsatCore(context, clauses), formulaToNode, pushstack))
                      else None]
    {
      var explanation := GetMinimalUnsatisfiableSubset();
      all := [explanation];
    }

    /** `getMinimalUnsatisfiableSubsetIndexes` is not implemented: null. */
    method GetMinimalUnsatisfiableSubsetIndexes() returns (indexes: Option<set<int>>)
      ensures indexes == None
    {
      indexes := None;
    }

    /** `getAllMinimalUnsatisfiableSubsetIndexes` is not implemented: null. */
    method GetAllMinimalUnsatisfiableSubsetIndexes() returns (indexes: Option<seq<set<int>>>)
      ensures indexes == None
    {
      indexes := None;
    }
  }
}
