/**
 * Specification of the structural configuration enumerator: the
 * depth-first walk over a frontier of unresolved features, as total
 * functions over an explicit state. The imperative builder in module
 * Builder is proved to compute exactly these functions; the lemmas here
 * say what the walk emits.
 */
module Enumerator {
  import opened FeatureTree
  import opened Masks
  import opened Selection
  import opened Sequences

  /** Answer of the partial-selection check: satisfiable, unsatisfiable, or the solver's timeout exception. */
  datatype SatAnswer = Sat | Unsat | Timeout

  datatype SelectedFeature = SelectedFeature(name: string, concrete: bool)

  /**
   * The configuration object after `resetValues` and setting every feature
   * named in a selection string to SELECTED: whether it is valid and which
   * features end up selected after propagation.
   */
  datatype ConfigView = ConfigView(valid: bool, selected: seq<SelectedFeature>)

  /** A candidate handed to the build-order sorter: its ordinal and its selection string. */
  datatype BuilderConfiguration = BuilderConfiguration(id: int, selected: string)

  /** Capacity of the sorter's buffer while configurations are built as they are found. */
  const MaxSize := 500

  /**
   * What the walk reads and never writes: the buffer mode, the target count, the number of cross-tree constraints and
   * three oracles. `materialize` is the configuration object, `partialSat`
   * the solver query on a literal list, and `canceled(k)` the answer of the
   * progress monitor to its k-th poll.
   */
  datatype Env = Env(
    bufferFirst: bool,
    configurationNumber: int,
    constraintCount: nat,
    materialize: string -> ConfigView,
    partialSat: seq<string> -> SatAnswer,
    canceled: nat -> bool)

  /**
   * The total the counting job of the ALL_VALID mode sets: the solver's
   * count, or `Integer.MAX_VALUE` when that count overflowed below zero.
   */
  function CountOrMax(count: int): (r: int)
    ensures r >= 0
    ensures count >= 0 ==> r == count
    ensures count < 0 ==> r == IntMax
  {
    if count < 0 then IntMax else count
  }

  /**
   * What the walk writes: the next ordinal `confs`, the number of monitor
   * polls so far, the flag that cancels the generator jobs, the literal
   * list of the last solver query, and the sorter's buffer.
   */
  datatype BuildState = BuildState(
    confs: int,
    polls: nat,
    cancelJobs: bool,
    literals: seq<string>,
    buffer: seq<BuilderConfiguration>)

  predicate IsSelected(view: ConfigView, name: string)
  {
    exists s :: s in view.selected && s.name == name
  }

  /**
   * The three acceptance checks of a finished candidate: the configuration
   * is valid, each selected concrete feature is named, each named feature
   * is selected.
   */
  predicate Accepted(view: ConfigView, names: seq<string>)
  {
    && view.valid
    && (forall s :: s in view.selected && s.concrete ==> s.name in names)
    && (forall n :: n in names ==> IsSelected(view, n))
  }

  function MandatoryOf(cs: seq<Feature>): (r: seq<Feature>)
    ensures forall c :: c in r <==> c in cs && c.mandatory
  {
    if cs == [] then []
    else (if cs[0].mandatory then [cs[0]] else []) + MandatoryOf(cs[1..])
  }

  function OptionalOf(cs: seq<Feature>): (r: seq<Feature>)
    ensures forall c :: c in r <==> c in cs && !c.mandatory
  {
    if cs == [] then []
    else (if cs[0].mandatory then [] else [cs[0]]) + OptionalOf(cs[1..])
  }

  /** One frontier per mask from `lo` below `BranchBound(|xs|)`: the subset of `xs` the mask selects, then `rest`. */
  function MaskBranches(xs: seq<Feature>, lo: nat, rest: seq<Feature>): (r: seq<seq<Feature>>)
    requires lo <= BranchBound(|xs|)
    ensures |r| == BranchBound(|xs|) - lo
  {
    seq(BranchBound(|xs|) - lo, m requires 0 <= m => Subset(xs, lo + m) + rest)
  }

  /** The frontiers an AND feature branches into: each optional subset, then the rest, then the mandatory children. */
  function AndBranches(f: Feature, rest: seq<Feature>): seq<seq<Feature>>
  {
    var kept := GetChildren(f);
    var optional := OptionalOf(kept);
    var tail := rest + MandatoryOf(kept);
    MaskBranches(optional, 0, tail)
  }

  /** The first mask an OR feature tries: 0 only when some child was dropped as having nothing concrete. */
  function OrFirstMask(f: Feature): nat
  {
    if |GetChildren(f)| < |f.children| then 0 else 1
  }

  function OrBranches(f: Feature, rest: seq<Feature>): seq<seq<Feature>>
  {
    MaskBranches(GetChildren(f), OrFirstMask(f), rest)
  }

  function AlternativeBranches(f: Feature, rest: seq<Feature>): seq<seq<Feature>>
  {
    var kept := GetChildren(f);
    seq(|kept|, i requires 0 <= i < |kept| => [kept[i]] + rest)
  }

  function Branches(f: Feature, rest: seq<Feature>): seq<seq<Feature>>
  {
    match f.group
    case And => AndBranches(f, rest)
    case Or => OrBranches(f, rest)
    case Alternative => AlternativeBranches(f, rest)
  }

  /** The selection string after visiting `f`: only concrete features are named. */
  function Visit(selected: string, f: Feature): string
  {
    if f.concrete then AppendName(selected, f.name) else selected
  }

  /** After `polls` polls: has the monitor already answered "canceled"? */
  predicate Stopped(env: Env, st: BuildState)
  {
    st.polls > 0 && env.canceled(st.polls - 1)
  }

  /** `build`: one step of the walk on a frontier, with the selection string so far. */
  function Build(env: Env, st: BuildState, selected: string, frontier: seq<Feature>): BuildState
    decreases SizeList(frontier), 2, 0
  {
    var canceled := env.canceled(st.polls);
    var st := st.(polls := st.polls + 1);
    if canceled then st.(cancelJobs := true)
    else if env.configurationNumber != 0 && st.confs > env.configurationNumber then st
    else
      var st := if env.constraintCount > 0 then st.(literals := Split(selected)) else st;
      if env.constraintCount > 0 && env.partialSat(st.literals) == Unsat then st
      else if frontier == [] then Complete(env, st, selected)
      else Expand(env, st, selected, frontier)
  }

  /** The empty-frontier case: check the candidate, hand it to the sorter, wait while the buffer is full. */
  function Complete(env: Env, st: BuildState, selected: string): BuildState
  {
    if !Accepted(env.materialize(selected), NamedFeatures(selected)) then st
    else
      var st := st.(buffer := st.buffer + [BuilderConfiguration(st.confs, selected)]);
      if !env.bufferFirst && |st.buffer| >= MaxSize then
        var canceled := env.canceled(st.polls);
        var st := st.(polls := st.polls + 1);
        if canceled then st else st.(confs := st.confs + 1)
      else st.(confs := st.confs + 1)
  }

  /** The group cases: remove the first feature, name it if concrete, and branch over its children. */
  function Expand(env: Env, st: BuildState, selected: string, frontier: seq<Feature>): BuildState
    requires frontier != []
    decreases SizeList(frontier), 1, 0
  {
    var f := frontier[0];
    var rest := frontier[1..];
    var selected := Visit(selected, f);
    FrontierSize(frontier);
    if f.children == [] then Build(env, st, selected, rest)
    else
      BranchesSmaller(f, rest);
      RunBranches(env, st, selected, Branches(f, rest), SizeList(frontier))
  }

  /** Runs `build` on each branch frontier in turn, threading the state. */
  function RunBranches(env: Env, st: BuildState, selected: string, branches: seq<seq<Feature>>, bound: nat): BuildState
    requires forall i :: 0 <= i < |branches| ==> SizeList(branches[i]) < bound
    decreases bound, 0, |branches|
  {
    if branches == [] then st
    else RunBranches(env, Build(env, st, selected, branches[0]), selected, branches[1..], bound)
  }

  /** The branches of an or-group: one per mask from `OrFirstMask` below `BranchBound`. */
  lemma OrBranchesLength(f: Feature, rest: seq<Feature>)
    requires f.group == Or
    ensures OrFirstMask(f) <= BranchBound(|GetChildren(f)|)
    ensures |Branches(f, rest)| == BranchBound(|GetChildren(f)|) - OrFirstMask(f)
  {
  }

  /** The branch at position `m` selects the children of mask `lo + m`. */
  lemma MaskBranchAt(xs: seq<Feature>, lo: nat, rest: seq<Feature>, m: nat)
    requires lo <= BranchBound(|xs|) && m < BranchBound(|xs|) - lo
    ensures MaskBranches(xs, lo, rest)[m] == Subset(xs, lo + m) + rest
  {
  }

  /** The branches from mask `lo` on are the tail of those from mask 0. */
  lemma MaskBranchesFrom(xs: seq<Feature>, lo: nat, rest: seq<Feature>)
    requires lo <= BranchBound(|xs|)
    ensures MaskBranches(xs, lo, rest) == MaskBranches(xs, 0, rest)[lo..]
  {
  }

  /** The run of the branches from position `i` on. */
  function RunFrom(env: Env, st: BuildState, selected: string, branches: seq<seq<Feature>>, i: nat, bound: nat): BuildState
    requires forall k :: 0 <= k < |branches| ==> SizeList(branches[k]) < bound
    requires i <= |branches|
  {
    RunBranches(env, st, selected, branches[i..], bound)
  }

  /** One more branch run: the fold unfolded at position `i`. */
  lemma RunFromStep(env: Env, st: BuildState, selected: string, branches: seq<seq<Feature>>, bound: nat, i: nat)
    requires forall k :: 0 <= k < |branches| ==> SizeList(branches[k]) < bound
    requires i < |branches|
    ensures RunFrom(env, st, selected, branches, i, bound)
            == RunFrom(env, Build(env, st, selected, branches[i]), selected, branches, i + 1, bound)
  {
    assert branches[i..][1..] == branches[i + 1..];
  }

  /** The run from the first branch is the whole run; the run from past the last one changes nothing. */
  lemma RunFromEnds(env: Env, st: BuildState, selected: string, branches: seq<seq<Feature>>, bound: nat)
    requires forall k :: 0 <= k < |branches| ==> SizeList(branches[k]) < bound
    ensures RunFrom(env, st, selected, branches, 0, bound) == RunBranches(env, st, selected, branches, bound)
    ensures RunFrom(env, st, selected, branches, |branches|, bound) == st
  {
    assert branches[0..] == branches;
    assert branches[|branches|..] == [];
  }

  /** A feature with children is expanded by running its branches on the visited selection. */
  lemma ExpandRuns(env: Env, st: BuildState, selected: string, frontier: seq<Feature>)
    requires frontier != [] && frontier[0].children != []
    ensures forall k :: 0 <= k < |Branches(frontier[0], frontier[1..])| ==>
              SizeList(Branches(frontier[0], frontier[1..])[k]) < SizeList(frontier)
    ensures Expand(env, st, selected, frontier)
            == RunBranches(env, st, Visit(selected, frontier[0]), Branches(frontier[0], frontier[1..]), SizeList(frontier))
  {
    FrontierSize(frontier);
    BranchesSmaller(frontier[0], frontier[1..]);
    assert [frontier[0]] + frontier[1..] == frontier;
  }

  /** A feature without children passes the visited selection on to the rest of the frontier. */
  lemma ExpandLeaf(env: Env, st: BuildState, selected: string, frontier: seq<Feature>)
    requires frontier != [] && frontier[0].children == []
    ensures SizeList(frontier[1..]) < SizeList(frontier)
    ensures Expand(env, st, selected, frontier) == Build(env, st, Visit(selected, frontier[0]), frontier[1..])
  {
    FrontierSize(frontier);
  }

  // ---------------------------------------------------------------------
  // Termination: every branch frontier weighs less than the frontier it came from.

  lemma FrontierSize(frontier: seq<Feature>)
    requires frontier != []
    ensures SizeList(frontier) == Size(frontier[0]) + SizeList(frontier[1..])
  {
  }

  lemma {:induction false} PartitionSize(cs: seq<Feature>)
    ensures SizeList(MandatoryOf(cs)) + SizeList(OptionalOf(cs)) == SizeList(cs)
  {
    if cs != [] {
      PartitionSize(cs[1..]);
      var m := MandatoryOf(cs[1..]);
      var o := OptionalOf(cs[1..]);
      if cs[0].mandatory {
        assert MandatoryOf(cs) == [cs[0]] + m;
        assert OptionalOf(cs) == o;
        SizeListAppend([cs[0]], m);
      } else {
        assert MandatoryOf(cs) == m;
        assert OptionalOf(cs) == [cs[0]] + o;
        SizeListAppend([cs[0]], o);
      }
    }
  }

  lemma {:induction false} ElementSize(cs: seq<Feature>, i: nat)
    requires i < |cs|
    ensures Size(cs[i]) <= SizeList(cs)
  {
    if i > 0 {
      ElementSize(cs[1..], i - 1);
    }
  }

  lemma BranchesSmaller(f: Feature, rest: seq<Feature>)
    requires f.children != []
    ensures forall i :: 0 <= i < |Branches(f, rest)| ==> SizeList(Branches(f, rest)[i]) < SizeList([f] + rest)
  {
    var kept := GetChildren(f);
    var br := Branches(f, rest);
    assert ([f] + rest)[1..] == rest;
    FrontierSize([f] + rest);
    SizeListSubsequence(kept, f.children);
    forall i | 0 <= i < |br| ensures SizeList(br[i]) < SizeList([f] + rest) {
      match f.group {
        case And =>
          var optional := OptionalOf(kept);
          var mandatory := MandatoryOf(kept);
          SubsetIsSubsequence(optional, i);
          SizeListSubsequence(Subset(optional, i), optional);
          PartitionSize(kept);
          SizeListAppend(Subset(optional, i), rest + mandatory);
          SizeListAppend(rest, mandatory);
        case Or =>
          var lo := OrFirstMask(f);
          SubsetIsSubsequence(kept, lo + i);
          SizeListSubsequence(Subset(kept, lo + i), kept);
          SizeListAppend(Subset(kept, lo + i), rest);
        case Alternative =>
          ElementSize(kept, i);
          SizeListAppend([kept[i]], rest);
      }
    }
  }

  /** Every mask of an or-group's children, 0 included, gives a smaller frontier. */
  lemma OrMasksSmaller(f: Feature, rest: seq<Feature>)
    requires f.children != []
    ensures forall i :: 0 <= i < |MaskBranches(GetChildren(f), 0, rest)| ==>
              SizeList(MaskBranches(GetChildren(f), 0, rest)[i]) < SizeList([f] + rest)
  {
    var kept := GetChildren(f);
    var br := MaskBranches(kept, 0, rest);
    assert ([f] + rest)[1..] == rest;
    FrontierSize([f] + rest);
    SizeListSubsequence(kept, f.children);
    forall i | 0 <= i < |br| ensures SizeList(br[i]) < SizeList([f] + rest) {
      MaskBranchAt(kept, 0, rest, i);
      SubsetIsSubsequence(kept, i);
      SizeListSubsequence(Subset(kept, i), kept);
      SizeListAppend(Subset(kept, i), rest);
    }
  }
}
