/**
 * What the enumeration walk of module Enumerator guarantees: the shape of
 * the branches of each group kind, that every emitted candidate passed the
 * acceptance checks and respects the target count, that ordinals are
 * consecutive, and end-to-end counts for small trees.
 */
module EnumeratorFacts {
  import opened FeatureTree
  import opened Masks
  import opened Selection
  import opened Sequences
  import opened Enumerator

  // ---------------------------------------------------------------------
  // Branch shapes

  lemma {:induction false} OptionalOfNone(cs: seq<Feature>)
    requires forall i :: 0 <= i < |cs| ==> cs[i].mandatory
    ensures OptionalOf(cs) == [] && MandatoryOf(cs) == cs
  {
    if cs != [] {
      OptionalOfNone(cs[1..]);
      assert cs == [cs[0]] + cs[1..];
    }
  }

  /**
   * An AND feature with k kept optional children (k at most 30) branches
   * 2^k times; branch m puts the optional children picked by the bits of m,
   * in child order, ahead of the remaining frontier, which ends with the
   * kept mandatory children; and every choice of optional children is the
   * branch of exactly one mask.
   */
  lemma AndBranchesEnumerateSubsets(f: Feature, rest: seq<Feature>)
    requires f.group == And
    requires |OptionalOf(GetChildren(f))| <= 30
    ensures var optional := OptionalOf(GetChildren(f));
            var tail := rest + MandatoryOf(GetChildren(f));
            var br := Branches(f, rest);
            && |br| == Pow2(|optional|)
            && (forall m :: 0 <= m < |br| ==> br[m] == Pick(optional, Bits(m, |optional|)) + tail)
            && (forall bs: seq<bool> :: |bs| == |optional| ==>
                  FromBits(bs) < |br| && br[FromBits(bs)] == Pick(optional, bs) + tail)
  {
    var optional := OptionalOf(GetChildren(f));
    var n := |optional|;
    var br := Branches(f, rest);
    forall m | 0 <= m < |br| ensures br[m] == Pick(optional, Bits(m, n)) + rest + MandatoryOf(GetChildren(f)) {
      SubsetIsPick(optional, m);
    }
    MasksEnumerateChoices(n);
  }

  /**
   * An OR feature none of whose children was dropped branches over the
   * 2^n - 1 non-empty subsets of its children; when a child was dropped
   * the empty subset (mask 0) is tried as well.
   */
  lemma OrBranchesSubsets(f: Feature, rest: seq<Feature>)
    requires f.group == Or
    requires |GetChildren(f)| <= 30
    ensures var kept := GetChildren(f);
            var br := Branches(f, rest);
            && (|kept| == |f.children| ==>
                  |br| == Pow2(|kept|) - 1
                  && forall i :: 0 <= i < |br| ==> br[i] == Subset(kept, i + 1) + rest && Subset(kept, i + 1) != [])
            && (|kept| < |f.children| ==>
                  |br| == Pow2(|kept|) && br[0] == rest
                  && forall i :: 0 <= i < |br| ==> br[i] == Subset(kept, i) + rest)
  {
    var kept := GetChildren(f);
    var br := Branches(f, rest);
    SubsequenceLength(kept, f.children);
    if |kept| == |f.children| {
      forall i | 0 <= i < |br| ensures br[i] == Subset(kept, i + 1) + rest && Subset(kept, i + 1) != [] {
        SubsetEmptyIff(kept, i + 1);
      }
    } else {
      SubsetEmptyIff(kept, 0);
      assert br[0] == Subset(kept, 0) + rest;
    }
  }

  /** An ALTERNATIVE feature branches once per kept child, that child ahead of the remaining frontier. */
  lemma AlternativeBranchesPerChild(f: Feature, rest: seq<Feature>)
    requires f.group == Alternative
    ensures var br := Branches(f, rest);
            && |br| == |GetChildren(f)|
            && (forall i :: 0 <= i < |br| ==> br[i][0] == GetChildren(f)[i] && br[i][1..] == rest)
            && (forall c :: c in f.children && Kept(c) ==> exists i :: 0 <= i < |br| && br[i][0] == c)
  {
    var br := Branches(f, rest);
    var kept := GetChildren(f);
    forall i | 0 <= i < |br| ensures br[i][0] == kept[i] && br[i][1..] == rest {
      assert br[i] == [kept[i]] + rest;
    }
    forall c | c in f.children && Kept(c) ensures exists i :: 0 <= i < |br| && br[i][0] == c {
      assert c in kept;
      var i :| 0 <= i < |kept| && kept[i] == c;
      assert br[i][0] == c;
    }
  }

  // ---------------------------------------------------------------------
  // Every emitted candidate passed the checks and respects the target count

  /** A candidate the walk may emit: it passes the three checks and its ordinal is within the target count. */
  predicate Sound(env: Env, c: BuilderConfiguration)
  {
    && Accepted(env.materialize(c.selected), NamedFeatures(c.selected))
    && (env.configurationNumber != 0 ==> c.id <= env.configurationNumber)
  }

  /** `after` extends `before`, and everything appended is sound. */
  predicate GrowsSoundly(env: Env, before: seq<BuilderConfiguration>, after: seq<BuilderConfiguration>)
  {
    && |before| <= |after|
    && after[..|before|] == before
    && forall i :: |before| <= i < |after| ==> Sound(env, after[i])
  }

  lemma GrowsSoundlyTrans(env: Env, a: seq<BuilderConfiguration>, b: seq<BuilderConfiguration>, c: seq<BuilderConfiguration>)
    requires GrowsSoundly(env, a, b) && GrowsSoundly(env, b, c)
    ensures GrowsSoundly(env, a, c)
  {
    assert c[..|a|] == c[..|b|][..|a|];
    forall i | |a| <= i < |c|
      ensures Sound(env, c[i])
    {
      if i < |b| {
        assert c[i] == b[i];
      }
    }
  }

  lemma {:induction false} BuildSound(env: Env, st: BuildState, selected: string, frontier: seq<Feature>)
    ensures GrowsSoundly(env, st.buffer, Build(env, st, selected, frontier).buffer)
    ensures Build(env, st, selected, frontier).polls > st.polls
    decreases SizeList(frontier), 2, 0
  {
    var st1 := st.(polls := st.polls + 1);
    if !env.canceled(st.polls) && !(env.configurationNumber != 0 && st1.confs > env.configurationNumber) {
      var st2 := if env.constraintCount > 0 then st1.(literals := Split(selected)) else st1;
      if !(env.constraintCount > 0 && env.partialSat(st2.literals) == Unsat) {
        if frontier == [] {
          assert Build(env, st, selected, frontier) == Complete(env, st2, selected);
          CompleteSound(env, st2, selected);
        } else {
          ExpandSound(env, st2, selected, frontier);
        }
      }
    }
  }

  /** An accepted candidate is appended with the current ordinal, which is within the target count. */
  lemma CompleteSound(env: Env, st: BuildState, selected: string)
    requires env.configurationNumber != 0 ==> st.confs <= env.configurationNumber
    ensures GrowsSoundly(env, st.buffer, Complete(env, st, selected).buffer)
    ensures Complete(env, st, selected).polls >= st.polls
  {
    if Accepted(env.materialize(selected), NamedFeatures(selected)) {
      var c := BuilderConfiguration(st.confs, selected);
      var grown := st.buffer + [c];
      assert grown[..|st.buffer|] == st.buffer;
      assert Sound(env, c);
      assert Complete(env, st, selected).buffer == grown;
    }
  }

  lemma {:induction false} ExpandSound(env: Env, st: BuildState, selected: string, frontier: seq<Feature>)
    requires frontier != []
    ensures GrowsSoundly(env, st.buffer, Expand(env, st, selected, frontier).buffer)
    ensures Expand(env, st, selected, frontier).polls >= st.polls
    decreases SizeList(frontier), 1, 0
  {
    var f := frontier[0];
    FrontierSize(frontier);
    if f.children == [] {
      BuildSound(env, st, Visit(selected, f), frontier[1..]);
    } else {
      BranchesSmaller(f, frontier[1..]);
      assert [f] + frontier[1..] == frontier;
      RunBranchesSound(env, st, Visit(selected, f), Branches(f, frontier[1..]), SizeList(frontier));
    }
  }

  lemma {:induction false} RunBranchesSound(env: Env, st: BuildState, selected: string, branches: seq<seq<Feature>>, bound: nat)
    requires forall i :: 0 <= i < |branches| ==> SizeList(branches[i]) < bound
    ensures GrowsSoundly(env, st.buffer, RunBranches(env, st, selected, branches, bound).buffer)
    ensures RunBranches(env, st, selected, branches, bound).polls >= st.polls
    decreases bound, 0, |branches|
  {
    if branches != [] {
      var st1 := Build(env, st, selected, branches[0]);
      BuildSound(env, st, selected, branches[0]);
      RunBranchesSound(env, st1, selected, branches[1..], bound);
      GrowsSoundlyTrans(env, st.buffer, st1.buffer, RunBranches(env, st, selected, branches, bound).buffer);
    }
  }

  /** The initial state of a run: ordinals start at 1, nothing polled, nothing buffered. */
  function Initial(): BuildState
  {
    BuildState(1, 0, false, [], [])
  }

  /**
   * Every candidate a run from the root emits passed the three acceptance
   * checks; with a non-zero target count, no ordinal exceeds it.
   */
  lemma EmittedCandidatesAccepted(env: Env, root: Feature)
    ensures var r := Build(env, Initial(), "", [root]);
            forall i :: 0 <= i < |r.buffer| ==>
              && Accepted(env.materialize(r.buffer[i].selected), NamedFeatures(r.buffer[i].selected))
              && (env.configurationNumber != 0 ==> r.buffer[i].id <= env.configurationNumber)
  {
    BuildSound(env, Initial(), "", [root]);
  }

  // ---------------------------------------------------------------------
  // Ordinals are consecutive

  /** A monitor, once it answered "canceled", keeps answering so. */
  ghost predicate Monotone(canceled: nat -> bool)
  {
    forall a: nat, b: nat :: a <= b && canceled(a) ==> canceled(b)
  }

  /**
   * From index `start` on, the buffer holds ordinals base, base + 1, ...;
   * `confs` is the next one, or, after a cancellation while waiting on a
   * full buffer, still the last one handed out.
   */
  predicate Counted(env: Env, st: BuildState, start: nat, base: int)
  {
    && start <= |st.buffer|
    && (forall i :: start <= i < |st.buffer| ==> st.buffer[i].id == base + (i - start))
    && (st.confs == base + (|st.buffer| - start)
        || (Stopped(env, st) && st.confs == base + (|st.buffer| - start) - 1))
  }

  lemma {:induction false} BuildCounted(env: Env, st: BuildState, selected: string, frontier: seq<Feature>, start: nat, base: int)
    requires Monotone(env.canceled) && Counted(env, st, start, base)
    ensures var r := Build(env, st, selected, frontier);
            Counted(env, r, start, base) && (Stopped(env, st) ==> Stopped(env, r) && r.buffer == st.buffer)
    decreases SizeList(frontier), 2, 0
  {
    var r := Build(env, st, selected, frontier);
    BuildSound(env, st, selected, frontier);
    var st1 := st.(polls := st.polls + 1);
    if env.canceled(st.polls) {
      assert Stopped(env, r);
    } else {
      assert !Stopped(env, st);
      if !(env.configurationNumber != 0 && st1.confs > env.configurationNumber) {
        var st2 := if env.constraintCount > 0 then st1.(literals := Split(selected)) else st1;
        if !(env.constraintCount > 0 && env.partialSat(st2.literals) == Unsat) {
          if frontier == [] {
            assert r == Complete(env, st2, selected);
            CompleteCounted(env, st2, selected, start, base);
          } else {
            ExpandCounted(env, st2, selected, frontier, start, base);
          }
        }
      }
    }
  }

  /** An accepted candidate takes the next ordinal; a cancellation while waiting keeps `confs` at it. */
  lemma CompleteCounted(env: Env, st: BuildState, selected: string, start: nat, base: int)
    requires Counted(env, st, start, base) && !Stopped(env, st)
    ensures Counted(env, Complete(env, st, selected), start, base)
  {
  }

  lemma {:induction false} ExpandCounted(env: Env, st: BuildState, selected: string, frontier: seq<Feature>, start: nat, base: int)
    requires frontier != []
    requires Monotone(env.canceled) && Counted(env, st, start, base)
    ensures var r := Expand(env, st, selected, frontier);
            Counted(env, r, start, base) && (Stopped(env, st) ==> Stopped(env, r) && r.buffer == st.buffer)
    decreases SizeList(frontier), 1, 0
  {
    var f := frontier[0];
    FrontierSize(frontier);
    if f.children == [] {
      BuildCounted(env, st, Visit(selected, f), frontier[1..], start, base);
    } else {
      BranchesSmaller(f, frontier[1..]);
      assert [f] + frontier[1..] == frontier;
      RunBranchesCounted(env, st, Visit(selected, f), Branches(f, frontier[1..]), SizeList(frontier), start, base);
    }
  }

  lemma {:induction false} RunBranchesCounted(env: Env, st: BuildState, selected: string, branches: seq<seq<Feature>>, bound: nat, start: nat, base: int)
    requires forall i :: 0 <= i < |branches| ==> SizeList(branches[i]) < bound
    requires Monotone(env.canceled) && Counted(env, st, start, base)
    ensures var r := RunBranches(env, st, selected, branches, bound);
            Counted(env, r, start, base) && (Stopped(env, st) ==> Stopped(env, r) && r.buffer == st.buffer)
    decreases bound, 0, |branches|
  {
    if branches != [] {
      var st1 := Build(env, st, selected, branches[0]);
      BuildCounted(env, st, selected, branches[0], start, base);
      RunBranchesCounted(env, st1, selected, branches[1..], bound, start, base);
    }
  }

  /**
   * With a monitor that stays canceled once canceled, the candidates a run
   * from the root emits carry the ordinals 1, 2, 3, ... in emission order.
   */
  lemma EmittedIdsConsecutive(env: Env, root: Feature)
    requires Monotone(env.canceled)
    ensures var r := Build(env, Initial(), "", [root]);
            forall i :: 0 <= i < |r.buffer| ==> r.buffer[i].id == i + 1
  {
    BuildCounted(env, Initial(), "", [root], 0, 1);
  }

  /** Once the monitor has answered "canceled", no further step of the walk emits anything. */
  lemma NothingAfterCancel(env: Env, st: BuildState, selected: string, frontier: seq<Feature>)
    requires Monotone(env.canceled) && Stopped(env, st)
    ensures Build(env, st, selected, frontier).buffer == st.buffer
  {
    BuildCounted(env, st, selected, frontier, |st.buffer|, st.confs);
  }

  /**
   * The gate against the counted total: a count that overflowed below zero,
   * clamped to `Integer.MAX_VALUE`, never stops a call whose ordinal is in
   * the `int` range, and a count of 0 leaves the total unknown; any other
   * count stops a call exactly when its ordinal has passed it.
   */
  lemma CountedTotalGate(count: int, confs: int)
    requires 1 <= confs <= IntMax
    ensures var total := CountOrMax(count);
            (total != 0 && confs > total) <==> (0 < count < confs)
  {
  }

  /**
   * Why the clamp is there: left negative, the total would stop the walk at
   * its first call, since ordinals start at 1.
   */
  lemma NegativeTotalStopsAtRoot(env: Env, st: BuildState, selected: string, frontier: seq<Feature>)
    requires env.configurationNumber < 0 && st.confs >= 1 && !env.canceled(st.polls)
    ensures Build(env, st, selected, frontier) == st.(polls := st.polls + 1)
  {
  }

  // ---------------------------------------------------------------------
  // End-to-end counts

  /**
   * An environment in which nothing stops the walk: the monitor never
   * cancels, there is no target count, no partial selection is
   * unsatisfiable, and every candidate passes the acceptance checks.
   */
  ghost predicate Permissive(env: Env)
  {
    && (forall k: nat :: !env.canceled(k))
    && env.configurationNumber == 0
    && (forall ls :: env.partialSat(ls) != Unsat)
    && (forall s :: Accepted(env.materialize(s), NamedFeatures(s)))
  }

  /** A tree of AND features whose children are all mandatory. */
  predicate MandatoryAndTree(f: Feature)
  {
    f.group == And && forall i :: 0 <= i < |f.children| ==> f.children[i].mandatory && MandatoryAndTree(f.children[i])
  }

  /** The state after the checks at the top of `build` have passed. */
  function Advance(env: Env, st: BuildState, selected: string): BuildState
  {
    var st1 := st.(polls := st.polls + 1);
    if env.constraintCount > 0 then st1.(literals := Split(selected)) else st1
  }

  lemma PermissiveBuild(env: Env, st: BuildState, selected: string, frontier: seq<Feature>)
    requires Permissive(env)
    ensures Build(env, st, selected, frontier) ==
              if frontier == [] then Complete(env, Advance(env, st, selected), selected)
              else Expand(env, Advance(env, st, selected), selected, frontier)
  {
    assert !env.canceled(st.polls);
    assert env.partialSat(Split(selected)) != Unsat;
  }

  lemma PermissiveComplete(env: Env, st: BuildState, selected: string)
    requires Permissive(env)
    ensures Complete(env, st, selected).buffer == st.buffer + [BuilderConfiguration(st.confs, selected)]
    ensures Complete(env, st, selected).confs == st.confs + 1
  {
    assert Accepted(env.materialize(selected), NamedFeatures(selected));
    assert !env.canceled(st.polls);
  }

  /** A frontier of all-mandatory AND trees yields exactly one configuration. */
  lemma {:induction false} MandatoryOnlyEmitsOne(env: Env, st: BuildState, selected: string, frontier: seq<Feature>)
    requires Permissive(env)
    requires forall i :: 0 <= i < |frontier| ==> MandatoryAndTree(frontier[i])
    ensures |Build(env, st, selected, frontier).buffer| == |st.buffer| + 1
    decreases SizeList(frontier)
  {
    var st2 := Advance(env, st, selected);
    PermissiveBuild(env, st, selected, frontier);
    if frontier == [] {
      PermissiveComplete(env, st2, selected);
    } else {
      MandatoryExpandEmitsOne(env, st2, selected, frontier);
    }
  }

  lemma {:induction false} MandatoryExpandEmitsOne(env: Env, st: BuildState, selected: string, frontier: seq<Feature>)
    requires Permissive(env)
    requires frontier != []
    requires forall i :: 0 <= i < |frontier| ==> MandatoryAndTree(frontier[i])
    ensures |Expand(env, st, selected, frontier).buffer| == |st.buffer| + 1
    decreases SizeList(frontier), 0
  {
    var f := frontier[0];
    var rest := frontier[1..];
    var sel := Visit(selected, f);
    FrontierSize(frontier);
    if f.children == [] {
      MandatoryOnlyEmitsOne(env, st, sel, rest);
    } else {
      MandatoryBranches(f, rest);
      var br := Branches(f, rest);
      BranchesSmaller(f, rest);
      assert [f] + rest == frontier;
      assert Expand(env, st, selected, frontier) == RunBranches(env, st, sel, br, SizeList(frontier));
      MandatoryOnlyEmitsOne(env, st, sel, br[0]);
      assert br[1..] == [];
      assert RunBranches(env, st, sel, br, SizeList(frontier))
          == RunBranches(env, Build(env, st, sel, br[0]), sel, br[1..], SizeList(frontier));
    }
  }

  /** An all-mandatory AND feature with children branches once, into the rest followed by its kept children. */
  lemma MandatoryBranches(f: Feature, rest: seq<Feature>)
    requires MandatoryAndTree(f) && f.children != []
    requires forall i :: 0 <= i < |rest| ==> MandatoryAndTree(rest[i])
    ensures |Branches(f, rest)| == 1
    ensures Branches(f, rest)[0] == rest + GetChildren(f)
    ensures forall i :: 0 <= i < |Branches(f, rest)[0]| ==> MandatoryAndTree(Branches(f, rest)[0][i])
  {
    var kept := GetChildren(f);
    KeptMandatory(f);
    OptionalOfNone(kept);
    assert BranchBound(0) == 1;
    var b := rest + kept;
    forall i | 0 <= i < |b| ensures MandatoryAndTree(b[i]) {
      if i >= |rest| {
        assert b[i] == kept[i - |rest|];
      }
    }
  }

  lemma KeptMandatory(f: Feature)
    requires MandatoryAndTree(f)
    ensures forall i :: 0 <= i < |GetChildren(f)| ==> GetChildren(f)[i].mandatory && MandatoryAndTree(GetChildren(f)[i])
  {
    var kept := GetChildren(f);
    forall i | 0 <= i < |kept| ensures kept[i].mandatory && MandatoryAndTree(kept[i]) {
      assert kept[i] in f.children;
      var j :| 0 <= j < |f.children| && f.children[j] == kept[i];
    }
  }

  /** A concrete feature without children. */
  predicate ConcreteLeaf(f: Feature)
  {
    f.concrete && f.children == []
  }

  /** The walk over one concrete leaf emits one candidate named after it. */
  lemma LeafEmits(env: Env, st: BuildState, c: Feature)
    requires Permissive(env) && ConcreteLeaf(c)
    ensures Build(env, st, "", [c]).buffer == st.buffer + [BuilderConfiguration(st.confs, c.name)]
    ensures Build(env, st, "", [c]).confs == st.confs + 1
  {
    var st2 := Advance(env, st, "");
    PermissiveBuild(env, st, "", [c]);
    assert Expand(env, st2, "", [c]) == Build(env, st2, c.name, []);
    PermissiveBuild(env, st2, c.name, []);
    PermissiveComplete(env, Advance(env, st2, c.name), c.name);
  }

  lemma {:induction false} AlternativeLeavesRun(env: Env, st: BuildState, leaves: seq<Feature>, bound: nat)
    requires Permissive(env)
    requires forall i :: 0 <= i < |leaves| ==> ConcreteLeaf(leaves[i]) && SizeList([leaves[i]]) < bound
    ensures var r := RunBranches(env, st, "", seq(|leaves|, i requires 0 <= i < |leaves| => [leaves[i]]), bound);
            && r.confs == st.confs + |leaves|
            && r.buffer == st.buffer + seq(|leaves|, i requires 0 <= i < |leaves| => BuilderConfiguration(st.confs + i, leaves[i].name))
    decreases |leaves|
  {
    var br := seq(|leaves|, i requires 0 <= i < |leaves| => [leaves[i]]);
    if leaves != [] {
      var c := leaves[0];
      LeafEmits(env, st, c);
      var next := Build(env, st, "", br[0]);
      AlternativeLeavesRun(env, next, leaves[1..], bound);
      assert br[1..] == seq(|leaves[1..]|, i requires 0 <= i < |leaves[1..]| => [leaves[1..][i]]);
      var r := RunBranches(env, next, "", br[1..], bound);
      var tail := seq(|leaves[1..]|, i requires 0 <= i < |leaves[1..]| => BuilderConfiguration(next.confs + i, leaves[1..][i].name));
      assert r.buffer == st.buffer + [BuilderConfiguration(st.confs, c.name)] + tail;
      assert [BuilderConfiguration(st.confs, c.name)] + tail
          == seq(|leaves|, i requires 0 <= i < |leaves| => BuilderConfiguration(st.confs + i, leaves[i].name));
    }
  }

  /**
   * An abstract ALTERNATIVE root over k concrete leaves yields exactly k
   * configurations, one per leaf in child order, numbered 1 to k.
   */
  lemma AlternativeOfLeavesEmitsEach(env: Env, root: Feature)
    requires Permissive(env)
    requires root.group == Alternative && !root.concrete && root.children != []
    requires forall i :: 0 <= i < |root.children| ==> ConcreteLeaf(root.children[i])
    ensures var r := Build(env, Initial(), "", [root]);
            r.buffer == seq(|root.children|, i requires 0 <= i < |root.children| => BuilderConfiguration(i + 1, root.children[i].name))
  {
    var st := Initial();
    var st2 := Advance(env, st, "");
    PermissiveBuild(env, st, "", [root]);
    var cs := root.children;
    assert GetChildren(root) == cs by {
      KeptOfAll(cs);
    }
    var br := Branches(root, []);
    assert |br| == |cs|;
    forall i | 0 <= i < |cs| ensures br[i] == [cs[i]] {
      assert br[i] == [cs[i]] + [];
    }
    assert br == seq(|cs|, i requires 0 <= i < |cs| => [cs[i]]);
    BranchesSmaller(root, []);
    assert [root] + [] == [root];
    AlternativeLeavesRun(env, st2, cs, SizeList([root]));
  }

  lemma {:induction false} KeptOfAll(cs: seq<Feature>)
    requires forall i :: 0 <= i < |cs| ==> cs[i].concrete
    ensures KeptOf(cs) == cs
  {
    if cs != [] {
      KeptOfAll(cs[1..]);
      assert cs == [cs[0]] + cs[1..];
    }
  }

  /** Two concrete leaves in a row emit one candidate naming both, in that order. */
  lemma TwoLeavesEmit(env: Env, st: BuildState, b: Feature, a: Feature)
    requires Permissive(env) && ConcreteLeaf(b) && ConcreteLeaf(a) && b.name != ""
    ensures Build(env, st, "", [b, a]).buffer == st.buffer + [BuilderConfiguration(st.confs, b.name + " " + a.name)]
    ensures Build(env, st, "", [b, a]).confs == st.confs + 1
  {
    var s1 := Advance(env, st, "");
    PermissiveBuild(env, st, "", [b, a]);
    assert [b, a][1..] == [a];
    assert Expand(env, s1, "", [b, a]) == Build(env, s1, b.name, [a]);
    var s2 := Advance(env, s1, b.name);
    PermissiveBuild(env, s1, b.name, [a]);
    assert [a][1..] == [];
    assert Expand(env, s2, b.name, [a]) == Build(env, s2, b.name + " " + a.name, []);
    var s3 := Advance(env, s2, b.name + " " + a.name);
    PermissiveBuild(env, s2, b.name + " " + a.name, []);
    PermissiveComplete(env, s3, b.name + " " + a.name);
  }

  /** The AND root of the scenario below: branch 0 is [A], branch 1 is [B, A]. */
  lemma ScenarioBranches(a: Feature, b: Feature, root: Feature)
    requires a == Feature("A", And, true, true, [])
    requires b == Feature("B", And, false, true, [])
    requires root == Feature("Root", And, true, false, [a, b])
    ensures Branches(root, []) == [[a], [b, a]]
  {
    KeptOfAll([a, b]);
    assert GetChildren(root) == [a, b];
    assert [a, b][1..] == [b] && [b][1..] == [];
    assert OptionalOf([b]) == [b];
    assert OptionalOf([a, b]) == [] + OptionalOf([b]) == [b];
    assert MandatoryOf([b]) == [];
    assert MandatoryOf([a, b]) == [a] + MandatoryOf([b]) == [a];
    assert BranchBound(1) == 2;
    var br := Branches(root, []);
    assert br[0] == Subset([b], 0) + [a] == [a];
    assert br[1] == Subset([b], 1) + [a] == [b, a];
  }

  /**
   * An abstract AND root with a mandatory concrete leaf A and an optional
   * concrete leaf B, no constraints and no target count, yields exactly two
   * configurations: "A" and "B A" (the optional subset is put first).
   */
  lemma AndMandatoryOptionalScenario(env: Env)
    requires Permissive(env)
    ensures var a := Feature("A", And, true, true, []);
            var b := Feature("B", And, false, true, []);
            var root := Feature("Root", And, true, false, [a, b]);
            Build(env, Initial(), "", [root]).buffer == [BuilderConfiguration(1, "A"), BuilderConfiguration(2, "B A")]
  {
    var a := Feature("A", And, true, true, []);
    var b := Feature("B", And, false, true, []);
    var root := Feature("Root", And, true, false, [a, b]);
    ScenarioBranches(a, b, root);
    var br := Branches(root, []);
    BranchesSmaller(root, []);
    var bound := SizeList([root]);
    assert [root] + [] == [root];
    var st := Initial();
    var st1 := Advance(env, st, "");
    PermissiveBuild(env, st, "", [root]);
    assert Build(env, st, "", [root]) == RunBranches(env, st1, "", br, bound);
    LeafEmits(env, st1, a);
    var s1 := Build(env, st1, "", [a]);
    TwoLeavesEmit(env, s1, b, a);
    var s2 := Build(env, s1, "", [b, a]);
    assert RunBranches(env, st1, "", br, bound) == RunBranches(env, s1, "", br[1..], bound);
    assert br[1..][1..] == [];
    assert RunBranches(env, s1, "", br[1..], bound) == s2;
    assert st1.confs == 1 && st1.buffer == [];
    assert s1.confs == 2 && s1.buffer == [BuilderConfiguration(1, "A")];
    assert b.name + " " + a.name == "B A";
  }
}
