/**
 * The configuration builder as an object: the fields the enumeration
 * updates in place (the next ordinal, the cancel flag, the literal list of
 * the last solver query, the sorter's buffer), the monitor as a sequence of
 * polls, and one method per step of the walk. Each method is proved to
 * compute the corresponding function of module Enumerator, so the facts
 * proved there hold of the object.
 */
module Builder {
  import opened Wrappers
  import opened FeatureTree
  import opened Masks
  import opened Selection
  import opened Enumerator
  import opened EnumeratorFacts
  import opened Generators

  lemma {:induction false} MandatoryOfAppend(a: seq<Feature>, b: seq<Feature>)
    ensures MandatoryOf(a + b) == MandatoryOf(a) + MandatoryOf(b)
    decreases |a|
  {
    if a == [] {
      assert [] + b == b;
    } else {
      assert (a + b)[1..] == a[1..] + b;
      assert (a + b)[0] == a[0];
      MandatoryOfAppend(a[1..], b);
      var h := if a[0].mandatory then [a[0]] else [];
      assert h + (MandatoryOf(a[1..]) + MandatoryOf(b)) == (h + MandatoryOf(a[1..])) + MandatoryOf(b);
    }
  }

  lemma {:induction false} OptionalOfAppend(a: seq<Feature>, b: seq<Feature>)
    ensures OptionalOf(a + b) == OptionalOf(a) + OptionalOf(b)
    decreases |a|
  {
    if a == [] {
      assert [] + b == b;
    } else {
      assert (a + b)[1..] == a[1..] + b;
      assert (a + b)[0] == a[0];
      OptionalOfAppend(a[1..], b);
      var h := if a[0].mandatory then [] else [a[0]];
      assert h + (OptionalOf(a[1..]) + OptionalOf(b)) == (h + OptionalOf(a[1..])) + OptionalOf(b);
    }
  }

  lemma MandatoryOfSnoc(cs: seq<Feature>, c: Feature)
    ensures MandatoryOf(cs + [c]) == MandatoryOf(cs) + (if c.mandatory then [c] else [])
  {
    MandatoryOfAppend(cs, [c]);
    assert [c][1..] == [];
  }

  lemma OptionalOfSnoc(cs: seq<Feature>, c: Feature)
    ensures OptionalOf(cs + [c]) == OptionalOf(cs) + (if c.mandatory then [] else [c])
  {
    OptionalOfAppend(cs, [c]);
    assert [c][1..] == [];
  }

  /** The loop of `buildAnd` that sorts the kept children into mandatory and optional ones, in order. */
  method Partition(kept: seq<Feature>) returns (mandatory: seq<Feature>, optional: seq<Feature>)
    ensures mandatory == MandatoryOf(kept) && optional == OptionalOf(kept)
  {
    mandatory, optional := [], [];
    for j := 0 to |kept|
      invariant mandatory == MandatoryOf(kept[..j])
      invariant optional == OptionalOf(kept[..j])
    {
      ghost var done := kept[..j];
      var c := kept[j];
      assert kept[..j + 1] == done + [c];
      MandatoryOfSnoc(done, c);
      OptionalOfSnoc(done, c);
      if c.mandatory {
        mandatory := mandatory + [c];
      } else {
        optional := optional + [c];
      }
    }
    assert kept[..|kept|] == kept;
  }

  /** The loop of `buildAnd`/`buildOr` that reads the bits of a mask with `% 2` and `/ 2`. */
  method SelectByMask(xs: seq<Feature>, mask: nat) returns (sub: seq<Feature>)
    ensures sub == Subset(xs, mask)
  {
    var k := mask;
    sub := [];
    for j := 0 to |xs|
      invariant sub + Subset(xs[j..], k) == Subset(xs, mask)
    {
      assert xs[j..][1..] == xs[j + 1..];
      ghost var step := Subset(xs[j + 1..], k / 2);
      if k % 2 != 0 {
        assert Subset(xs[j..], k) == [xs[j]] + step;
        assert (sub + [xs[j]]) + step == sub + ([xs[j]] + step);
        sub := sub + [xs[j]];
      } else {
        assert Subset(xs[j..], k) == step;
      }
      k := k / 2;
    }
    assert xs[|xs|..] == [];
  }

  /** The feature names of a selection string: its tokens, the empty ones dropped. */
  method SelectedNames(selected: string) returns (names: seq<string>)
    ensures names == NamedFeatures(selected)
  {
    var tokens := Split(selected);
    names := [];
    for i := 0 to |tokens|
      invariant names == NonEmpty(tokens[..i])
    {
      NonEmptySnoc(tokens[..i], tokens[i]);
      assert tokens[..i + 1] == tokens[..i] + [tokens[i]];
      if tokens[i] != "" {
        names := names + [tokens[i]];
      }
    }
    assert tokens[..|tokens|] == tokens;
  }

  /**
   * The two name checks of a valid candidate: every selected concrete
   * feature is named, and every named feature is selected.
   */
  method CoversSelection(view: ConfigView, names: seq<string>) returns (ok: bool)
    requires view.valid
    ensures ok == Accepted(view, names)
  {
    for k := 0 to |view.selected|
      invariant forall m :: 0 <= m < k && view.selected[m].concrete ==> view.selected[m].name in names
    {
      if view.selected[k].concrete && view.selected[k].name !in names {
        var s := view.selected[k];
        assert s in view.selected && s.concrete && s.name !in names;
        return false;
      }
    }
    for k := 0 to |names|
      invariant forall m :: 0 <= m < k ==> IsSelected(view, names[m])
    {
      if !IsSelected(view, names[k]) {
        assert names[k] in names;
        return false;
      }
    }
    assert forall s :: s in view.selected && s.concrete ==> s.name in names by {
      forall s | s in view.selected && s.concrete ensures s.name in names {
        var m :| 0 <= m < |view.selected| && view.selected[m] == s;
      }
    }
    return true;
  }

  class ConfigurationBuilder {
    /** `bufferConfigurationsFirst`: collect and sort everything before handing anything out. */
    const bufferFirst: bool
    /** The number of cross-tree constraints of the feature model. */
    const constraintCount: nat
    /** The configuration object, as a function of the selection string. */
    const materialize: string -> ConfigView
    /** The solver query on the root formula and a literal list. */
    const partialSat: seq<string> -> SatAnswer
    /** The progress monitor: its answer to the k-th poll. */
    const canceled: nat -> bool

    /** The expected number of configurations; 0 while unknown. */
    var configurationNumber: int
    /** The ordinal of the next configuration found. */
    var confs: int
    /** How often the monitor has been asked so far. */
    var polls: nat
    var cancelGeneratorJobs: bool
    /** The literal list of the last partial-selection query. */
    var children: seq<string>
    /** The build-order sorter, as the queue of configurations it holds. */
    var buffer: seq<BuilderConfiguration>
    var buffered: bool
    var finish: bool
    /** The numbers of the generator jobs created so far. */
    var generatorJobs: seq<int>

    function EnvOf(): Env
      reads this
    {
      Env(bufferFirst, configurationNumber, constraintCount, materialize, partialSat, canceled)
    }

    function StateOf(): BuildState
      reads this
    {
      BuildState(confs, polls, cancelGeneratorJobs, children, buffer)
    }

    constructor (bufferFirst: bool, constraintCount: nat, materialize: string -> ConfigView,
                 partialSat: seq<string> -> SatAnswer, canceled: nat -> bool)
      ensures EnvOf() == Env(bufferFirst, 0, constraintCount, materialize, partialSat, canceled)
      ensures StateOf() == BuildState(1, 0, false, [], [])
      ensures !buffered && !finish && generatorJobs == []
    {
      this.bufferFirst := bufferFirst;
      this.constraintCount := constraintCount;
      this.materialize := materialize;
      this.partialSat := partialSat;
      this.canceled := canceled;
      configurationNumber := 0;
      confs := 1;
      polls := 0;
      cancelGeneratorJobs := false;
      children := [];
      buffer := [];
      buffered := false;
      finish := false;
      generatorJobs := [];
    }

    /**
     * The counting job of the ALL_VALID mode: the total becomes the solver's
     * count, or `Integer.MAX_VALUE` when that count overflowed below zero.
     */
    method CountValidConfigurations(number: int)
      modifies this`configurationNumber
      ensures configurationNumber == CountOrMax(number)
    {
      configurationNumber := number;
      if configurationNumber < 0 {
        configurationNumber := IntMax;
      }
    }

    /** `monitor.isCanceled()`. */
    method Poll() returns (c: bool)
      modifies this`polls
      ensures c == canceled(old(polls)) && polls == old(polls) + 1
    {
      c := canceled(polls);
      polls := polls + 1;
    }

    /** `getConfiguration`: nothing while the buffer-first phase is still collecting, else the sorter's next entry. */
    method GetConfiguration() returns (r: Option<BuilderConfiguration>)
      modifies this`buffer
      ensures bufferFirst && !buffered ==> r == None && buffer == old(buffer)
      ensures !(bufferFirst && !buffered) && old(buffer) == [] ==> r == None && buffer == []
      ensures !(bufferFirst && !buffered) && old(buffer) != [] ==> r == Some(old(buffer)[0]) && buffer == old(buffer)[1..]
    {
      if bufferFirst && !buffered {
        return None;
      }
      if buffer == [] {
        r := None;
      } else {
        r := Some(buffer[0]);
        buffer := buffer[1..];
      }
    }

    /** `addConfiguration`: hand a configuration to the sorter. */
    method AddConfiguration(c: BuilderConfiguration)
      modifies this`buffer
      ensures buffer == old(buffer) + [c]
    {
      buffer := buffer + [c];
    }

    /** `newgeneratorJobs`: one job numbered 0, or jobs numbered from `count` down to 1. */
    method NewGeneratorJobs(count: int)
      modifies this`generatorJobs
      ensures generatorJobs == old(generatorJobs) + GeneratorNumbers(count)
    {
      if count < 1 {
        return;
      }
      if count == 1 {
        generatorJobs := generatorJobs + [0];
        return;
      }
      var n := count;
      while n > 0
        invariant 0 <= n <= count
        invariant generatorJobs == old(generatorJobs) + Countdown(count)[..count - n]
      {
        assert Countdown(count)[..count - n + 1] == Countdown(count)[..count - n] + [n];
        generatorJobs := generatorJobs + [n];
        n := n - 1;
      }
      assert Countdown(count)[..count] == Countdown(count);
    }

    /**
     * After the walk: in buffer-first mode, sort the buffer unless canceled
     * (the sorter reports the new count) and open the gate; then announce
     * that no more configurations will be added.
     */
    method FinishWalk(sortedCount: int)
      modifies this`polls, this`configurationNumber, this`buffered, this`finish
      ensures finish
      ensures bufferFirst ==> buffered && polls == old(polls) + 1
      ensures bufferFirst ==> configurationNumber == if canceled(old(polls)) then old(configurationNumber) else sortedCount
      ensures !bufferFirst ==> buffered == old(buffered) && polls == old(polls) && configurationNumber == old(configurationNumber)
    {
      if bufferFirst {
        var c := Poll();
        if !c {
          configurationNumber := sortedCount;
        }
        buffered := true;
      }
      finish := true;
    }

    /** `buildAll`, with the ordinal reset of `init`: the walk from the root with an empty selection. */
    method BuildAll(root: Feature)
      modifies this`confs, this`polls, this`cancelGeneratorJobs, this`children, this`buffer
      ensures StateOf() == Enumerator.Build(EnvOf(), old(StateOf()).(confs := 1, literals := []), "", [root])
      ensures old(polls) == 0 && !old(cancelGeneratorJobs) && old(buffer) == [] ==>
                forall i :: 0 <= i < |buffer| ==> Accepted(materialize(buffer[i].selected), NamedFeatures(buffer[i].selected))
      ensures old(polls) == 0 && !old(cancelGeneratorJobs) && old(buffer) == [] && Monotone(canceled) ==>
                forall i :: 0 <= i < |buffer| ==> buffer[i].id == i + 1
    {
      ghost var untouched := polls == 0 && !cancelGeneratorJobs && buffer == [];
      confs := 1;
      children := [];
      Build("", [root]);
      if untouched {
        EmittedCandidatesAccepted(EnvOf(), root);
        if Monotone(canceled) {
          EmittedIdsConsecutive(EnvOf(), root);
        }
      }
    }

    /** `build`: the three early returns, then a finished candidate or the group case of the first feature. */
    method Build(selected: string, frontier: seq<Feature>)
      modifies this`confs, this`polls, this`cancelGeneratorJobs, this`children, this`buffer
      ensures StateOf() == Enumerator.Build(EnvOf(), old(StateOf()), selected, frontier)
      decreases SizeList(frontier), 4
    {
      ghost var st0 := StateOf();
      var c := Poll();
      if c {
        cancelGeneratorJobs := true;
        return;
      }
      if configurationNumber != 0 && confs > configurationNumber {
        return;
      }
      if constraintCount > 0 {
        children := Split(selected);
        if partialSat(children) == Unsat {
          return;
        }
      }
      ghost var st1 := StateOf();
      assert Enumerator.Build(EnvOf(), st0, selected, frontier)
             == if frontier == [] then Enumerator.Complete(EnvOf(), st1, selected) else Expand(EnvOf(), st1, selected, frontier);
      if frontier == [] {
        Complete(selected);
        return;
      }
      match frontier[0].group {
        case And => BuildAnd(selected, frontier);
        case Or => BuildOr(selected, frontier);
        case Alternative => BuildAlternative(selected, frontier);
      }
    }

    /** The empty-frontier case of `build`. */
    method Complete(selected: string)
      modifies this`confs, this`polls, this`buffer
      ensures StateOf() == Enumerator.Complete(EnvOf(), old(StateOf()), selected)
    {
      var view := materialize(selected);
      if !view.valid {
        return;
      }
      var names := SelectedNames(selected);
      var ok := CoversSelection(view, names);
      if !ok {
        return;
      }
      AddConfiguration(BuilderConfiguration(confs, selected));
      if !bufferFirst && |buffer| >= MaxSize {
        var c := Poll();
        if c {
          return;
        }
      }
      confs := confs + 1;
    }

    /** `buildAnd`. */
    method BuildAnd(selected: string, frontier: seq<Feature>)
      requires frontier != [] && frontier[0].group == And
      modifies this`confs, this`polls, this`cancelGeneratorJobs, this`children, this`buffer
      ensures StateOf() == Expand(EnvOf(), old(StateOf()), selected, frontier)
      decreases SizeList(frontier), 3
    {
      var f := frontier[0];
      var rest := frontier[1..];
      var sel := selected;
      if f.concrete {
        if sel == "" {
          sel := f.name;
        } else {
          sel := sel + " " + f.name;
        }
      }
      assert sel == Visit(selected, f);
      if f.children == [] {
        ExpandLeaf(EnvOf(), StateOf(), selected, frontier);
        Build(sel, rest);
        return;
      }
      ExpandRuns(EnvOf(), StateOf(), selected, frontier);
      var kept := GetChildren(f);
      var mandatory, optional := Partition(kept);
      var tail := rest + mandatory;
      ghost var branches := Branches(f, rest);
      ghost var bound := SizeList(frontier);
      RunFromEnds(EnvOf(), StateOf(), sel, branches, bound);
      ghost var target := RunBranches(EnvOf(), StateOf(), sel, branches, bound);
      for i2 := 0 to BranchBound(|optional|)
        invariant RunFrom(EnvOf(), StateOf(), sel, branches, i2, bound) == target
      {
        var sub := SelectByMask(optional, i2);
        assert branches[i2] == sub + tail;
        RunBranch(sel, sub + tail, branches, bound, i2);
      }
      RunFromEnds(EnvOf(), StateOf(), sel, branches, bound);
    }

    /** `buildOr`. */
    method BuildOr(selected: string, frontier: seq<Feature>)
      requires frontier != [] && frontier[0].group == Or
      modifies this`confs, this`polls, this`cancelGeneratorJobs, this`children, this`buffer
      ensures StateOf() == Expand(EnvOf(), old(StateOf()), selected, frontier)
      decreases SizeList(frontier), 3
    {
      var f := frontier[0];
      var rest := frontier[1..];
      var sel := selected;
      if f.concrete {
        if sel == "" {
          sel := f.name;
        } else {
          sel := sel + " " + f.name;
        }
      }
      assert sel == Visit(selected, f);
      if f.children == [] {
        ExpandLeaf(EnvOf(), StateOf(), selected, frontier);
        Build(sel, rest);
        return;
      }
      ExpandRuns(EnvOf(), StateOf(), selected, frontier);
      var kept := GetChildren(f);
      var lo := 1;
      if |kept| < |f.children| {
        lo := 0;
      }
      assert lo == OrFirstMask(f);
      OrBranchesLength(f, rest);
      MaskBranchesFrom(kept, lo, rest);
      OrMasksSmaller(f, rest);
      assert [f] + rest == frontier;
      OrMasks(sel, rest, kept, lo, BranchBound(|kept|), MaskBranches(kept, 0, rest), SizeList(frontier));
    }

    /** The mask loop of `buildOr`: one recursive build per subset mask from `lo` on. */
    method OrMasks(sel: string, rest: seq<Feature>, kept: seq<Feature>, lo: nat, hi: nat,
                   ghost all: seq<seq<Feature>>, ghost bound: nat)
      requires all == MaskBranches(kept, 0, rest) && lo <= hi == |all|
      requires forall k :: 0 <= k < |all| ==> SizeList(all[k]) < bound
      modifies this`confs, this`polls, this`cancelGeneratorJobs, this`children, this`buffer
      ensures StateOf() == RunFrom(EnvOf(), old(StateOf()), sel, all, lo, bound)
      decreases bound, 2
    {
      ghost var target := RunFrom(EnvOf(), StateOf(), sel, all, lo, bound);
      for i2 := lo to hi
        invariant RunFrom(EnvOf(), StateOf(), sel, all, i2, bound) == target
      {
        OrMask(sel, rest, kept, i2, all, bound);
      }
      RunFromEnds(EnvOf(), StateOf(), sel, all, bound);
    }

    /** One iteration of the mask loop of `buildOr`: build the subset that mask `i2` selects. */
    method OrMask(sel: string, rest: seq<Feature>, kept: seq<Feature>, i2: nat,
                  ghost all: seq<seq<Feature>>, ghost bound: nat)
      requires all == MaskBranches(kept, 0, rest) && i2 < |all|
      requires forall k :: 0 <= k < |all| ==> SizeList(all[k]) < bound
      modifies this`confs, this`polls, this`cancelGeneratorJobs, this`children, this`buffer
      ensures RunFrom(EnvOf(), StateOf(), sel, all, i2 + 1, bound)
              == RunFrom(EnvOf(), old(StateOf()), sel, all, i2, bound)
      decreases bound, 1
    {
      var sub := SelectByMask(kept, i2);
      MaskBranchAt(kept, 0, rest, i2);
      RunBranch(sel, sub + rest, all, bound, i2);
    }

    /** One recursive `build` call of a group loop: the run moves past branch `m`. */
    method RunBranch(sel: string, branch: seq<Feature>, ghost branches: seq<seq<Feature>>, ghost bound: nat, ghost m: nat)
      requires forall k :: 0 <= k < |branches| ==> SizeList(branches[k]) < bound
      requires m < |branches| && branches[m] == branch
      modifies this`confs, this`polls, this`cancelGeneratorJobs, this`children, this`buffer
      ensures RunFrom(EnvOf(), StateOf(), sel, branches, m + 1, bound)
              == RunFrom(EnvOf(), old(StateOf()), sel, branches, m, bound)
      decreases bound, 0
    {
      RunFromStep(EnvOf(), StateOf(), sel, branches, bound, m);
      Build(sel, branch);
    }

    /** `buildAlternative`. */
    method BuildAlternative(selected: string, frontier: seq<Feature>)
      requires frontier != [] && frontier[0].group == Alternative
      modifies this`confs, this`polls, this`cancelGeneratorJobs, this`children, this`buffer
      ensures StateOf() == Expand(EnvOf(), old(StateOf()), selected, frontier)
      decreases SizeList(frontier), 3
    {
      var f := frontier[0];
      var rest := frontier[1..];
      var sel := selected;
      if f.concrete {
        if sel == "" {
          sel := f.name;
        } else {
          sel := sel + " " + f.name;
        }
      }
      assert sel == Visit(selected, f);
      if f.children == [] {
        ExpandLeaf(EnvOf(), StateOf(), selected, frontier);
        Build(sel, rest);
        return;
      }
      ExpandRuns(EnvOf(), StateOf(), selected, frontier);
      var kept := GetChildren(f);
      ghost var branches := Branches(f, rest);
      ghost var bound := SizeList(frontier);
      RunFromEnds(EnvOf(), StateOf(), sel, branches, bound);
      ghost var target := RunBranches(EnvOf(), StateOf(), sel, branches, bound);
      for i2 := 0 to |kept|
        invariant RunFrom(EnvOf(), StateOf(), sel, branches, i2, bound) == target
      {
        assert branches[i2] == [kept[i2]] + rest;
        RunBranch(sel, [kept[i2]] + rest, branches, bound, i2);
      }
      RunFromEnds(EnvOf(), StateOf(), sel, branches, bound);
    }
  }
}
