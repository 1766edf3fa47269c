/**
 * The clean-up of a covering array's solutions before they are built: each
 * solution, a list of signed literals, becomes the list of names of the
 * concrete features it selects, and repeated lists are dropped, keeping the
 * first one.
 */
module Duplicates {
  import opened Wrappers
  import opened Sequences

  /** What the feature model tells about a feature found by name. */
  datatype FeatureInfo = FeatureInfo(name: string, concrete: bool)

  /**
   * The covering array's map from a literal to a feature identifier, and the
   * feature model's lookup by identifier (`None` for an unknown one).
   */
  datatype Lookup = Lookup(getId: int -> string, getFeature: string -> Option<FeatureInfo>)

  /** A literal contributes a name: it is positive and names an existing concrete feature. */
  predicate Kept(lk: Lookup, i: int)
  {
    i > 0 && lk.getFeature(lk.getId(i)).Some? && lk.getFeature(lk.getId(i)).value.concrete
  }

  function NameOf(lk: Lookup, i: int): string
    requires Kept(lk, i)
  {
    lk.getFeature(lk.getId(i)).value.name
  }

  /** The names contributed by one literal: one or none. */
  function ConvertLiteral(lk: Lookup, i: int): (r: seq<string>)
    ensures Kept(lk, i) ==> r == [NameOf(lk, i)]
    ensures !Kept(lk, i) ==> r == []
  {
    if i > 0 then
      match lk.getFeature(lk.getId(i))
      case Some(f) => if f.concrete then [f.name] else []
      case None => []
    else []
  }

  /** The converted solution, literal by literal in solution order. */
  function Converted(lk: Lookup, sol: seq<int>): seq<string>
  {
    if sol == [] then [] else Converted(lk, sol[..|sol| - 1]) + ConvertLiteral(lk, sol[|sol| - 1])
  }

  function ConvertAll(lk: Lookup, sols: seq<seq<int>>): (r: seq<seq<string>>)
    ensures |r| == |sols|
  {
    if sols == [] then [] else ConvertAll(lk, sols[..|sols| - 1]) + [Converted(lk, sols[|sols| - 1])]
  }

  /** The list grown by adding each element not already in it, as `contains`/`add` do. */
  function Dedup<T(==)>(xs: seq<T>): seq<T>
  {
    if xs == [] then []
    else
      var d := Dedup(xs[..|xs| - 1]);
      if xs[|xs| - 1] in d then d else d + [xs[|xs| - 1]]
  }

  /** The position of the first occurrence of `x` in `xs`. */
  function FirstIndex<T(==)>(xs: seq<T>, x: T): (r: nat)
    requires x in xs
    ensures r < |xs| && xs[r] == x && x !in xs[..r]
  {
    if xs[0] == x then 0 else 1 + FirstIndex(xs[1..], x)
  }

  /** The duplicate-free solutions the builder goes on with. */
  function RemoveDuplicatesSpec(lk: Lookup, sols: seq<seq<int>>): seq<seq<string>>
  {
    Dedup(ConvertAll(lk, sols))
  }

  /** A name is in a converted solution exactly when one of its literals contributes it. */
  lemma {:induction false} ConvertedMembers(lk: Lookup, sol: seq<int>)
    ensures forall x :: x in Converted(lk, sol) <==> exists i :: i in sol && Kept(lk, i) && NameOf(lk, i) == x
    ensures |Converted(lk, sol)| <= |sol|
    decreases |sol|
  {
    if sol != [] {
      var p := sol[..|sol| - 1];
      var last := sol[|sol| - 1];
      ConvertedMembers(lk, p);
      assert sol == p + [last];
      forall x ensures x in Converted(lk, sol) <==> exists i :: i in sol && Kept(lk, i) && NameOf(lk, i) == x {
        if x in Converted(lk, sol) {
          if x in Converted(lk, p) {
            var i :| i in p && Kept(lk, i) && NameOf(lk, i) == x;
            assert i in sol;
          } else {
            assert x in ConvertLiteral(lk, last);
            assert last in sol;
          }
        }
        if exists i :: i in sol && Kept(lk, i) && NameOf(lk, i) == x {
          var i :| i in sol && Kept(lk, i) && NameOf(lk, i) == x;
          if i in p {
            assert x in Converted(lk, p);
          } else {
            assert i == last;
          }
        }
      }
    }
  }

  lemma {:induction false} ConvertAllMembers(lk: Lookup, sols: seq<seq<int>>)
    ensures forall c :: c in ConvertAll(lk, sols) <==> exists s :: s in sols && Converted(lk, s) == c
    decreases |sols|
  {
    if sols != [] {
      var p := sols[..|sols| - 1];
      var last := sols[|sols| - 1];
      ConvertAllMembers(lk, p);
      assert sols == p + [last];
      forall c ensures c in ConvertAll(lk, sols) <==> exists s :: s in sols && Converted(lk, s) == c {
        if exists s :: s in sols && Converted(lk, s) == c {
          var s :| s in sols && Converted(lk, s) == c;
          if s in p {
            assert c in ConvertAll(lk, p);
          }
        }
        if c in ConvertAll(lk, sols) && c !in ConvertAll(lk, p) {
          assert c == Converted(lk, last);
          assert last in sols;
        }
      }
    }
  }

  /** The first occurrence of an element of a prefix lies in the prefix. */
  lemma {:induction false} FirstIndexPrefix<T>(p: seq<T>, x: T, y: T)
    requires y in p
    ensures FirstIndex(p + [x], y) == FirstIndex(p, y)
    decreases |p|
  {
    if p[0] != y {
      assert (p + [x])[1..] == p[1..] + [x];
      FirstIndexPrefix(p[1..], x, y);
    }
  }

  lemma {:induction false} FirstIndexNew<T>(p: seq<T>, x: T)
    requires x !in p
    ensures FirstIndex(p + [x], x) == |p|
    decreases |p|
  {
    if p != [] {
      assert (p + [x])[1..] == p[1..] + [x];
      FirstIndexNew(p[1..], x);
    }
  }

  /**
   * The duplicate-free list never holds two equal entries, holds exactly the
   * entries of the input, and lists them in the order of their first
   * occurrence in the input.
   */
  lemma {:induction false} DedupCorrect<T>(xs: seq<T>)
    ensures NoDuplicates(Dedup(xs))
    ensures forall x :: x in Dedup(xs) <==> x in xs
    ensures forall i, j :: 0 <= i < j < |Dedup(xs)| ==> FirstIndex(xs, Dedup(xs)[i]) < FirstIndex(xs, Dedup(xs)[j])
    ensures |Dedup(xs)| <= |xs|
    decreases |xs|
  {
    if xs != [] {
      var p := xs[..|xs| - 1];
      var x := xs[|xs| - 1];
      var d := Dedup(p);
      DedupCorrect(p);
      assert xs == p + [x];
      forall y: T | y in p ensures FirstIndex(xs, y) == FirstIndex(p, y) {
        FirstIndexPrefix(p, x, y);
      }
      if x !in d {
        var d' := d + [x];
        assert Dedup(xs) == d';
        FirstIndexNew(p, x);
        forall i, j | 0 <= i < j < |d'| ensures FirstIndex(xs, d'[i]) < FirstIndex(xs, d'[j]) {
          assert d'[i] == d[i];
          if j < |d| {
            assert d'[j] == d[j];
          }
        }
      }
    }
  }

  /**
   * `removeDuplicates` as a whole: no two returned lists are equal, every
   * returned list is the conversion of some input solution and every
   * conversion is returned, in the order of first occurrence, and no more
   * lists than solutions come out.
   */
  lemma RemoveDuplicatesCorrect(lk: Lookup, sols: seq<seq<int>>)
    ensures var r := RemoveDuplicatesSpec(lk, sols);
            NoDuplicates(r) &&
            (forall c :: c in r <==> exists s :: s in sols && Converted(lk, s) == c) &&
            (forall c :: c in r <==> c in ConvertAll(lk, sols)) &&
            (forall i, j :: 0 <= i < j < |r| ==>
               FirstIndex(ConvertAll(lk, sols), r[i]) < FirstIndex(ConvertAll(lk, sols), r[j])) &&
            |r| <= |sols|
  {
    DedupCorrect(ConvertAll(lk, sols));
    ConvertAllMembers(lk, sols);
  }

  /** The inner loop: literal by literal, positive literals of concrete features give their names. */
  method ConvertSolution(lk: Lookup, sol: seq<int>) returns (converted: seq<string>)
    ensures converted == Converted(lk, sol)
  {
    converted := [];
    for k := 0 to |sol|
      invariant converted == Converted(lk, sol[..k])
    {
      assert sol[..k + 1][..k] == sol[..k];
      var i := sol[k];
      if i > 0 {
        var id := lk.getId(i);
        var feature := lk.getFeature(id);
        if feature.Some? && feature.value.concrete {
          converted := converted + [feature.value.name];
        }
      }
    }
    assert sol[..|sol|] == sol;
  }

  /** `removeDuplicates`: convert each solution and add it unless an equal list is already there. */
  method RemoveDuplicates(lk: Lookup, sols: seq<seq<int>>) returns (duplicateFree: seq<seq<string>>)
    ensures duplicateFree == RemoveDuplicatesSpec(lk, sols)
    ensures NoDuplicates(duplicateFree) && |duplicateFree| <= |sols|
    ensures forall c :: c in duplicateFree <==> exists s :: s in sols && Converted(lk, s) == c
  {
    duplicateFree := [];
    for k := 0 to |sols|
      invariant duplicateFree == Dedup(ConvertAll(lk, sols[..k]))
    {
      assert sols[..k + 1][..k] == sols[..k];
      var convertedSolution := ConvertSolution(lk, sols[k]);
      if convertedSolution !in duplicateFree {
        duplicateFree := duplicateFree + [convertedSolution];
      }
    }
    assert sols[..|sols|] == sols;
    RemoveDuplicatesCorrect(lk, sols);
  }
}
