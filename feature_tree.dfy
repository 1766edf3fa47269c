/**
 * The feature tree the configuration enumerator walks: every feature has a
 * group kind for its children, a mandatory flag (relevant below an AND
 * parent) and a concrete flag (abstract features are never named in a
 * configuration).
 */
module FeatureTree {
  import opened Sequences

  datatype Group = And | Or | Alternative

  datatype Feature = Feature(name: string, group: Group, mandatory: bool, concrete: bool, children: seq<Feature>)

  /** Number of features in the subtree of `f`; the termination measure of the enumeration. */
  function Size(f: Feature): nat
  {
    1 + SizeList(f.children)
  }

  function SizeList(fs: seq<Feature>): nat
  {
    if fs == [] then 0 else Size(fs[0]) + SizeList(fs[1..])
  }

  lemma {:induction false} SizeListAppend(a: seq<Feature>, b: seq<Feature>)
    ensures SizeList(a + b) == SizeList(a) + SizeList(b)
  {
    if a != [] {
      assert (a + b)[1..] == a[1..] + b;
      SizeListAppend(a[1..], b);
    } else {
      assert a + b == b;
    }
  }

  /** A subsequence of a frontier never weighs more than the frontier. */
  lemma {:induction false} SizeListSubsequence(a: seq<Feature>, b: seq<Feature>)
    requires IsSubsequence(a, b)
    ensures SizeList(a) <= SizeList(b)
    decreases |b|
  {
    if a != [] && b != [] {
      if a[0] == b[0] && IsSubsequence(a[1..], b[1..]) {
        SizeListSubsequence(a[1..], b[1..]);
      } else {
        SizeListSubsequence(a, b[1..]);
      }
    }
  }

  /**
   * A child is kept by the enumerator when it is concrete or has a
   * concrete feature somewhere below it.
   */
  predicate Kept(c: Feature)
    decreases c, 1
  {
    c.concrete || HasLayerChild(c)
  }

  /** Some child of `f` is kept (the enumerator calls concrete features layers). */
  predicate HasLayerChild(f: Feature)
    decreases f, 0
  {
    exists i :: 0 <= i < |f.children| && Kept(f.children[i])
  }

  /** The kept children of `f`, in their original order. */
  function GetChildren(f: Feature): (r: seq<Feature>)
    ensures forall c :: c in r <==> c in f.children && Kept(c)
    ensures IsSubsequence(r, f.children)
  {
    KeptOf(f.children)
  }

  function KeptOf(cs: seq<Feature>): (r: seq<Feature>)
    ensures forall c :: c in r <==> c in cs && Kept(c)
    ensures IsSubsequence(r, cs)
  {
    if cs == [] then []
    else
      var tail := KeptOf(cs[1..]);
      assert cs == [cs[0]] + cs[1..];
      SubsequenceCons(cs[0], tail, cs[1..]);
      if Kept(cs[0]) then [cs[0]] + tail else tail
  }

  /** Every feature of the subtree of `f`, in depth-first pre-order. */
  function Subtree(f: Feature): seq<Feature>
  {
    [f] + SubtreeList(f.children)
  }

  function SubtreeList(cs: seq<Feature>): seq<Feature>
  {
    if cs == [] then [] else Subtree(cs[0]) + SubtreeList(cs[1..])
  }

  function ProperDescendants(f: Feature): seq<Feature>
  {
    SubtreeList(f.children)
  }

  predicate SomeConcrete(s: seq<Feature>)
  {
    exists d :: d in s && d.concrete
  }

  /** `hasLayerChild(f)` holds exactly when some proper descendant of `f` is concrete. */
  lemma {:induction false} HasLayerChildIffConcreteDescendant(f: Feature)
    ensures HasLayerChild(f) <==> SomeConcrete(ProperDescendants(f))
  {
    AnyKeptIffConcrete(f.children);
  }

  lemma {:induction false} AnyKeptIffConcrete(cs: seq<Feature>)
    ensures (exists i :: 0 <= i < |cs| && Kept(cs[i])) <==> SomeConcrete(SubtreeList(cs))
    decreases cs
  {
    if cs != [] {
      var c := cs[0];
      AnyKeptIffConcrete(c.children);
      AnyKeptIffConcrete(cs[1..]);
      var s := SubtreeList(cs);
      assert s == Subtree(c) + SubtreeList(cs[1..]);
      assert Subtree(c) == [c] + SubtreeList(c.children);
      if exists i :: 0 <= i < |cs| && Kept(cs[i]) {
        var i :| 0 <= i < |cs| && Kept(cs[i]);
        if i == 0 {
          if c.concrete {
            assert c in s;
          } else {
            assert HasLayerChild(c);
            assert exists j :: 0 <= j < |c.children| && Kept(c.children[j]);
            assert SomeConcrete(SubtreeList(c.children));
            var d :| d in SubtreeList(c.children) && d.concrete;
            assert d in Subtree(c);
            assert d in s;
          }
        } else {
          assert cs[1..][i - 1] == cs[i];
          assert SomeConcrete(SubtreeList(cs[1..]));
          var d :| d in SubtreeList(cs[1..]) && d.concrete;
          assert d in s;
        }
      }
      if SomeConcrete(s) {
        var d :| d in s && d.concrete;
        if d == c {
          assert Kept(cs[0]);
        } else if d in Subtree(c) {
          assert d in SubtreeList(c.children);
          assert SomeConcrete(SubtreeList(c.children));
          assert HasLayerChild(c);
          assert Kept(cs[0]);
        } else {
          assert d in SubtreeList(cs[1..]);
          var i :| 0 <= i < |cs[1..]| && Kept(cs[1..][i]);
          assert Kept(cs[i + 1]);
        }
      }
    }
  }
}
