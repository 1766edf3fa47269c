/**
 * The selection string the configuration enumerator carries down the tree:
 * the names of the concrete features chosen so far, separated by single
 * spaces. It is split again at whitespace runs to build solver literals
 * and to check a finished candidate.
 */
module Selection {

  /** Appending one feature name to the selection string (the same three lines in each group case). */
  function AppendName(selected: string, name: string): string
  {
    if selected == "" then name else selected + " " + name
  }

  /** The characters of Java's `\s`: space, tab, line feed, vertical tab, form feed and carriage return. */
  predicate IsSpace(c: char)
  {
    c == ' ' || c == '\t' || c == '\n' || c == '\r' || c as int == 0x0B || c as int == 0x0C
  }

  /** A name that survives splitting: non-empty and without whitespace. */
  predicate Token(name: string)
  {
    name != "" && forall k :: 0 <= k < |name| ==> !IsSpace(name[k])
  }

  function Join(names: seq<string>): string
  {
    if names == [] then ""
    else if |names| == 1 then names[0]
    else names[0] + " " + Join(names[1..])
  }

  /** The index of the first whitespace character, or the length when there is none. */
  function FirstSpace(s: string): (i: nat)
    ensures i <= |s|
    ensures forall k :: 0 <= k < i ==> !IsSpace(s[k])
    ensures i < |s| ==> IsSpace(s[i])
  {
    if s == [] || IsSpace(s[0]) then 0 else 1 + FirstSpace(s[1..])
  }

  /** The index just past the whitespace run that starts at `i`. */
  function RunEnd(s: string, i: nat): (j: nat)
    requires i <= |s|
    ensures i <= j <= |s|
    ensures forall k :: i <= k < j ==> IsSpace(s[k])
    ensures j < |s| ==> !IsSpace(s[j])
    ensures i < |s| && IsSpace(s[i]) ==> i < j
    decreases |s| - i
  {
    if i < |s| && IsSpace(s[i]) then RunEnd(s, i + 1) else i
  }

  /**
   * The pieces between maximal whitespace runs, empty pieces included:
   * a string that starts with whitespace has an empty first piece, one
   * that ends with whitespace an empty last piece.
   */
  function Pieces(s: string): (r: seq<string>)
    ensures |r| >= 1
    decreases |s|
  {
    var i := FirstSpace(s);
    if i == |s| then [s]
    else [s[..i]] + Pieces(s[RunEnd(s, i)..])
  }

  function DropTrailingEmpty(r: seq<string>): (t: seq<string>)
  {
    if r != [] && r[|r| - 1] == "" then DropTrailingEmpty(r[..|r| - 1]) else r
  }

  /**
   * Java's `split("\\s+")`: the pieces between whitespace runs with the
   * trailing empty pieces removed. A string without whitespace, the empty
   * string included, is its own only token.
   */
  function Split(s: string): (r: seq<string>)
  {
    if s == "" then [""] else DropTrailingEmpty(Pieces(s))
  }

  /** No piece contains whitespace. */
  lemma {:induction false} PiecesHaveNoSpace(s: string)
    ensures forall t :: t in Pieces(s) ==> forall k :: 0 <= k < |t| ==> !IsSpace(t[k])
    decreases |s|
  {
    var i := FirstSpace(s);
    if i < |s| {
      PiecesHaveNoSpace(s[RunEnd(s, i)..]);
    }
  }

  /** Dropping the trailing empty pieces keeps a prefix, removes only empty pieces and leaves a non-empty last one. */
  lemma {:induction false} DropTrailingEmptyShape(r: seq<string>)
    ensures var t := DropTrailingEmpty(r);
            t <= r && (t != [] ==> t[|t| - 1] != "") && forall k :: |t| <= k < |r| ==> r[k] == ""
    decreases |r|
  {
    if r != [] && r[|r| - 1] == "" {
      DropTrailingEmptyShape(r[..|r| - 1]);
    }
  }

  /**
   * The tokens contain no whitespace, the last one is non-empty unless the
   * string is empty, and a string without whitespace is its own only token.
   */
  lemma SplitTokens(s: string)
    ensures forall t :: t in Split(s) ==> forall k :: 0 <= k < |t| ==> !IsSpace(t[k])
    ensures s != "" && Split(s) != [] ==> Split(s)[|Split(s)| - 1] != ""
    ensures FirstSpace(s) == |s| ==> Split(s) == [s]
  {
    if s != "" {
      PiecesHaveNoSpace(s);
      DropTrailingEmptyShape(Pieces(s));
    }
  }

  /** A tab separates tokens as a space does. */
  lemma SplitTab()
    ensures Split("A\tB") == ["A", "B"]
  {
    assert FirstSpace("A\tB") == 1;
    assert RunEnd("A\tB", 1) == 2;
    assert "A\tB"[..1] == "A" && "A\tB"[2..] == "B";
  }

  /** A run of spaces is one separator. */
  lemma SplitRun()
    ensures Split("A  B") == ["A", "B"]
  {
    assert FirstSpace("A  B") == 1;
    assert RunEnd("A  B", 1) == 3;
    assert "A  B"[..1] == "A" && "A  B"[3..] == "B";
  }

  /** Leading whitespace gives an empty first token; trailing whitespace gives none. */
  lemma SplitEnds()
    ensures Split(" A") == ["", "A"]
    ensures Split("A ") == ["A"]
  {
    assert FirstSpace(" A") == 0;
    assert RunEnd(" A", 0) == 1;
    assert " A"[..0] == "" && " A"[1..] == "A";
    assert FirstSpace("A ") == 1;
    assert RunEnd("A ", 1) == 2;
    assert "A "[..1] == "A" && "A "[2..] == "";
    assert Pieces("A ") == ["A", ""];
  }

  function NonEmpty(tokens: seq<string>): (r: seq<string>)
    ensures forall t :: t in r <==> t in tokens && t != ""
  {
    if tokens == [] then []
    else (if tokens[0] != "" then [tokens[0]] else []) + NonEmpty(tokens[1..])
  }

  /** The feature names a selection string mentions: its non-empty tokens. */
  function NamedFeatures(selected: string): seq<string>
  {
    NonEmpty(Split(selected))
  }

  lemma {:induction false} JoinEmpty(names: seq<string>)
    requires forall i :: 0 <= i < |names| ==> Token(names[i])
    ensures Join(names) == "" <==> names == []
  {
    if |names| > 1 {
      assert |Join(names)| > 0;
    }
  }

  /** Appending a name to the string of a name list gives the string of the extended list. */
  lemma {:induction false} AppendNameJoin(names: seq<string>, name: string)
    requires forall i :: 0 <= i < |names| ==> Token(names[i])
    ensures AppendName(Join(names), name) == Join(names + [name])
    decreases |names|
  {
    JoinEmpty(names);
    if |names| == 1 {
      assert Join(names + [name]) == names[0] + " " + Join([name]);
    } else if |names| > 1 {
      assert (names + [name])[1..] == names[1..] + [name];
      AppendNameJoin(names[1..], name);
    }
  }

  /** The string of a non-empty token list starts with the first letter of the first token. */
  lemma {:induction false} JoinHead(names: seq<string>)
    requires names != []
    requires forall i :: 0 <= i < |names| ==> Token(names[i])
    ensures names[0] != "" && Join(names) != "" && Join(names)[0] == names[0][0]
  {
    assert Token(names[0]);
    if |names| > 1 {
      assert Join(names) == names[0] + " " + Join(names[1..]);
    }
  }

  /** Cutting the string of a token list at whitespace runs gives the list back. */
  lemma {:induction false} PiecesJoin(names: seq<string>)
    requires names != []
    requires forall i :: 0 <= i < |names| ==> Token(names[i])
    ensures Pieces(Join(names)) == names
    decreases |names|
  {
    var n0 := names[0];
    assert Token(n0);
    if |names| > 1 {
      var rest := Join(names[1..]);
      var s := n0 + " " + rest;
      assert Join(names) == s;
      JoinHead(names[1..]);
      assert Token(names[1]);
      forall k | 0 <= k < |n0|
        ensures !IsSpace(s[k])
      {
        assert s[k] == n0[k];
      }
      assert s[|n0|] == ' ';
      var i := FirstSpace(s);
      assert i == |n0|;
      assert s[|n0| + 1] == rest[0];
      assert !IsSpace(s[|n0| + 1]);
      assert RunEnd(s, |n0| + 1) == |n0| + 1;
      assert RunEnd(s, i) == |n0| + 1;
      assert s[..i] == n0;
      assert s[|n0| + 1..] == rest;
      PiecesJoin(names[1..]);
    }
  }

  /** Splitting the string of a list of tokens gives the list back. */
  lemma SplitJoin(names: seq<string>)
    requires names != []
    requires forall i :: 0 <= i < |names| ==> Token(names[i])
    ensures Split(Join(names)) == names
  {
    JoinHead(names);
    PiecesJoin(names);
    assert Token(names[|names| - 1]);
  }

  lemma {:induction false} NonEmptyOfTokens(names: seq<string>)
    requires forall i :: 0 <= i < |names| ==> Token(names[i])
    ensures NonEmpty(names) == names
  {
    if names != [] {
      NonEmptyOfTokens(names[1..]);
    }
  }

  /** The names a selection string built from tokens mentions are exactly those tokens, in order. */
  lemma NamedFeaturesOfJoin(names: seq<string>)
    requires forall i :: 0 <= i < |names| ==> Token(names[i])
    ensures NamedFeatures(Join(names)) == names
  {
    if names == [] {
      assert Split("") == [""];
    } else {
      SplitJoin(names);
      NonEmptyOfTokens(names);
    }
  }

  /** Filtering one more token at the end (the loop that collects the named features). */
  lemma {:induction false} NonEmptySnoc(tokens: seq<string>, t: string)
    ensures NonEmpty(tokens + [t]) == NonEmpty(tokens) + (if t != "" then [t] else [])
    decreases |tokens|
  {
    if tokens == [] {
      assert [] + [t] == [t];
    } else {
      assert (tokens + [t])[1..] == tokens[1..] + [t];
      NonEmptySnoc(tokens[1..], t);
    }
  }
}
