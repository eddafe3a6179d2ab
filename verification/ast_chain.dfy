/** The AST chain of `CodeMirrorEditor.js`: the type names of the bottom token, its parent and its grandparent, written
    as one string with " -> " between the three slots. */
module AstChain {
  import opened Wrappers
  import opened SyntaxTree

  const Arrow: string := " -> "

  /** The three slots; a missing ancestor leaves its slot empty. */
  datatype Chain = Chain(bottom: string, parent: string, grandparent: string)

  function Slots(c: Chain): seq<string>
  {
    [c.bottom, c.parent, c.grandparent]
  }

  /** The `k`-th ancestor of `n` (the node itself for `k == 0`), if the tree is that deep. */
  function Ancestor(t: Tree, n: nat, k: nat): (r: Option<nat>)
    requires Linked(t) && n < |t.nodes|
    ensures r.Some? ==> r.value < |t.nodes| && IsAncestorOf(t, r.value, n)
    decreases k
  {
    if k == 0 then Some(n)
    else
      match Ancestor(t, n, k - 1)
      case None => None
      case Some(a) =>
        assert NodeLinked(t, a);
        match t.nodes[a].parent
        case None => None
        case Some(p) =>
          AncestorTransitive(t, p, a, n);
          Some(p)
  }

  function NameOf(t: Tree, a: Option<nat>): string
    requires a.Some? ==> a.value < |t.nodes|
  {
    match a
    case None => ""
    case Some(i) => t.nodes[i].typeName
  }

  /** The chain for `bottom`, built as the editor component does: `parent1 = bottom.parent`,
      `parent2 = parent1 ? parent1.parent : null`. */
  function ChainOf(t: Tree, bottom: nat): (c: Chain)
    requires Linked(t) && bottom < |t.nodes|
    ensures forall k :: 0 <= k < 3 ==> Slots(c)[k] == NameOf(t, Ancestor(t, bottom, k))
  {
    assert NodeLinked(t, bottom);
    var parent1 := t.nodes[bottom].parent;
    var parent2 := if parent1.Some? then (assert NodeLinked(t, parent1.value); t.nodes[parent1.value].parent) else None;
    assert Ancestor(t, bottom, 1) == parent1;
    assert Ancestor(t, bottom, 2) == parent2;
    Chain(t.nodes[bottom].typeName, NameOf(t, parent1), NameOf(t, parent2))
  }

  /** The chain text: the three slots joined by " -> ", empty slots included. */
  function Render(c: Chain): (s: string)
    ensures |s| == |c.bottom| + |c.parent| + |c.grandparent| + 2 * |Arrow|
    ensures s[..|c.bottom|] == c.bottom
  {
    c.bottom + Arrow + c.parent + Arrow + c.grandparent
  }

  /** An arrow starts at offset `i` of `s`. */
  predicate ArrowAt(s: string, i: int)
  {
    0 <= i && i + |Arrow| <= |s| && s[i..i + |Arrow|] == Arrow
  }

  /** The offset of the first arrow in `s` at or after `from`. */
  function FirstArrowFrom(s: string, from: nat): (r: Option<nat>)
    requires from <= |s|
    ensures r.Some? ==> from <= r.value && ArrowAt(s, r.value)
    ensures r.Some? ==> forall j :: from <= j < r.value ==> !ArrowAt(s, j)
    ensures r.None? ==> forall j :: from <= j ==> !ArrowAt(s, j)
    decreases |s| - from
  {
    if from + |Arrow| > |s| then None
    else if s[from..from + |Arrow|] == Arrow then Some(from)
    else FirstArrowFrom(s, from + 1)
  }

  /** Cuts a chain text back into its slots at each " -> ". */
  function Split(s: string): (parts: seq<string>)
    ensures |parts| >= 1
    decreases |s|
  {
    match FirstArrowFrom(s, 0)
    case None => [s]
    case Some(i) => [s[..i]] + Split(s[i + |Arrow|..])
  }

  /** The search from `from` finds the arrow at `i` when none starts in between. */
  lemma {:induction false} FirstArrowIs(s: string, from: nat, i: nat)
    requires from <= i && ArrowAt(s, i)
    requires forall j :: from <= j < i ==> !ArrowAt(s, j)
    ensures FirstArrowFrom(s, from) == Some(i)
    decreases i - from
  {
    if from < i {
      assert !ArrowAt(s, from);
      FirstArrowIs(s, from + 1, i);
    }
  }

  /** Without a '>' in `a`, the first arrow of `a + Arrow + rest` is the one right after `a`. */
  lemma FirstArrowAfterSlot(a: string, rest: string)
    requires '>' !in a
    ensures FirstArrowFrom(a + Arrow + rest, 0) == Some(|a|)
  {
    var s := a + Arrow + rest;
    assert s[|a|..|a| + |Arrow|] == Arrow;
    forall j | 0 <= j < |a|
      ensures !ArrowAt(s, j)
    {
      if j + |Arrow| <= |s| {
        assert s[j..j + |Arrow|][2] == s[j + 2];
        if j + 2 < |a| {
          assert s[j + 2] == a[j + 2];
        } else {
          assert s[j + 2] == Arrow[j + 2 - |a|];
        }
      }
    }
    FirstArrowIs(s, 0, |a|);
  }

  /** Without a '>' in `a`, `a` holds no arrow. */
  lemma NoArrowInSlot(a: string)
    requires '>' !in a
    ensures FirstArrowFrom(a, 0).None?
  {
    forall j | 0 <= j
      ensures !ArrowAt(a, j)
    {
      if j + |Arrow| <= |a| {
        assert a[j..j + |Arrow|][2] == a[j + 2];
      }
    }
  }

  /** Rendering keeps all three slots, in order, empty ones included: splitting the text at its
      arrows gives them back, provided no type name contains '>'. */
  lemma {:induction false} RenderSplitRoundTrip(c: Chain)
    requires '>' !in c.bottom && '>' !in c.parent && '>' !in c.grandparent
    ensures Split(Render(c)) == Slots(c)
  {
    var tail := c.parent + Arrow + c.grandparent;
    var s := Render(c);
    assert s == c.bottom + Arrow + tail;
    FirstArrowAfterSlot(c.bottom, tail);
    assert s[..|c.bottom|] == c.bottom;
    assert s[|c.bottom| + |Arrow|..] == tail;
    FirstArrowAfterSlot(c.parent, c.grandparent);
    assert tail[..|c.parent|] == c.parent;
    assert tail[|c.parent| + |Arrow|..] == c.grandparent;
    NoArrowInSlot(c.grandparent);
    assert Split(c.grandparent) == [c.grandparent];
    assert Split(tail) == [c.parent] + Split(c.grandparent);
  }
}
