/** The parser's syntax tree as an arena: nodes are numbered so that every child comes after its
    parent, and each node keeps a link back to its parent. */
module SyntaxTree {
  import opened Wrappers

  /** One syntax node: its grammar type name, the document span `[from, to)` it covers, the id of
      its parent (none for the top node) and the ids of its children in document order. */
  datatype Node = Node(typeName: string, from: int, to: int, parent: Option<nat>, children: seq<nat>)

  datatype Tree = Tree(nodes: seq<Node>)

  /** Node `i` fits the arena: its children come after it, in increasing id order, and link back to
      it; its parent comes before it and lists it as a child. */
  predicate NodeLinked(t: Tree, i: nat)
    requires i < |t.nodes|
  {
    var cs := t.nodes[i].children;
    && (forall k :: 0 <= k < |cs| ==> i < cs[k] < |t.nodes| && t.nodes[cs[k]].parent == Some(i))
    && (forall k :: 0 < k < |cs| ==> cs[k - 1] < cs[k])
    && (t.nodes[i].parent.Some? ==>
          t.nodes[i].parent.value < i && i in t.nodes[t.nodes[i].parent.value].children)
  }

  predicate Linked(t: Tree)
  {
    forall i :: 0 <= i < |t.nodes| ==> NodeLinked(t, i)
  }

  /** The arena is linked and every span lies in a document of `docLength` characters. */
  predicate WellFormed(t: Tree, docLength: nat)
  {
    && Linked(t)
    && (forall i :: 0 <= i < |t.nodes| ==> 0 <= t.nodes[i].from <= t.nodes[i].to <= docLength)
  }

  /** A node without a first child: a token. */
  predicate IsLeaf(t: Tree, i: nat)
    requires i < |t.nodes|
  {
    |t.nodes[i].children| == 0
  }

  /** `a` is `d` or one of its ancestors, following parent links from `d`. */
  predicate IsAncestorOf(t: Tree, a: nat, d: nat)
    decreases d
  {
    || d == a
    || (&& d < |t.nodes|
        && t.nodes[d].parent.Some?
        && t.nodes[d].parent.value < d
        && IsAncestorOf(t, a, t.nodes[d].parent.value))
  }

  lemma {:induction false} AncestorTransitive(t: Tree, a: nat, b: nat, d: nat)
    requires IsAncestorOf(t, a, b) && IsAncestorOf(t, b, d)
    ensures IsAncestorOf(t, a, d)
    decreases d
  {
    if d != b {
      AncestorTransitive(t, a, b, t.nodes[d].parent.value);
    }
  }

  /** The position in `cs` of the last child whose start lies before `pos`, if any. */
  function LastStartingBefore(t: Tree, cs: seq<nat>, pos: int): (r: Option<nat>)
    requires forall k :: 0 <= k < |cs| ==> cs[k] < |t.nodes|
    ensures r.Some? ==> r.value < |cs| && t.nodes[cs[r.value]].from < pos
    ensures r.Some? ==> forall j :: r.value < j < |cs| ==> t.nodes[cs[j]].from >= pos
    ensures r.None? ==> forall j :: 0 <= j < |cs| ==> t.nodes[cs[j]].from >= pos
  {
    if |cs| == 0 then None
    else if t.nodes[cs[|cs| - 1]].from < pos then Some(|cs| - 1)
    else LastStartingBefore(t, cs[..|cs| - 1], pos)
  }

  /** Lezer's `childBefore(pos)`, taken as: the last child (in child order) that starts before
      `pos`, or none when every child starts at or after `pos`. */
  function ChildBefore(t: Tree, i: nat, pos: int): (r: Option<nat>)
    requires Linked(t) && i < |t.nodes|
    ensures r.Some? ==> i < r.value < |t.nodes| && t.nodes[r.value].parent == Some(i)
    ensures r.Some? ==> r.value in t.nodes[i].children && t.nodes[r.value].from < pos
    ensures r.Some? ==> forall k :: 0 <= k < |t.nodes[i].children| && t.nodes[i].children[k] > r.value ==>
      t.nodes[t.nodes[i].children[k]].from >= pos
    ensures r.None? <==> forall k :: 0 <= k < |t.nodes[i].children| ==> t.nodes[t.nodes[i].children[k]].from >= pos
  {
    assert NodeLinked(t, i);
    var cs := t.nodes[i].children;
    match LastStartingBefore(t, cs, pos)
    case None => None
    case Some(k0) =>
      assert forall k :: 0 <= k <= k0 ==> cs[k] <= cs[k0] by {
        forall k | 0 <= k < k0
          ensures cs[k] < cs[k0]
        {
          ChildIdsIncrease(cs, k, k0);
        }
      }
      Some(cs[k0])
  }

  /** The id of the `k`-th child of node `i`. */
  function ChildAt(t: Tree, i: nat, k: nat): (c: nat)
    requires Linked(t) && i < |t.nodes| && k < |t.nodes[i].children|
    ensures c < |t.nodes| && t.nodes[c].parent == Some(i)
  {
    assert NodeLinked(t, i);
    t.nodes[i].children[k]
  }

  lemma {:induction false} ChildIdsIncrease(cs: seq<nat>, a: nat, b: nat)
    requires forall k :: 0 < k < |cs| ==> cs[k - 1] < cs[k]
    requires a < b < |cs|
    ensures cs[a] < cs[b]
    decreases b - a
  {
    if a + 1 < b {
      ChildIdsIncrease(cs, a, b - 1);
    }
  }

  /** The tie-break at a boundary `p`: when sibling `b` starts at `p`, `childBefore(p + 1)` picks
      `b` or a sibling after it, never an earlier sibling `a` such as one that ends at `p`. */
  lemma ChildBeforePrefersChildStartingAt(t: Tree, i: nat, p: int, a: nat, b: nat)
    requires Linked(t) && i < |t.nodes|
    requires a < b < |t.nodes[i].children|
    requires t.nodes[ChildAt(t, i, b)].from == p
    ensures ChildBefore(t, i, p + 1).Some?
    ensures ChildAt(t, i, b) <= ChildBefore(t, i, p + 1).value
    ensures ChildBefore(t, i, p + 1) != Some(ChildAt(t, i, a))
  {
    var cs := t.nodes[i].children;
    assert NodeLinked(t, i);
    var k := LastStartingBefore(t, cs, p + 1).value;
    assert b <= k;
    if b < k {
      ChildIdsIncrease(cs, b, k);
    }
    ChildIdsIncrease(cs, a, b);
  }
}
