/** `getMostBottomToken` of `CodeMirrorEditor.js`: from a node, step to `childBefore(position + 1)` until a node without
    children is reached, then keep it only if it ends at or after `position`. */
module Descent {
  import opened Wrappers
  import opened SyntaxTree

  /** How the descent loop ends: it reaches a token, or it sticks at a node that has children but
      none starting before `position + 1`, where the loop body leaves the node unchanged. */
  datatype Outcome = Reached(node: nat) | Stuck(node: nat)

  /** One run of the loop body: move to `childBefore(position + 1)`, or stay when it is null. */
  function Step(t: Tree, cur: nat, position: int): (next: nat)
    requires Linked(t) && cur < |t.nodes|
    ensures next < |t.nodes|
    ensures next == cur || t.nodes[next].parent == Some(cur)
    ensures next == cur <==> ChildBefore(t, cur, position + 1).None?
  {
    ChildBefore(t, cur, position + 1).GetOr(cur)
  }

  /** Where the descent from `start` ends, and whether the loop gets there. */
  function Descend(t: Tree, start: nat, position: int): (o: Outcome)
    requires Linked(t) && start < |t.nodes|
    ensures o.node < |t.nodes|
    ensures IsAncestorOf(t, start, o.node)
    ensures o.Reached? ==> IsLeaf(t, o.node)
    ensures o.Stuck? ==> !IsLeaf(t, o.node) && ChildBefore(t, o.node, position + 1).None?
    decreases |t.nodes| - start
  {
    if IsLeaf(t, start) then Reached(start)
    else
      match ChildBefore(t, start, position + 1)
      case None => Stuck(start)
      case Some(c) =>
        var o := Descend(t, c, position);
        AncestorTransitive(t, start, c, o.node);
        o
  }

  /** The progress condition under which the loop ends: every non-leaf the descent visits has a
      child starting before `position + 1`. */
  predicate Progresses(t: Tree, n: nat, position: int)
    requires Linked(t) && n < |t.nodes|
    decreases |t.nodes| - n
  {
    || IsLeaf(t, n)
    || (ChildBefore(t, n, position + 1).Some? && Progresses(t, ChildBefore(t, n, position + 1).value, position))
  }

  lemma {:induction false} ProgressesIffReached(t: Tree, n: nat, position: int)
    requires Linked(t) && n < |t.nodes|
    ensures Progresses(t, n, position) <==> Descend(t, n, position).Reached?
    decreases |t.nodes| - n
  {
    if !IsLeaf(t, n) && ChildBefore(t, n, position + 1).Some? {
      ProgressesIffReached(t, ChildBefore(t, n, position + 1).value, position);
    }
  }

  /** The loop of `getMostBottomToken` as written: `currentNode` after at most `k` evaluations of the body,
      stopping early once the guard (a first child exists) fails. */
  function Run(t: Tree, cur: nat, position: int, k: nat): (n: nat)
    requires Linked(t) && cur < |t.nodes|
    ensures n < |t.nodes|
    ensures IsAncestorOf(t, cur, n)
    decreases k
  {
    if k == 0 || IsLeaf(t, cur) then cur
    else
      var next := Step(t, cur, position);
      var n := Run(t, next, position, k - 1);
      AncestorTransitive(t, cur, next, n);
      n
  }

  /** At a node where the descent sticks, the loop body leaves the node unchanged for good. */
  lemma {:induction false} StuckStaysPut(t: Tree, s: nat, position: int, k: nat)
    requires Linked(t) && s < |t.nodes|
    requires !IsLeaf(t, s) && ChildBefore(t, s, position + 1).None?
    ensures Run(t, s, position, k) == s
    decreases k
  {
    if k > 0 {
      StuckStaysPut(t, s, position, k - 1);
    }
  }

  /** After at most one body run per arena node after `start`, the loop as written is at the node
      where the descent ends: the token it reached, or the node it sticks at; when the descent
      reaches a token, the loop has left with it. */
  lemma {:induction false} LoopExits(t: Tree, start: nat, position: int, k: nat)
    requires Linked(t) && start < |t.nodes|
    requires k >= |t.nodes| - start
    ensures Run(t, start, position, k) == Descend(t, start, position).node
    ensures Descend(t, start, position).Reached? ==> IsLeaf(t, Run(t, start, position, k))
    decreases |t.nodes| - start
  {
    if !IsLeaf(t, start) {
      match ChildBefore(t, start, position + 1)
      case None =>
        StuckStaysPut(t, start, position, k);
      case Some(c) =>
        LoopExits(t, c, position, k - 1);
    }
  }

  /** When the descent sticks, the guard still holds after any number of body runs: the loop of
      `getMostBottomToken` never exits. */
  lemma {:induction false} LoopNeverExits(t: Tree, start: nat, position: int, k: nat)
    requires Linked(t) && start < |t.nodes|
    requires Descend(t, start, position).Stuck?
    ensures !IsLeaf(t, Run(t, start, position, k))
    decreases |t.nodes| - start, k
  {
    if k > 0 {
      var next := Step(t, start, position);
      if next == start {
        LoopNeverExits(t, start, position, k - 1);
      } else {
        LoopNeverExits(t, next, position, k - 1);
      }
    }
  }

  /** The loop exits for some number of body runs exactly when the progress condition holds. */
  lemma LoopExitsIffProgresses(t: Tree, start: nat, position: int)
    requires Linked(t) && start < |t.nodes|
    ensures (exists k: nat :: IsLeaf(t, Run(t, start, position, k))) <==> Progresses(t, start, position)
  {
    ProgressesIffReached(t, start, position);
    if Descend(t, start, position).Reached? {
      LoopExits(t, start, position, |t.nodes| - start);
    } else {
      forall k: nat ensures !IsLeaf(t, Run(t, start, position, k)) {
        LoopNeverExits(t, start, position, k);
      }
    }
  }

  /** The descent with the hang removed: stop at a node that has no child starting before
      `position + 1`, then keep the node only if it ends at or after `position`. */
  function BottomToken(t: Tree, start: nat, position: int): (r: Option<nat>)
    requires Linked(t) && start < |t.nodes|
    ensures r.Some? ==> r.value < |t.nodes| && IsAncestorOf(t, start, r.value)
    ensures r.Some? ==> t.nodes[r.value].to >= position
    ensures r.Some? ==> IsLeaf(t, r.value) || ChildBefore(t, r.value, position + 1).None?
    ensures r.Some? ==> r.value == Descend(t, start, position).node
    ensures r.None? <==> t.nodes[Descend(t, start, position).node].to < position
  {
    var d := Descend(t, start, position).node;
    if t.nodes[d].to >= position then Some(d) else None
  }

  /** `getMostBottomToken` as a loop; it terminates only under the progress condition,
      and it then agrees with `BottomToken` and returns a token. */
  method GetMostBottomToken(t: Tree, node: nat, position: int) returns (r: Option<nat>)
    requires Linked(t) && node < |t.nodes|
    requires Progresses(t, node, position)
    ensures r == BottomToken(t, node, position)
    ensures r.Some? ==> IsLeaf(t, r.value)
  {
    var current := node;
    while !IsLeaf(t, current)
      invariant current < |t.nodes|
      invariant Progresses(t, current, position)
      invariant Descend(t, current, position) == Descend(t, node, position)
      decreases |t.nodes| - current
    {
      current := ChildBefore(t, current, position + 1).GetOr(current);
    }
    r := if t.nodes[current].to >= position then Some(current) else None;
  }
}
