/** A concrete editor holding the one-line Java statement "int x = 1 + 2;", with a 10-pixel
    monospace layout whose hit test snaps to the nearest caret position. */
module Scenario {
  import opened Wrappers
  import opened Geometry
  import opened Document
  import opened SyntaxTree
  import opened Descent
  import opened AstChain
  import opened Resolver

  const Text: string := "int x = 1 + 2;"

  /** The statement's syntax tree, numbered in document order. */
  const Statement: Tree := Tree([
    Node("Program", 0, 14, None, [1]),                        // 0
    Node("LocalVariableDeclaration", 0, 14, Some(0), [2, 3, 10]), // 1
    Node("PrimitiveType", 0, 3, Some(1), []),                 // 2
    Node("VariableDeclarator", 4, 13, Some(1), [4, 5, 6]),    // 3
    Node("Definition", 4, 5, Some(3), []),                    // 4
    Node("AssignOp", 6, 7, Some(3), []),                      // 5
    Node("BinaryExpression", 8, 13, Some(3), [7, 8, 9]),      // 6
    Node("IntegerLiteral", 8, 9, Some(6), []),                // 7
    Node("ArithOp", 10, 11, Some(6), []),                     // 8
    Node("IntegerLiteral", 12, 13, Some(6), []),              // 9
    Node(";", 13, 14, Some(1), [])                            // 10
  ])

  function Clamp(x: int, lo: int, hi: int): int
  {
    if x < lo then lo else if x > hi then hi else x
  }

  /** The editor: caret `p` sits at x = 10 p on the single line, which spans y in [0, 20]. */
  function Editor(): View
  {
    View(
      Text,
      Statement,
      (pt: Point) => Some(Clamp((pt.x + 5) / 10, 0, 14)),
      (pos: int) => if 0 <= pos <= 14 then Some(Rect(10 * pos, 10 * pos, 0, 20)) else None,
      // `resolveInner(pos, 0)`: the innermost node with `from < pos < to`, else the top node
      (pos: int) =>
        if 1 <= pos <= 2 then Some(2)
        else if 5 <= pos <= 8 then Some(3)
        else if 9 <= pos <= 12 then Some(6)
        else if 1 <= pos <= 13 then Some(1)
        else Some(0))
  }

  lemma StatementWellFormed()
    ensures WellFormed(Statement, |Text|)
  {
    var t := Statement;
    forall i | 0 <= i < |t.nodes|
      ensures NodeLinked(t, i)
    {
      if i == 0 { assert NodeLinked(t, 0); }
      else if i == 1 { assert NodeLinked(t, 1); }
      else if i == 3 { assert NodeLinked(t, 3); }
      else if i == 6 { assert NodeLinked(t, 6); }
      else { assert NodeLinked(t, i); }
    }
  }

  lemma EditorConsistent()
    ensures Consistent(Editor())
  {
    StatementWellFormed();
  }

  lemma TheLine(pos: nat)
    requires pos <= |Text|
    ensures LineAt(Text, pos) == Line(1, 0, 14)
  {
    assert NoBreak(Text, 0, 14);
    LineIsUnique(Text, pos, 0, 14);
    assert Text[..0] == [];
  }

  /** From the binary expression, `childBefore(9 + 1)` is the literal `1`: the operator starts at
      10, not before it. */
  lemma DescentFromBinaryExpression()
    ensures Linked(Statement) && BottomToken(Statement, 6, 9) == Some(7)
  {
    StatementWellFormed();
    var t := Statement;
    var cs := t.nodes[6].children;
    assert cs == [7, 8, 9] && cs[..2] == [7, 8] && cs[..2][..1] == [7];
    assert LastStartingBefore(t, cs[..2][..1], 10) == Some(0);
    assert LastStartingBefore(t, cs, 10) == Some(0);
    assert ChildBefore(t, 6, 10) == Some(7);
    assert Descend(t, 6, 9) == Reached(7);
  }

  /** The chain of the literal; it renders as "IntegerLiteral -> BinaryExpression -> VariableDeclarator". */
  const LiteralChain := Chain("IntegerLiteral", "BinaryExpression", "VariableDeclarator")

  lemma LiteralChainText()
    ensures Render(LiteralChain) == "IntegerLiteral -> BinaryExpression -> VariableDeclarator"
  {
  }

  lemma ChainOfLiteral()
    ensures Linked(Statement)
      && ChainOf(Statement, 7) == LiteralChain
  {
    StatementWellFormed();
    var t := Statement;
    assert t.nodes[7].parent == Some(6) && t.nodes[6].parent == Some(3);
    var c := ChainOf(t, 7);
    assert c.bottom == "IntegerLiteral";
    assert c.parent == "BinaryExpression";
    assert c.grandparent == "VariableDeclarator";
  }

  /** Gazing at the right half of the literal `1` (window x = 87) snaps the caret to offset 9,
      just after it; the `+ 1` of the descent still lands on the literal. */
  lemma GazeOnLiteralOne()
    ensures Consistent(Editor()) && Resolve(Editor(), ToWindow(Point(187, 210), Point(100, 200)))
      == Resolution(1, 10, "1", "IntegerLiteral -> BinaryExpression -> VariableDeclarator")
  {
    EditorConsistent();
    var v := Editor();
    var gaze := ToWindow(Point(187, 210), Point(100, 200));
    assert gaze == Point(87, 10);
    assert v.posAtCoords(gaze) == Some(9);
    TheLine(9);
    assert Accepted(v, gaze);
    DescentFromBinaryExpression();
    ChainOfLiteral();
    assert Text[8..9] == "1";
    assert Locate(v, 9) == ("1", Render(LiteralChain));
    LiteralChainText();
  }

  /** Gazing 40 pixels right of the line's last character: the hit test snaps to the line's end,
      and the glyph-box check rejects it. */
  lemma GazeRightOfLine()
    ensures Consistent(Editor()) && Resolve(Editor(), Point(180, 10)) == Reset
  {
    EditorConsistent();
    var v := Editor();
    assert v.posAtCoords(Point(180, 10)) == Some(14);
    TheLine(14);
  }

  /** A node spanning [0, 10) whose only child starts at 5: at position 2 the loop of
      `getMostBottomToken` never leaves the node, while `BottomToken` stops there. */
  const Gapped: Tree := Tree([
    Node("Block", 0, 10, None, [1]),
    Node("Identifier", 5, 10, Some(0), [])
  ])

  lemma GappedNodeHangs(k: nat)
    ensures Linked(Gapped)
    ensures !IsLeaf(Gapped, Run(Gapped, 0, 2, k))
    ensures BottomToken(Gapped, 0, 2) == Some(0)
  {
    assert NodeLinked(Gapped, 0) && NodeLinked(Gapped, 1);
    assert ChildBefore(Gapped, 0, 3).None?;
    assert Descend(Gapped, 0, 2) == Stuck(0);
    LoopNeverExits(Gapped, 0, 2, k);
  }
}
