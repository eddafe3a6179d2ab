/** The resolution effect of the editor component in `CodeMirrorEditor.js`: normalise the gaze point, hit-test it, accept
    the hit only inside the line's glyph box, then report line, column, token and AST chain. */
module Resolver {
  import opened Wrappers
  import opened Geometry
  import opened Document
  import opened SyntaxTree
  import opened Descent
  import opened AstChain

  /** What one resolution reads from the editor: the document text, the current syntax tree, and
      the editor's queries `posAtCoords`, `coordsAtPos` and `resolveInner(pos, 0)`, whose answers
      are given rather than computed here. */
  datatype View = View(
    text: string,
    tree: Tree,
    posAtCoords: Point -> Option<int>,
    coordsAtPos: int -> Option<Rect>,
    resolveInner: int -> Option<nat>)

  /** What the editor guarantees its queries: hit offsets lie in the document, resolved nodes are
      nodes of the tree, and the tree spans lie in the document. */
  ghost predicate Consistent(v: View)
  {
    && WellFormed(v.tree, |v.text|)
    && (forall p :: v.posAtCoords(p).Some? ==> 0 <= v.posAtCoords(p).value <= |v.text|)
    && (forall pos :: v.resolveInner(pos).Some? ==> v.resolveInner(pos).value < |v.tree.nodes|)
  }

  /** The semantic information shown for a sample. */
  datatype Resolution = Resolution(line: int, column: int, token: string, astChain: string)

  /** The values every resolution starts from: the effect resets them before it resolves. */
  const Reset := Resolution(0, 0, "", "")

  /** The gaze point lies in the box from the first to the last glyph of the line holding `pos`,
      and the editor has coordinates for both. */
  predicate InLineBox(v: View, gaze: Point, pos: nat)
    requires pos <= |v.text|
  {
    var line := LineAt(v.text, pos);
    var first := v.coordsAtPos(line.from);
    var last := v.coordsAtPos(line.to);
    first.Some? && last.Some? && InGlyphBox(gaze, first.value, last.value)
  }

  /** The hit is accepted: the editor returns an offset and the point lies in its line's box. */
  predicate Accepted(v: View, gaze: Point)
    requires Consistent(v)
  {
    v.posAtCoords(gaze).Some? && InLineBox(v, gaze, v.posAtCoords(gaze).value as nat)
  }

  /** Token and chain for an accepted offset: both empty when `resolveInner` or
      the descent yields nothing, otherwise the bottom node's text and its rendered chain. */
  function Locate(v: View, pos: nat): (r: (string, string))
    requires Consistent(v) && pos <= |v.text|
    ensures r.1 != "" <==> v.resolveInner(pos).Some? && BottomToken(v.tree, v.resolveInner(pos).value, pos).Some?
    ensures r.1 == "" ==> r.0 == ""
    ensures r.1 != "" ==>
      var b := BottomToken(v.tree, v.resolveInner(pos).value, pos).value;
      && r.0 == v.text[v.tree.nodes[b].from..v.tree.nodes[b].to]
      && r.1 == Render(ChainOf(v.tree, b))
  {
    match v.resolveInner(pos)
    case None => ("", "")
    case Some(node) =>
      match BottomToken(v.tree, node, pos)
      case None => ("", "")
      case Some(b) =>
        var n := v.tree.nodes[b];
        (v.text[n.from..n.to], Render(ChainOf(v.tree, b)))
  }

  /** One resolution of a gaze point on the window, from the reset to the AST chain. */
  function Resolve(v: View, gaze: Point): (r: Resolution)
    requires Consistent(v)
    // line and column are set exactly when the hit is accepted; otherwise nothing is set
    ensures r.line != 0 <==> Accepted(v, gaze)
    ensures !Accepted(v, gaze) ==> r == Reset
    // an accepted hit reports its line and a 1-based column inside that line
    ensures Accepted(v, gaze) ==>
      var pos := v.posAtCoords(gaze).value;
      var line := LineAt(v.text, pos);
      && r.line == line.number >= 1
      && r.column == pos - line.from + 1
      && 1 <= r.column <= line.to - line.from + 1
    // token and chain come only with a line and column, and together
    ensures r.astChain != "" ==> r.line >= 1 && r.column >= 1
    ensures r.token != "" ==> r.astChain != ""
    ensures Accepted(v, gaze) ==> (r.token, r.astChain) == Locate(v, v.posAtCoords(gaze).value)
  {
    match v.posAtCoords(gaze)
    case None => Reset
    case Some(pos) =>
      var line := LineAt(v.text, pos);
      var first := v.coordsAtPos(line.from);
      var last := v.coordsAtPos(line.to);
      if last.Some? && first.Some? && InGlyphBox(gaze, first.value, last.value) then
        var located := Locate(v, pos);
        Resolution(line.number, pos - line.from + 1, located.0, located.1)
      else
        Reset
  }

  /** What the component shows after a sample: the gaze point on the window, and the semantic
      information. */
  datatype Display = Display(gazeOnWindow: Point, info: Resolution)

  /** The editor component's effect for one sample: the gaze point on the window is recomputed from
      the current window origin; without an editor the shown information stays as it was, with
      one it is reset and resolved afresh, whatever was shown before. */
  function OnSample(gazeOnScreen: Point, windowOrigin: Point, editor: Option<View>, shown: Resolution): (d: Display)
    requires editor.Some? ==> Consistent(editor.value)
    ensures Add(d.gazeOnWindow, windowOrigin) == gazeOnScreen
    ensures editor.None? ==> d.info == shown
    ensures editor.Some? ==> d.info == Resolve(editor.value, d.gazeOnWindow)
  {
    var gazeOnWindow := ToWindow(gazeOnScreen, windowOrigin);
    match editor
    case None => Display(gazeOnWindow, shown)
    case Some(v) => Display(gazeOnWindow, Resolve(v, gazeOnWindow))
  }

  /** A point right of the line's last glyph, where `posAtCoords` snaps to the line's end, is
      rejected rather than reported at the last column. */
  lemma TrailingBlankRejected(v: View, gaze: Point)
    requires Consistent(v) && v.posAtCoords(gaze).Some?
    requires var line := LineAt(v.text, v.posAtCoords(gaze).value);
      v.coordsAtPos(line.to).Some? && gaze.x > v.coordsAtPos(line.to).value.right
    ensures Resolve(v, gaze) == Reset
  {
  }

  /** The glyph box is closed: a point on any of its four edges is accepted. */
  lemma BoxEdgesAccepted(v: View, gaze: Point)
    requires Consistent(v) && v.posAtCoords(gaze).Some?
    requires var line := LineAt(v.text, v.posAtCoords(gaze).value);
      && v.coordsAtPos(line.from).Some? && v.coordsAtPos(line.to).Some?
      && var first := v.coordsAtPos(line.from).value;
      && var last := v.coordsAtPos(line.to).value;
      && first.top <= gaze.y <= last.bottom && first.left <= gaze.x <= last.right
      && (gaze.y == first.top || gaze.y == last.bottom || gaze.x == first.left || gaze.x == last.right)
    ensures Resolve(v, gaze).line >= 1
  {
  }

  /** The converse of "token implies position" fails: an accepted hit for which `resolveInner`
      finds no node, or whose descent ends at a node that ends before the position, keeps its line
      and column but has an empty token and chain. */
  lemma PositionWithoutToken(v: View, gaze: Point)
    requires Consistent(v) && Accepted(v, gaze)
    requires var pos := v.posAtCoords(gaze).value as nat;
      || v.resolveInner(pos).None?
      || BottomToken(v.tree, v.resolveInner(pos).value, pos).None?
    ensures Resolve(v, gaze).line >= 1 && Resolve(v, gaze).column >= 1
    ensures Resolve(v, gaze).token == "" && Resolve(v, gaze).astChain == ""
  {
  }
}
