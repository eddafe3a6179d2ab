# Gaze-to-code resolution, modelled in Dafny

This project models the core of a web code editor that turns a stream of gaze (or mouse) points
on the screen into code context. For each sample the editor component:

1. normalises the point from screen to window coordinates. The window origin is `screen − client`
   of the latest mouse event; the gaze point on the window is `gazeOnScreen − origin`;
2. asks the editor for the caret position nearest to the point (`posAtCoords`). It accepts the hit
   only when the point lies in the closed box from the line's first glyph to its last glyph;
3. reports the line number and the 1-based column `position − line.from + 1`;
4. finds the syntax node around the position (`resolveInner`) and descends from it to a node
   without children via `childBefore(position + 1)` (`getMostBottomToken`). It then reports the
   token text and a three-slot AST chain `bottom -> parent -> grandparent`.

Modules, leaf first:

- `Wrappers`: `Option`, for every query that can answer `null`.
- `Geometry`: points, rectangles, the window-origin normalisation and the glyph box.
- `Document`: the text split into lines at `'\n'`, and `lineAt`.
- `SyntaxTree`: the syntax tree as an arena. Children come after their parent, in increasing id
  order, and keep a parent link. It also holds the `childBefore` primitive.
- `Descent`: `getMostBottomToken`. This covers the loop as written (`Run`), its outcome
  (`Descend`: reached a token, or stuck), the hang it can fall into, a while-loop version, and the
  total `BottomToken` that the resolver uses.
- `AstChain`: the three-slot chain, its rendering with `" -> "`, and splitting the text back into
  slots.
- `Resolver`: the editor `View` (document, tree and the three editor queries as given functions),
  `Resolve`, and the per-sample effect `OnSample`.
- `Scenario`: the one-line document `int x = 1 + 2;` with a concrete tree and layout.

Assumptions about the editor library, whose source is not part of this model:

- `childBefore(p)` returns the last child, in child order, that starts before `p`. It returns none
  when every child starts at or after `p`.
- `posAtCoords` returns offsets inside the document.
- `resolveInner` returns nodes of the current tree.
- Tree spans lie inside the document.

The descent's termination measure is the number of arena nodes after the current one. This bounds
the remaining depth, because each step moves to a child, and a child has a larger id.

Two consequences of the code worth stating:

- An accepted hit whose `resolveInner` yields nothing, or whose descent ends before the position,
  keeps its line and column, with an empty token and chain (`Resolver.PositionWithoutToken`): the
  line and column are set before the token is looked for.
- In `int x = 1 + 2;` the `1` is at offset 8. A gaze on its right half snaps to caret 9, and the
  `+ 1` of the descent still lands on the literal, which gives line 1, column 10 and token `1`
  (`Scenario.GazeOnLiteralOne`).

## Model

| member | source | states |
|---|---|---|
| `Geometry.WindowOrigin` | src/components/CodeMirrorEditor.js:42-47 | the window origin plus the event's client point gives back the event's screen point |
| `Geometry.ToWindow` | src/components/CodeMirrorEditor.js:55-59 | the gaze point on the window plus the window origin gives back the gaze point on the screen |
| `Geometry.SampleAtMouseEventLandsOnClient` | src/components/CodeMirrorEditor.js:42-59 | a gaze sample at the screen point of the mouse event that fixed the origin lands on that event's client point |
| `Document.LineAt` | src/components/CodeMirrorEditor.js:79 | the line holds the position, starts at the text's start or after a break, ends at a break or the text's end, has no break inside, and is numbered one more than the breaks before it |
| `Document.LineIsUnique` | src/components/CodeMirrorEditor.js:79 | any stretch that holds the position, starts and ends a line and has no break inside is the line `lineAt` reports |
| `Document.SameLine` | src/components/CodeMirrorEditor.js:79 | every offset of a line reports that same line |
| `SyntaxTree.ChildBefore` | src/components/CodeMirrorEditor.js:17 | the result is a child that starts before the bound, and every later child starts at or after it, so it is the last such child; there is no result exactly when every child starts at or after the bound |
| `SyntaxTree.LastStartingBefore` | src/components/CodeMirrorEditor.js:17 | the chosen child starts before the bound and every later child starts at or after it, so it is the last child starting before the bound; none is chosen exactly when no child starts before it |
| `SyntaxTree.ChildBeforePrefersChildStartingAt` | src/components/CodeMirrorEditor.js:17 | at a boundary `p` where a sibling starts, `childBefore(p + 1)` picks that sibling or a later one, never an earlier sibling such as the token that ends at `p` |
| `Descent.Step` | src/components/CodeMirrorEditor.js:17 | one run of the loop body moves to a child of the current node, or stays exactly when `childBefore(position + 1)` is null |
| `Descent.Descend` | src/components/CodeMirrorEditor.js:15-18 | the descent ends at the start node or a descendant of it; that node is a token, or a node with children none of which starts before `position + 1` |
| `Descent.ProgressesIffReached` | src/components/CodeMirrorEditor.js:16-17 | the descent reaches a token exactly when every non-leaf it visits has a child starting before `position + 1` |
| `Descent.Run` | src/components/CodeMirrorEditor.js:15-18 | after any number of body runs of the loop as written, the current node is the start node or one of its descendants |
| `Descent.LoopExits` | src/components/CodeMirrorEditor.js:15-18 | after at most one body run per later arena node, the loop as written sits at the node where the descent ends, whether that is a token or a node it sticks at; when it is a token, the loop has left |
| `Descent.StuckStaysPut` | src/components/CodeMirrorEditor.js:16-17 | at a node with children none of which starts before `position + 1`, any number of body runs leaves the current node unchanged |
| `Descent.LoopNeverExits` | src/components/CodeMirrorEditor.js:16-17 | when the descent sticks, the loop guard still holds after any number of body runs, so the loop never exits |
| `Descent.LoopExitsIffProgresses` | src/components/CodeMirrorEditor.js:15-18 | the loop as written exits for some number of body runs exactly when the progress condition holds |
| `Descent.BottomToken` | src/components/CodeMirrorEditor.js:14-20 | a returned node is exactly the node where the descent ends (the token, or the node it sticks at), a descendant of the start node that ends at or after the position and cannot be descended further; none is returned exactly when that node ends before the position |
| `Descent.GetMostBottomToken` | src/components/CodeMirrorEditor.js:14-20 | the while loop terminates under the progress condition, returns a token, and agrees with `BottomToken` |
| `AstChain.Ancestor` | src/components/CodeMirrorEditor.js:102-103 | the k-th ancestor, when it exists, is a node of the tree reached from the node by parent links |
| `AstChain.ChainOf` | src/components/CodeMirrorEditor.js:102-105 | slot k (of exactly three) is the type name of the k-th ancestor of the bottom node, or empty when the tree is not that deep |
| `AstChain.Render` | src/components/CodeMirrorEditor.js:105 | the chain text starts with the bottom type name, and its length is the three slot lengths plus two separators, so it is never empty |
| `AstChain.RenderSplitRoundTrip` | src/components/CodeMirrorEditor.js:105 | splitting the chain text at its arrows gives back the three slots in order, empty slots included |
| `Resolver.Locate` | src/components/CodeMirrorEditor.js:94-106 | token and chain are both set exactly when `resolveInner` and the descent yield a node; the token is then the document slice of that node and the chain its rendered chain |
| `Resolver.Resolve` | src/components/CodeMirrorEditor.js:61-108 | line and column are set exactly when the hit is accepted, else the result stays at its reset values; an accepted hit reports its line number and a 1-based column no greater than the line length plus one; a token or chain appears only with a line and column |
| `Resolver.OnSample` | src/components/CodeMirrorEditor.js:54-111 | the gaze point on the window plus the origin is the gaze point on the screen; with no editor the shown information is unchanged, with one it is resolved afresh, whatever was shown before |
| `Resolver.TrailingBlankRejected` | src/components/CodeMirrorEditor.js:70-91 | a point right of the line's last glyph, which the hit test snaps to the line's end, gives the reset result |
| `Resolver.BoxEdgesAccepted` | src/components/CodeMirrorEditor.js:86-91 | a point on any of the four edges of the closed glyph box is accepted |
| `Resolver.PositionWithoutToken` | src/components/CodeMirrorEditor.js:92-107 | an accepted hit where `resolveInner` finds nothing, or the descent ends at a node that ends before the position, keeps line and column but has an empty token and chain |
| `Scenario.GazeOnLiteralOne` | src/components/CodeMirrorEditor.js:54-111 | in `int x = 1 + 2;`, a gaze on the right half of `1` resolves to line 1, column 10, token `1`, chain `IntegerLiteral -> BinaryExpression -> VariableDeclarator` |
| `Scenario.GazeRightOfLine` | src/components/CodeMirrorEditor.js:86-91 | a gaze 40 pixels right of the line's last character gives the reset result |
| `Scenario.GappedNodeHangs` | src/components/CodeMirrorEditor.js:16-17 | for a node over [0, 10) whose only child starts at 5, at position 2 the loop never exits, while `BottomToken` stops at the node |

## Findings

| source | as written | input that shows it | evidently intended | confidence | as-written member | corrected member |
|---|---|---|---|---|---|---|
| src/components/CodeMirrorEditor.js:16-17 | the loop keeps running while the node has a first child, and replaces the node by `childBefore(position + 1) \|\| currentNode`; a node with children none of which starts before `position + 1` is never left | a node spanning [0, 10) whose only child spans [5, 10), at position 2 (`Scenario.GappedNodeHangs`) | stop descending at such a node (the `\|\| currentNode` fallback), then apply the `to >= position` check | low: not executed, and whether the Java parser ever hands `resolveInner` such a node is not known | `Descent.LoopNeverExits` | `Descent.BottomToken` |

`Descent.BottomToken` needs no progress condition. Under that condition it agrees with the loop
(`Descent.GetMostBottomToken`). `Resolver.Locate` uses it.

## Left out

- React state and effect scheduling. Line 76 reads `gazePosOnWindow` from the previous render, and
  the effect re-runs because that value is one of its dependencies (line 111). `Resolve` takes the
  freshly computed window point instead.
- `posAtCoords`, `coordsAtPos` and `resolveInner`: library code. They are fields of `View` that hold
  given functions, and only the assumptions listed above are made about them.
- `childBefore`: the library code is not part of this model. It is defined under the assumption
  above.
- `lineAt` splits at `'\n'` only. The editor's own line-break normalisation is not modelled.
- `sliceDoc` is a plain slice of the text. Tree spans are assumed to lie in the document.
- The syntax tree and text are inputs to each resolution. Reparsing after edits, and a tree that is
  stale relative to the text, are not modelled.
- Pixel coordinates are integers, not floating-point numbers.
- Idempotence (the same point against the same document and tree gives the same result) holds
  because `Resolve` is a function, so no lemma states it.
- `Resolver.Resolve`: where the descent sticks (a node with children none of which starts before
  `position + 1`), the program never returns, while the model returns that stuck node's text and
  chain, through `Descent.BottomToken`.
- `AstChain.RenderSplitRoundTrip`: it requires that no type name contains `'>'`. Without that
  condition, a type name could itself hold an arrow and the split would find more than three slots.
- src/components/Component.js: fetching the code file, the mouse-move listener that supplies the
  gaze point on the screen, and the commented-out WebSocket feed. These are I/O and event wiring.
- src/components/CodeMirrorEditor.js:41-52 and :24: the editor component's own `mousemove`
  listener and the state cell `windowPosOnScreen`, which starts at `{x: 0, y: 0}` and keeps the
  latest origin. Registering the listener and keeping the cell are not modelled: `WindowOrigin`
  computes one event's origin, and `OnSample` takes the cell's current value as a parameter.
- Offsets and columns count characters of the text (Unicode scalar values), while the editor
  counts UTF-16 code units. Text with characters outside the Basic Multilingual Plane, which take
  two units each in JavaScript, is not modelled: there the editor's columns and slice bounds differ
  from the model's.
- public/mouse_simulation.py: a WebSocket server that sends scaled pointer positions. This is I/O,
  concurrency and floating-point arithmetic.
- src/components/RedCircle.js: CSS placement of the marker dot. This is presentation.
- src/components/Description.js: static text.
- public/code/TwoSum.java and public/code/BinarySearch.java: sample documents. The scenario uses
  its own one-line document instead.
