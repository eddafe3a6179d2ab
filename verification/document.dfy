/** The document as the editor's text model sees it: a character sequence cut into lines at '\n'. */
module Document {

  /** One line as `lineAt` reports it: its 1-based number, the offset of its first character, and
      the offset of its end (the line break, or the end of the text). */
  datatype Line = Line(number: int, from: int, to: int)

  /** Offset `i` is the first offset of a line. */
  predicate StartsLine(text: string, i: int)
  {
    i == 0 || (0 < i <= |text| && text[i - 1] == '\n')
  }

  /** Offset `i` is where a line ends. */
  predicate EndsLine(text: string, i: int)
  {
    i == |text| || (0 <= i < |text| && text[i] == '\n')
  }

  /** No line break between offsets `a` (inclusive) and `b` (exclusive). */
  predicate NoBreak(text: string, a: int, b: int)
    requires 0 <= a && b <= |text|
  {
    forall i :: a <= i < b ==> text[i] != '\n'
  }

  /** The number of line breaks in `s`. */
  function Breaks(s: string): nat
  {
    if |s| == 0 then 0 else Breaks(s[..|s| - 1]) + (if s[|s| - 1] == '\n' then 1 else 0)
  }

  /** A stretch without line breaks adds nothing to the break count. */
  lemma {:induction false} BreaksUnchanged(text: string, a: nat, b: nat)
    requires a <= b <= |text|
    requires NoBreak(text, a, b)
    ensures Breaks(text[..b]) == Breaks(text[..a])
    decreases b - a
  {
    if a < b {
      BreaksUnchanged(text, a, b - 1);
      assert text[..b][..b - 1] == text[..b - 1];
      assert text[..b][b - 1] == text[b - 1];
    }
  }

  /** The start of the line holding `pos`: walk left until a line break or the start of the text. */
  function LineStart(text: string, pos: nat): (s: nat)
    requires pos <= |text|
    ensures s <= pos
    ensures StartsLine(text, s)
    ensures NoBreak(text, s, pos)
    decreases pos
  {
    if pos == 0 || text[pos - 1] == '\n' then pos else LineStart(text, pos - 1)
  }

  /** The end of the line holding `pos`: walk right until a line break or the end of the text. */
  function LineEnd(text: string, pos: nat): (e: nat)
    requires pos <= |text|
    ensures pos <= e <= |text|
    ensures EndsLine(text, e)
    ensures NoBreak(text, pos, e)
    decreases |text| - pos
  {
    if pos == |text| || text[pos] == '\n' then pos else LineEnd(text, pos + 1)
  }

  /** `lineAt(pos)`: the line that holds offset `pos`; an offset on a line break belongs to the line
      the break ends. Its number is one more than the breaks before the line's start. */
  function LineAt(text: string, pos: nat): (l: Line)
    requires pos <= |text|
    ensures 0 <= l.from <= pos <= l.to <= |text|
    ensures StartsLine(text, l.from) && EndsLine(text, l.to)
    ensures NoBreak(text, l.from, l.to)
    ensures l.number == Breaks(text[..l.from]) + 1
  {
    var from := LineStart(text, pos);
    var to := LineEnd(text, pos);
    BreaksUnchanged(text, from, pos);
    Line(Breaks(text[..pos]) + 1, from, to)
  }

  /** The line around `pos` is the only stretch that holds `pos`, starts and ends a line and has
      no break inside. */
  lemma LineIsUnique(text: string, pos: nat, a: nat, b: nat)
    requires a <= pos <= b <= |text|
    requires StartsLine(text, a) && EndsLine(text, b) && NoBreak(text, a, b)
    ensures LineAt(text, pos).from == a && LineAt(text, pos).to == b
  {
  }

  /** Every offset of a line reports that same line. */
  lemma SameLine(text: string, p: nat, q: nat)
    requires p <= |text|
    requires LineAt(text, p).from <= q <= LineAt(text, p).to
    ensures LineAt(text, q) == LineAt(text, p)
  {
    var l := LineAt(text, p);
    LineIsUnique(text, q, l.from as nat, l.to as nat);
  }
}
