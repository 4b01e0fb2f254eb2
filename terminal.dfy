/**
 * What the engine writes to standard error, as abstract writes, and a model
 * of the terminal line those writes produce.
 */
module Terminal {

  /** One write of the engine to the terminal. */
  datatype Write =
    | Echo(c: char)            // one typed character, written as is
    | ClearLine                // "ESC[2K" then "\r": erase the line, cursor to column 1
    | PrintLine(text: string)  // "\r" then the text
    | MoveColumn(col: nat)     // "ESC[<col>G": cursor to the 1-based column col
    | NewLine                  // "\r\n"

  /** The terminal's current line and the cursor's 0-based position on it. */
  datatype Screen = Screen(line: string, at: nat)

  /** A fresh, empty line with the cursor at its start. */
  const Blank := Screen([], 0)

  function Spaces(n: nat): (r: string)
    ensures |r| == n
  {
    seq(n, _ => ' ')
  }

  /** The line after writing `c` at position `at`: overwriting, or extending the line. */
  function Put(line: string, at: nat, c: char): (r: string)
    ensures |r| == if at < |line| then |line| else at + 1
    ensures r[at] == c
    ensures forall j | 0 <= j < |line| && j != at :: r[j] == line[j]
  {
    if at < |line| then line[at := c] else line + Spaces(at - |line|) + [c]
  }

  /** The line after writing `text` from its first column on. */
  function Overwrite(line: string, text: string): (r: string)
    ensures text <= r
    ensures |r| == if |text| < |line| then |line| else |text|
    ensures forall j | |text| <= j < |line| :: r[j] == line[j]
  {
    if |text| < |line| then text + line[|text|..] else text
  }

  function Perform(t: Screen, w: Write): Screen {
    match w
    case Echo(c) => Screen(Put(t.line, t.at, c), t.at + 1)
    case ClearLine => Blank
    case PrintLine(text) => Screen(Overwrite(t.line, text), |text|)
    case MoveColumn(col) => Screen(t.line, if col == 0 then 0 else col - 1)
    case NewLine => Blank
  }

  /** The screen after a sequence of writes. */
  function Replay(t: Screen, ws: seq<Write>): Screen
    decreases |ws|
  {
    if ws == [] then t else Replay(Perform(t, ws[0]), ws[1..])
  }

  lemma WritesAssociate(a: seq<Write>, b: seq<Write>, c: seq<Write>)
    ensures (a + b) + c == a + (b + c)
  {
  }

  lemma {:induction false} ReplayConcat(t: Screen, a: seq<Write>, b: seq<Write>)
    ensures Replay(t, a + b) == Replay(Replay(t, a), b)
    decreases |a|
  {
    if a != [] {
      assert (a + b)[0] == a[0];
      assert (a + b)[1..] == a[1..] + b;
      ReplayConcat(Perform(t, a[0]), a[1..], b);
    } else {
      assert a + b == b;
    }
  }
}
