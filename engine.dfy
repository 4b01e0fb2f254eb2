/**
 * The editing engine as values: the state of a `Readline` (prompt, history,
 * history position, current input, cursor, history file) and, for every
 * handler of the read loop, the new state and the writes it makes. The class
 * in module ReadlineClass is proved to do exactly this.
 */
module Engine {
  import opened Options
  import opened Keys
  import opened Text
  import opened Terminal
  import opened HistoryFile

  /** The fields of a `Readline`, except the reader. `historyFile` holds the file's text. */
  datatype State = State(
    prompt: string,
    history: seq<string>,
    historyPos: nat,
    currentInput: string,
    ciPos: nat,
    historyFile: Option<string>)
  {
    /** The cursor lies within the input, the history position within the history. */
    predicate Valid() {
      ciPos <= |currentInput| && historyPos <= |history|
    }
  }

  /** The state after a handler and what the handler wrote to the terminal. */
  datatype Effect = Effect(state: State, out: seq<Write>)

  /** What `run` returns: a submitted line (Ok), Ctrl-C (Err "Exited"), or a failed read (Err). */
  datatype Outcome = Line(text: string) | Exited | ReadError

  // ---------------------------------------------------------------- rendering

  /**
   * The 1-based column the cursor is moved to after the line is printed: the
   * prompt counts in UTF-8 bytes, so the cursor lands just after the first
   * `ciPos` characters of the input exactly when the prompt is ASCII.
   */
  function Column(s: State): (c: nat)
    ensures |s.prompt| + s.ciPos < c
    ensures c == |s.prompt| + s.ciPos + 1 <==> IsAscii(s.prompt)
  {
    Utf8Len(s.prompt) + s.ciPos + 1
  }

  /** `print_current_line`: the prompt and the input from column 1, then the cursor column. */
  function CurrentLine(s: State): seq<Write> {
    [PrintLine(s.prompt + s.currentInput), MoveColumn(Column(s))]
  }

  /** `clear_current_line` followed by `print_current_line`. */
  function Redraw(s: State): seq<Write> {
    [ClearLine] + CurrentLine(s)
  }

  // -------------------------------------------------------------- line buffer

  /** `ci_insert_pos`: the character goes in before the cursor and the cursor moves past it. */
  function CiInsertPos(s: State, c: char): (r: State)
    requires s.Valid()
    ensures r.Valid()
    ensures r == s.(currentInput := r.currentInput, ciPos := s.ciPos + 1)
    ensures |r.currentInput| == |s.currentInput| + 1 && r.currentInput[s.ciPos] == c
    ensures RemoveAt(r.currentInput, s.ciPos) == s.currentInput
  {
    var input := InsertAt(s.currentInput, s.ciPos, c);
    RemoveUndoesInsert(s.currentInput, s.ciPos, c);
    s.(currentInput := input, ciPos := s.ciPos + 1)
  }

  /**
   * `insert_ci`: insert the typed character; when it went in at the end of the
   * line only that character is written, otherwise the line is redrawn.
   */
  function InsertCi(s: State, c: char): (e: Effect)
    requires s.Valid()
    ensures e.state == CiInsertPos(s, c)
    ensures s.ciPos == |s.currentInput| ==> e.out == [Echo(c)]
    ensures s.ciPos < |s.currentInput| ==> e.out == Redraw(e.state)
  {
    var r := CiInsertPos(s, c);
    Effect(r, if r.ciPos != |r.currentInput| then Redraw(r) else [Echo(c)])
  }

  /**
   * `ci_remove_pos`: removes the character before the cursor and moves the
   * cursor back; reports false and changes nothing when the input is empty
   * or the cursor is at its start.
   */
  function CiRemovePos(s: State): (r: (State, bool))
    requires s.Valid()
    ensures r.0.Valid()
    ensures r.1 <==> 0 < s.ciPos
    ensures !r.1 ==> r.0 == s
    ensures r.1 ==> r.0 == s.(currentInput := r.0.currentInput, ciPos := s.ciPos - 1)
    ensures r.1 ==> InsertAt(r.0.currentInput, s.ciPos - 1, s.currentInput[s.ciPos - 1]) == s.currentInput
  {
    if s.currentInput == [] || s.ciPos == 0 then (s, false)
    else
      InsertUndoesRemove(s.currentInput, s.ciPos - 1);
      (s.(currentInput := RemoveAt(s.currentInput, s.ciPos - 1), ciPos := s.ciPos - 1), true)
  }

  /**
   * `ci_remove_pos_right`: removes the character under the cursor, which
   * stays where it is; reports false and changes nothing at the end of the input.
   */
  function CiRemovePosRight(s: State): (r: (State, bool))
    requires s.Valid()
    ensures r.0.Valid()
    ensures r.1 <==> s.ciPos < |s.currentInput|
    ensures !r.1 ==> r.0 == s
    ensures r.1 ==> r.0 == s.(currentInput := r.0.currentInput)
    ensures r.1 ==> InsertAt(r.0.currentInput, s.ciPos, s.currentInput[s.ciPos]) == s.currentInput
  {
    if s.currentInput == [] || s.ciPos == |s.currentInput| then (s, false)
    else
      InsertUndoesRemove(s.currentInput, s.ciPos);
      (s.(currentInput := RemoveAt(s.currentInput, s.ciPos)), true)
  }

  /** `on_backspace`: redraws only when a character was removed. */
  function OnBackspace(s: State): (e: Effect)
    requires s.Valid()
    ensures e.state == CiRemovePos(s).0
    ensures e.out == if CiRemovePos(s).1 then Redraw(e.state) else []
  {
    var (r, removed) := CiRemovePos(s);
    Effect(r, if removed then Redraw(r) else [])
  }

  /** `on_canc` (the Delete key): redraws only when a character was removed. */
  function OnCanc(s: State): (e: Effect)
    requires s.Valid()
    ensures e.state == CiRemovePosRight(s).0
    ensures e.out == if CiRemovePosRight(s).1 then Redraw(e.state) else []
  {
    var (r, removed) := CiRemovePosRight(s);
    Effect(r, if removed then Redraw(r) else [])
  }

  /** `on_left_arrow`: one column left, never before the start; nothing else changes. */
  function OnLeftArrow(s: State): (e: Effect)
    requires s.Valid()
    ensures e.state.Valid()
    ensures e.state == s.(ciPos := e.state.ciPos)
    ensures e.state.ciPos == if s.ciPos == 0 then 0 else s.ciPos - 1
    ensures e.out == if s.ciPos == 0 then [] else Redraw(e.state)
  {
    if s.ciPos > 0 then
      var r := s.(ciPos := s.ciPos - 1);
      Effect(r, Redraw(r))
    else Effect(s, [])
  }

  /** `on_right_arrow`: one column right, never past the end; nothing else changes. */
  function OnRightArrow(s: State): (e: Effect)
    requires s.Valid()
    ensures e.state.Valid()
    ensures e.state == s.(ciPos := e.state.ciPos)
    ensures e.state.ciPos == if s.ciPos == |s.currentInput| then s.ciPos else s.ciPos + 1
    ensures e.out == if s.ciPos == |s.currentInput| then [] else Redraw(e.state)
  {
    if s.ciPos < |s.currentInput| then
      var r := s.(ciPos := s.ciPos + 1);
      Effect(r, Redraw(r))
    else Effect(s, [])
  }

  // ---------------------------------------------------------------- history

  /** `set_ci`: the input becomes `what` with the cursor at its end. */
  function SetCi(s: State, what: string): (r: State)
    ensures r == s.(currentInput := what, ciPos := |what|)
    ensures s.historyPos <= |s.history| ==> r.Valid()
  {
    s.(currentInput := what, ciPos := |what|)
  }

  /** `on_up_arrow`: recalls the previous entry; at the oldest entry nothing happens. */
  function OnUpArrow(s: State): (e: Effect)
    requires s.Valid()
    ensures e.state.Valid()
    ensures s.historyPos == 0 ==> e == Effect(s, [])
    ensures 0 < s.historyPos ==>
      && e.state.historyPos == s.historyPos - 1
      && e.state == SetCi(s.(historyPos := e.state.historyPos), s.history[e.state.historyPos])
      && e.out == Redraw(e.state)
  {
    if s.historyPos > 0 then
      var pos := s.historyPos - 1;
      var r := SetCi(s.(historyPos := pos), s.history[pos]);
      Effect(r, Redraw(r))
    else Effect(s, [])
  }

  /**
   * `on_down_arrow`: moves to the next entry and recalls it, or recalls an
   * empty line when that reaches the end of the history; at the end nothing happens.
   */
  function OnDownArrow(s: State): (e: Effect)
    requires s.Valid()
    ensures e.state.Valid()
    ensures s.historyPos == |s.history| ==> e == Effect(s, [])
    ensures s.historyPos < |s.history| ==>
      && e.state.historyPos == s.historyPos + 1
      && e.state.currentInput == (if e.state.historyPos < |s.history| then s.history[e.state.historyPos] else [])
      && e.state == SetCi(s.(historyPos := e.state.historyPos), e.state.currentInput)
      && e.out == Redraw(e.state)
  {
    if s.historyPos < |s.history| then
      var pos := s.historyPos + 1;
      var r := SetCi(s.(historyPos := pos), if pos < |s.history| then s.history[pos] else []);
      Effect(r, Redraw(r))
    else Effect(s, [])
  }

  /** `reset_history_pos`: the history position goes to the live line after the last entry. */
  function ResetHistoryPos(s: State): (r: State)
    ensures r == s.(historyPos := |s.history|)
    ensures s.ciPos <= |s.currentInput| ==> r.Valid()
  {
    s.(historyPos := |s.history|)
  }

  /** `history_push`: the entry is added last, and its record appended to the file if there is one. */
  function HistoryPush(s: State, what: string): (r: State)
    ensures r == s.(history := s.history + [what], historyFile := r.historyFile)
    ensures r.historyFile.Some? <==> s.historyFile.Some?
    ensures r.historyFile.Some? ==> r.historyFile.value == s.historyFile.value + Record(what)
    ensures s.Valid() ==> r.Valid()
  {
    s.(history := s.history + [what],
       historyFile := if s.historyFile.Some? then Some(s.historyFile.value + Record(what)) else None)
  }

  /**
   * `on_enter`: returns the input; a non-empty input is pushed to the
   * history; the history position goes to the live line and the input is cleared.
   */
  function OnEnter(s: State): (r: (State, string))
    requires s.Valid()
    ensures r.1 == s.currentInput
    ensures r.0.Valid()
    ensures r.0.history == if s.currentInput == [] then s.history else s.history + [s.currentInput]
    ensures r.0.historyPos == |r.0.history| && r.0.currentInput == [] && r.0.ciPos == 0
    ensures r.0.prompt == s.prompt
    ensures r.0.historyFile == if s.currentInput == [] then s.historyFile else HistoryPush(s, s.currentInput).historyFile
  {
    var pushed := if s.currentInput != [] then HistoryPush(s, s.currentInput) else s;
    var reset := ResetHistoryPos(pushed);
    (reset.(currentInput := [], ciPos := 0), s.currentInput)
  }

  /** `history_load`: with a file, the history becomes the file's lines; then the position is reset. */
  function HistoryLoad(s: State): (r: State)
    requires s.ciPos <= |s.currentInput|
    ensures r.Valid()
    ensures r.history == if s.historyFile.Some? then Lines(s.historyFile.value) else s.history
    ensures r == s.(history := r.history, historyPos := |r.history|)
  {
    var loaded := if s.historyFile.Some? then s.(history := Lines(s.historyFile.value)) else s;
    ResetHistoryPos(loaded)
  }

  /** `Readline::new`: empty input, history loaded from the file, position at the live line. */
  function NewSession(prompt: string, historyFile: Option<string>): (s: State)
    ensures s.Valid() && s.prompt == prompt && s.historyFile == historyFile
    ensures s.currentInput == [] && s.ciPos == 0 && s.historyPos == |s.history|
    ensures s.history == if historyFile.Some? then Lines(historyFile.value) else []
  {
    HistoryLoad(State(prompt, [], 0, [], 0, historyFile))
  }

  // -------------------------------------------------------------- read loop

  /** The handler the read loop calls for a key that edits the line. */
  function Step(s: State, k: Key): (e: Effect)
    requires s.Valid() && k.Edits()
    ensures e.state.Valid()
    ensures e.state.prompt == s.prompt && e.state.history == s.history
    ensures e.state.historyFile == s.historyFile
  {
    match k
    case Up => OnUpArrow(s)
    case Down => OnDownArrow(s)
    case Right => OnRightArrow(s)
    case Left => OnLeftArrow(s)
    case Delete => OnCanc(s)
    case Backspace => OnBackspace(s)
    case Char(c) => InsertCi(s, c)
    case Unrecognized => Effect(s, [])
  }

  /** Which handler `Step` calls for each key. */
  lemma StepDispatch(s: State, k: Key)
    requires s.Valid() && k.Edits()
    ensures k == Up ==> Step(s, k) == OnUpArrow(s)
    ensures k == Down ==> Step(s, k) == OnDownArrow(s)
    ensures k == Right ==> Step(s, k) == OnRightArrow(s)
    ensures k == Left ==> Step(s, k) == OnLeftArrow(s)
    ensures k == Delete ==> Step(s, k) == OnCanc(s)
    ensures k == Backspace ==> Step(s, k) == OnBackspace(s)
    ensures k.Char? ==> Step(s, k) == InsertCi(s, k.c)
    ensures k == Unrecognized ==> Step(s, k) == Effect(s, [])
  {
  }

  /** What one call of `run` produces: the outcome, the new state, the unread bytes and the writes. */
  datatype RunResult = RunResult(outcome: Outcome, state: State, rest: seq<byte>, out: seq<Write>)

  function Prefixed(ws: seq<Write>, r: RunResult): RunResult {
    r.(out := ws + r.out)
  }

  lemma PrefixedTwice(a: seq<Write>, b: seq<Write>, r: RunResult)
    ensures Prefixed(a, Prefixed(b, r)) == Prefixed(a + b, r)
  {
    assert a + (b + r.out) == (a + b) + r.out;
  }

  /**
   * The read loop of `run`: keys are handled until Enter, Ctrl-C or a failed
   * read. The history only grows, and never by an empty entry.
   */
  function Loop(s: State, input: seq<byte>): (r: RunResult)
    requires s.Valid()
    ensures r.state.Valid() && r.state.prompt == s.prompt
    ensures s.history <= r.state.history && r.state.historyFile.Some? == s.historyFile.Some?
    ensures forall i | |s.history| <= i < |r.state.history| :: r.state.history[i] != []
    ensures |r.rest| <= |input| && r.rest == input[|input| - |r.rest|..]
    ensures r.outcome.ReadError? ==> r.rest == []
    ensures r.outcome.Line? ==>
      r.state.currentInput == [] && r.state.ciPos == 0 && r.state.historyPos == |r.state.history|
    decreases |input|
  {
    match Decode(input)
    case EndOfInput => RunResult(ReadError, s, [], [])
    case Decoded(k, rest) =>
      if k == Interrupt then RunResult(Exited, s, rest, [])
      else if k == Enter then
        var (next, line) := OnEnter(s);
        RunResult(Line(line), next, rest, [NewLine])
      else
        var e := Step(s, k);
        Prefixed(e.out, Loop(e.state, rest))
  }

  /** One turn of the read loop for a key that edits the line. */
  lemma LoopStep(s: State, input: seq<byte>)
    requires s.Valid() && Decode(input).Decoded? && Decode(input).key.Edits()
    ensures var e := Step(s, Decode(input).key);
      Loop(s, input) == Prefixed(e.out, Loop(e.state, Decode(input).rest))
  {
  }

  /** The turns of the read loop that end it: a failed read, Ctrl-C and Enter. */
  lemma LoopStops(s: State, input: seq<byte>)
    requires s.Valid()
    ensures Decode(input).EndOfInput? ==> Loop(s, input) == RunResult(ReadError, s, [], [])
    ensures Decode(input).Decoded? && Decode(input).key == Interrupt ==>
      Loop(s, input) == RunResult(Exited, s, Decode(input).rest, [])
    ensures Decode(input).Decoded? && Decode(input).key == Enter ==>
      Loop(s, input) == RunResult(Line(OnEnter(s).1), OnEnter(s).0, Decode(input).rest, [NewLine])
  {
  }

  /** `run`: print the current line, then run the read loop. */
  function Run(s: State, input: seq<byte>): (r: RunResult)
    requires s.Valid()
    ensures r.state.Valid() && r.state.prompt == s.prompt
    ensures s.history <= r.state.history
    ensures CurrentLine(s) <= r.out
  {
    Prefixed(CurrentLine(s), Loop(s, input))
  }
}
