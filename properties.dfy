/**
 * What the engine promises across handlers and sessions: a handler redraws
 * exactly when it changed something, edits undo each other, cursor and
 * history position stop at their bounds, the terminal shows the prompt and
 * the input with the cursor in its column, and the history file reloads
 * into the history a session ends with.
 */
module Properties {
  import opened Options
  import opened Keys
  import opened Text
  import opened Terminal
  import opened HistoryFile
  import opened Engine

  // ------------------------------------------------------------ edits

  /** Every editing key writes to the terminal exactly when it changes the state. */
  lemma RedrawsExactlyWhenChanged(s: State, k: Key)
    requires s.Valid() && k.Edits()
    ensures Step(s, k).out == [] <==> Step(s, k).state == s
  {
    if k.Char? {
      assert |Step(s, k).state.currentInput| == |s.currentInput| + 1;
    }
  }

  /** Backspace right after typing a character restores the state before it. */
  lemma BackspaceUndoesInsert(s: State, c: char)
    requires s.Valid()
    ensures OnBackspace(InsertCi(s, c).state).state == s
  {
    var t := InsertCi(s, c).state;
    var u := OnBackspace(t).state;
    assert u.currentInput == RemoveAt(t.currentInput, s.ciPos);
  }

  /** Left then Delete right after typing a character restores the input, with the cursor where it was. */
  lemma DeleteUndoesInsert(s: State, c: char)
    requires s.Valid()
    ensures OnCanc(OnLeftArrow(InsertCi(s, c).state).state).state == s
  {
    var t := OnLeftArrow(InsertCi(s, c).state).state;
    assert t.ciPos == s.ciPos;
    assert OnCanc(t).state.currentInput == RemoveAt(t.currentInput, s.ciPos);
  }

  // ------------------------------------------------------------ repeated keys

  /** The same key pressed `n` times, and everything written meanwhile. */
  function Presses(s: State, k: Key, n: nat): (e: Effect)
    requires s.Valid() && k.Edits()
    ensures e.state.Valid()
    ensures e.state.prompt == s.prompt && e.state.history == s.history
    decreases n
  {
    if n == 0 then Effect(s, [])
    else
      var first := Step(s, k);
      var more := Presses(first.state, k, n - 1);
      Effect(more.state, first.out + more.out)
  }

  /** Pressing a key that does nothing, any number of times, does nothing. */
  lemma {:induction false} PressesAtRest(s: State, k: Key, n: nat)
    requires s.Valid() && k.Edits() && Step(s, k) == Effect(s, [])
    ensures Presses(s, k, n) == Effect(s, [])
    decreases n
  {
    if n > 0 {
      PressesAtRest(s, k, n - 1);
    }
  }

  /** `n` Left presses move the cursor `n` columns left, down to the start; nothing else changes. */
  lemma {:induction false} LeftPresses(s: State, n: nat)
    requires s.Valid()
    ensures Presses(s, Left, n).state == s.(ciPos := if n <= s.ciPos then s.ciPos - n else 0)
    decreases n
  {
    if n > 0 {
      LeftPresses(Step(s, Left).state, n - 1);
    }
  }

  /** Left presses beyond the start of the line change nothing and write nothing. */
  lemma {:induction false} LeftStopsAtStart(s: State, n: nat)
    requires s.Valid() && s.ciPos <= n
    ensures Presses(s, Left, n) == Presses(s, Left, s.ciPos)
    decreases n
  {
    if s.ciPos == 0 {
      PressesAtRest(s, Left, n);
    } else {
      LeftStopsAtStart(Step(s, Left).state, n - 1);
    }
  }

  /** `n` Right presses move the cursor `n` columns right, up to the end; nothing else changes. */
  lemma {:induction false} RightPresses(s: State, n: nat)
    requires s.Valid()
    ensures Presses(s, Right, n).state ==
      s.(ciPos := if s.ciPos + n <= |s.currentInput| then s.ciPos + n else |s.currentInput|)
    decreases n
  {
    if n > 0 {
      RightPresses(Step(s, Right).state, n - 1);
    }
  }

  /** Right presses beyond the end of the line change nothing and write nothing. */
  lemma {:induction false} RightStopsAtEnd(s: State, n: nat)
    requires s.Valid() && |s.currentInput| - s.ciPos <= n
    ensures Presses(s, Right, n) == Presses(s, Right, |s.currentInput| - s.ciPos)
    decreases n
  {
    if s.ciPos == |s.currentInput| {
      PressesAtRest(s, Right, n);
    } else {
      RightStopsAtEnd(Step(s, Right).state, n - 1);
    }
  }

  /** Backspace with the cursor at the start changes nothing and writes nothing, however often. */
  lemma BackspaceAtStart(s: State, n: nat)
    requires s.Valid() && s.ciPos == 0
    ensures Presses(s, Backspace, n) == Effect(s, [])
  {
    PressesAtRest(s, Backspace, n);
  }

  /** Delete with the cursor at the end changes nothing and writes nothing, however often. */
  lemma DeleteAtEnd(s: State, n: nat)
    requires s.Valid() && s.ciPos == |s.currentInput|
    ensures Presses(s, Delete, n) == Effect(s, [])
  {
    PressesAtRest(s, Delete, n);
  }

  /** `n` Up presses, at most the history position, recall the entry `n` places back. */
  lemma {:induction false} UpPresses(s: State, n: nat)
    requires s.Valid() && 0 < n <= s.historyPos
    ensures Presses(s, Up, n).state ==
      SetCi(s.(historyPos := s.historyPos - n), s.history[s.historyPos - n])
    decreases n
  {
    if n > 1 {
      UpPresses(Step(s, Up).state, n - 1);
    }
  }

  /** Up presses beyond the oldest entry change nothing and write nothing: the oldest entry stays shown. */
  lemma {:induction false} UpStopsAtOldest(s: State, n: nat)
    requires s.Valid() && s.historyPos <= n
    ensures Presses(s, Up, n) == Presses(s, Up, s.historyPos)
    ensures 0 < s.historyPos ==> Presses(s, Up, n).state.currentInput == s.history[0]
    decreases n
  {
    if s.historyPos == 0 {
      PressesAtRest(s, Up, n);
    } else {
      UpStopsAtOldest(Step(s, Up).state, n - 1);
      UpPresses(s, s.historyPos);
    }
  }

  /** `n` Down presses, at most the entries after the position, recall the entry `n` places on, or an empty line at the end. */
  lemma {:induction false} DownPresses(s: State, n: nat)
    requires s.Valid() && 0 < n <= |s.history| - s.historyPos
    ensures var pos := s.historyPos + n;
      Presses(s, Down, n).state ==
        SetCi(s.(historyPos := pos), if pos < |s.history| then s.history[pos] else [])
    decreases n
  {
    if n > 1 {
      DownPresses(Step(s, Down).state, n - 1);
    }
  }

  /** Down presses past the end of the history change nothing and write nothing: an empty line stays shown. */
  lemma {:induction false} DownStopsAtLive(s: State, n: nat)
    requires s.Valid() && |s.history| - s.historyPos <= n
    ensures Presses(s, Down, n) == Presses(s, Down, |s.history| - s.historyPos)
    ensures s.historyPos < |s.history| ==>
      Presses(s, Down, n).state.currentInput == [] && Presses(s, Down, n).state.historyPos == |s.history|
    decreases n
  {
    if s.historyPos == |s.history| {
      PressesAtRest(s, Down, n);
    } else {
      DownStopsAtLive(Step(s, Down).state, n - 1);
      DownPresses(s, |s.history| - s.historyPos);
    }
  }

  /**
   * Down right after Up returns to the history position, but shows the entry
   * there or an empty line: the line being typed before Up is not kept.
   */
  lemma DownAfterUp(s: State)
    requires s.Valid() && 0 < s.historyPos
    ensures var t := OnDownArrow(OnUpArrow(s).state).state;
      && t.historyPos == s.historyPos
      && t.currentInput == (if s.historyPos < |s.history| then s.history[s.historyPos] else [])
      && t.ciPos == |t.currentInput|
  {
  }

  // ------------------------------------------------------------ terminal

  /**
   * The terminal line starts with the prompt and the input, and the cursor
   * sits just after the first `ciPos` characters of the input.
   */
  predicate Shows(t: Screen, s: State) {
    s.prompt + s.currentInput <= t.line && t.at == |s.prompt| + s.ciPos
  }

  /** The terminal line is exactly the prompt and the input, with the cursor after the first `ciPos` characters of the input. */
  predicate ShowsExactly(t: Screen, s: State) {
    t.line == s.prompt + s.currentInput && t.at == |s.prompt| + s.ciPos
  }

  /**
   * `print_current_line` writes the prompt and the input over the line from
   * its first column, keeping what showed past their end, and puts the cursor
   * in the column it computes.
   */
  lemma CurrentLineShows(t: Screen, s: State)
    ensures Replay(t, CurrentLine(s)) == Screen(Overwrite(t.line, s.prompt + s.currentInput), Column(s) - 1)
  {
    var text := s.prompt + s.currentInput;
    assert Replay(t, CurrentLine(s)) == Replay(Screen(Overwrite(t.line, text), |text|), [MoveColumn(Column(s))]);
  }

  /**
   * A full redraw leaves exactly the prompt and the input on the line,
   * whatever was there, with the cursor in the column `print_current_line`
   * computes.
   */
  lemma RedrawReplaces(t: Screen, s: State)
    ensures Replay(t, Redraw(s)) == Screen(s.prompt + s.currentInput, Column(s) - 1)
  {
    assert Replay(t, Redraw(s)) == Replay(Blank, CurrentLine(s));
    CurrentLineShows(Blank, s);
  }

  /**
   * With an ASCII prompt, that column is the cursor's place after the first
   * `ciPos` characters of the input.
   */
  lemma RedrawShows(t: Screen, s: State)
    requires IsAscii(s.prompt)
    ensures ShowsExactly(Replay(t, Redraw(s)), s)
  {
    RedrawReplaces(t, s);
  }

  /**
   * The prompt counts in bytes: one two-byte character in it puts the cursor
   * one column past the end of an empty input, so what the terminal shows no
   * longer has the cursor after the input.
   */
  lemma WidePromptShiftsCursor()
    ensures var s := State("\U{E9}> ", [], 0, [], 0, None);
      Column(s) == 5 && !ShowsExactly(Replay(Blank, Redraw(s)), s)
  {
    var s := State("\U{E9}> ", [], 0, [], 0, None);
    RedrawReplaces(Blank, s);
    assert Utf8Len(s.prompt) == 4 by {
      assert s.prompt[1..] == "> ";
      assert Utf8Len("> ") == 2;
    }
  }

  /** Echoing one character at the end of the line extends what the line shows by that character. */
  lemma EchoShows(t: Screen, s: State, c: char)
    requires s.Valid() && s.ciPos == |s.currentInput| && Shows(t, s)
    ensures Shows(Replay(t, [Echo(c)]), InsertCi(s, c).state)
    ensures ShowsExactly(t, s) ==> ShowsExactly(Replay(t, [Echo(c)]), InsertCi(s, c).state)
  {
    var text := s.prompt + s.currentInput;
    var u := Replay(t, [Echo(c)]);
    assert [Echo(c)][1..] == [];
    assert u == Replay(Perform(t, Echo(c)), []);
    assert u == Screen(Put(t.line, t.at, c), t.at + 1);
    var r := InsertCi(s, c).state;
    assert r.currentInput == s.currentInput + [c];
    assert r.prompt + r.currentInput == text + [c];
    assert t.at == |text|;
    assert forall j | 0 <= j < |text| :: u.line[j] == text[j];
    assert u.line[..|text| + 1] == text + [c];
  }

  /** With an ASCII prompt, every editing key keeps the terminal showing the prompt and the input, with the cursor in its place. */
  lemma StepShows(t: Screen, s: State, k: Key)
    requires s.Valid() && IsAscii(s.prompt) && k.Edits() && Shows(t, s)
    ensures Shows(Replay(t, Step(s, k).out), Step(s, k).state)
    ensures ShowsExactly(t, s) ==> ShowsExactly(Replay(t, Step(s, k).out), Step(s, k).state)
  {
    var e := Step(s, k);
    if e.out == [] {
      RedrawsExactlyWhenChanged(s, k);
    } else if k.Char? && s.ciPos == |s.currentInput| {
      EchoShows(t, s, k.c);
    } else {
      assert e.out == Redraw(e.state);
      RedrawShows(t, e.state);
    }
  }

  /**
   * With an ASCII prompt, over a whole read loop the terminal keeps showing
   * the prompt and the input; after Enter it is on a fresh, empty line.
   */
  lemma {:induction false} LoopShows(t: Screen, s: State, input: seq<byte>)
    requires s.Valid() && IsAscii(s.prompt) && Shows(t, s)
    ensures var r := Loop(s, input);
      && (r.outcome.Line? ==> Replay(t, r.out) == Blank)
      && (!r.outcome.Line? ==> Shows(Replay(t, r.out), r.state))
      && (!r.outcome.Line? && ShowsExactly(t, s) ==> ShowsExactly(Replay(t, r.out), r.state))
    decreases |input|
  {
    var d := Decode(input);
    if d.Decoded? && d.key.Edits() {
      var e := Step(s, d.key);
      StepShows(t, s, d.key);
      LoopShows(Replay(t, e.out), e.state, d.rest);
      ReplayConcat(t, e.out, Loop(e.state, d.rest).out);
    }
  }

  /**
   * One call of `run` with an ASCII prompt: whatever the terminal showed,
   * afterwards it shows the prompt and the input with the cursor in its
   * place, or a fresh line after Enter. Starting on a line no longer than the
   * prompt and the input (a fresh line, say), the line shows exactly those.
   */
  lemma RunShows(t: Screen, s: State, input: seq<byte>)
    requires s.Valid() && IsAscii(s.prompt)
    ensures var r := Run(s, input);
      && (r.outcome.Line? ==> Replay(t, r.out) == Blank)
      && (!r.outcome.Line? ==> Shows(Replay(t, r.out), r.state))
      && (!r.outcome.Line? && |t.line| <= |s.prompt + s.currentInput| ==>
            ShowsExactly(Replay(t, r.out), r.state))
  {
    var u := Replay(t, CurrentLine(s));
    CurrentLineShows(t, s);
    assert Shows(u, s);
    LoopShows(u, s, input);
    ReplayConcat(t, CurrentLine(s), Loop(s, input).out);
  }

  // ------------------------------------------------------------ persistence

  /** The history file, if any, is terminated and reads back as the history. */
  predicate Synced(s: State) {
    s.historyFile.Some? ==> Terminated(s.historyFile.value) && Lines(s.historyFile.value) == s.history
  }

  /** No entry and no input holds a line-ending character. */
  predicate Clean(s: State) {
    && Storable(s.currentInput)
    && forall i | 0 <= i < |s.history| :: Storable(s.history[i])
  }

  /** A session opened on a terminated file without '\r' starts synced and clean. */
  lemma NewSessionSynced(prompt: string, text: string)
    requires Terminated(text) && '\r' !in text
    ensures Synced(NewSession(prompt, Some(text))) && Clean(NewSession(prompt, Some(text)))
  {
  }

  /** Submitting a clean line keeps the file reading back as the history. */
  lemma EnterKeepsSynced(s: State)
    requires s.Valid() && Synced(s) && Clean(s)
    ensures Synced(OnEnter(s).0) && Clean(OnEnter(s).0)
  {
    if s.currentInput != [] && s.historyFile.Some? {
      AppendRecord(s.historyFile.value, s.currentInput);
    }
  }

  /** Typing a character that is not a line ending keeps the input free of line endings. */
  lemma InsertKeepsClean(s: State, c: char)
    requires s.Valid() && Clean(s) && c != '\n' && c != '\r'
    ensures Clean(InsertCi(s, c).state)
  {
    var r := InsertCi(s, c).state;
    forall j | 0 <= j < |r.currentInput|
      ensures r.currentInput[j] == c || r.currentInput[j] in s.currentInput
    {
      if j < s.ciPos { assert r.currentInput[j] == s.currentInput[j]; }
      else if j > s.ciPos { assert r.currentInput[j] == s.currentInput[j - 1]; }
    }
  }

  /** Removing a character keeps the input free of line endings. */
  lemma RemoveKeepsClean(s: State, r: State, p: nat)
    requires s.Valid() && Clean(s) && p < |s.currentInput|
    requires r == s.(currentInput := RemoveAt(s.currentInput, p), ciPos := r.ciPos)
    ensures Clean(r)
  {
    forall j | 0 <= j < |r.currentInput| ensures r.currentInput[j] in s.currentInput {
      if j < p { assert r.currentInput[j] == s.currentInput[j]; }
      else { assert r.currentInput[j] == s.currentInput[j + 1]; }
    }
  }

  /** Editing keys other than a typed line feed keep the input and the history free of line endings. */
  lemma StepKeepsClean(s: State, k: Key)
    requires s.Valid() && k.Edits() && Clean(s)
    requires k.Char? ==> k.c != '\n' && k.c != '\r'
    ensures Clean(Step(s, k).state)
  {
    if k.Char? {
      InsertKeepsClean(s, k.c);
    } else if k == Backspace && 0 < s.ciPos {
      RemoveKeepsClean(s, OnBackspace(s).state, s.ciPos - 1);
    } else if k == Delete && s.ciPos < |s.currentInput| {
      RemoveKeepsClean(s, OnCanc(s).state, s.ciPos);
    }
  }

  /** No byte of the input is a line feed (Ctrl-J), which would be typed into the line. */
  predicate NoLineFeed(input: seq<byte>) {
    forall i | 0 <= i < |input| :: input[i] != 10
  }

  /** A read loop without typed line feeds keeps the file reading back as the history. */
  lemma {:induction false} LoopKeepsSynced(s: State, input: seq<byte>)
    requires s.Valid() && Synced(s) && Clean(s) && NoLineFeed(input)
    ensures Synced(Loop(s, input).state) && Clean(Loop(s, input).state)
    decreases |input|
  {
    var d := Decode(input);
    if d.Decoded? {
      if d.key == Enter {
        EnterKeepsSynced(s);
      } else if d.key.Edits() {
        if d.key.Char? {
          assert d.key.c as int == input[0];
        }
        StepKeepsClean(s, d.key);
        assert d.rest == input[|input| - |d.rest|..];
        LoopKeepsSynced(Step(s, d.key).state, d.rest);
      }
    }
  }

  /**
   * Durability: after any call of `run` without typed line feeds, a new
   * session opened on the same history file loads exactly the history this
   * session ended with.
   */
  lemma ReloadReproducesHistory(s: State, input: seq<byte>, prompt: string)
    requires s.Valid() && Synced(s) && Clean(s) && NoLineFeed(input) && s.historyFile.Some?
    ensures var r := Run(s, input).state;
      NewSession(prompt, r.historyFile).history == r.history
  {
    LoopKeepsSynced(s, input);
  }
}
