/**
 * The repository's integration tests, replayed on the model: the bytes each
 * test feeds to the reader, and what successive calls of `run` return.
 * Each test has a lemma listing the handler results it relies on, and a
 * lemma that chains them through the read loop.
 */
module Scenarios {
  import opened Options
  import opened Keys
  import opened Text
  import opened Terminal
  import opened HistoryFile
  import opened Engine

  /** The bytes a terminal sends for typed text of one-byte characters. */
  function Typed(text: string): (bytes: seq<byte>)
    requires IsAscii(text)
    ensures |bytes| == |text|
    ensures forall i | 0 <= i < |text| :: bytes[i] == text[i] as int
  {
    seq(|text|, i requires 0 <= i < |text| => text[i] as int)
  }

  /** Text that is typed character by character: visible ASCII, no byte of it a key of its own. */
  predicate Printable(text: string) {
    forall i | 0 <= i < |text| :: 32 <= text[i] as int < 126
  }

  /** Printable text is ASCII and can be stored as a history entry. */
  lemma PrintableText(text: string)
    requires Printable(text)
    ensures IsAscii(text) && Storable(text)
  {
    assert forall i | 0 <= i < |text| :: text[i] != '\n' && text[i] != '\r';
  }

  /** `n` copies of one byte. */
  function Repeated(b: byte, n: nat): (bytes: seq<byte>)
    ensures |bytes| == n && forall i | 0 <= i < n :: bytes[i] == b
  {
    seq(n, _ => b)
  }

  /** Two results of the read loop that agree on everything but the writes. */
  predicate SameEnd(a: RunResult, b: RunResult) {
    a.outcome == b.outcome && a.state == b.state && a.rest == b.rest
  }

  // ------------------------------------------------------------ one key at a time

  /** An escape sequence: the read loop goes on from the state the arrow's handler leaves. */
  lemma Arrow(s: State, b: byte, rest: seq<byte>, t: State)
    requires s.Valid() && 65 <= b <= 68 && Step(s, ArrowKey(b)).state == t
    ensures SameEnd(Loop(s, [27, 1, b] + rest), Loop(t, rest))
  {
    assert [27, 1, b] + rest == [Escape, 1, b] + rest;
    assert ([Escape, 1, b] + rest)[3..] == rest;
    LoopStep(s, [Escape, 1, b] + rest);
  }

  /** A byte that is a key of its own and does not end the read loop. */
  lemma Plain(s: State, b: byte, rest: seq<byte>, t: State)
    requires s.Valid() && b != Escape && b != CtrlC && b != CarriageReturn
    requires Step(s, PlainKey(b)).state == t
    ensures SameEnd(Loop(s, [b] + rest), Loop(t, rest))
  {
    assert ([b] + rest)[1..] == rest;
    LoopStep(s, [b] + rest);
  }

  /** Enter ends the read loop with the input, which goes into the history when non-empty. */
  lemma Submit(s: State, rest: seq<byte>)
    requires s.Valid()
    ensures Loop(s, [13] + rest) == RunResult(Line(s.currentInput), OnEnter(s).0, rest, [NewLine])
  {
    assert ([CarriageReturn] + rest)[1..] == rest;
    LoopStops(s, [CarriageReturn] + rest);
  }

  /** Enter as the last byte of the input. */
  lemma SubmitLast(s: State)
    requires s.Valid()
    ensures Loop(s, [13]) == RunResult(Line(s.currentInput), OnEnter(s).0, [], [NewLine])
  {
    assert [CarriageReturn][1..] == [];
    LoopStops(s, [CarriageReturn]);
  }

  /** Ctrl-C ends the read loop and changes nothing. */
  lemma Interrupt(s: State)
    requires s.Valid()
    ensures Loop(s, [3]) == RunResult(Exited, s, [], [])
  {
    assert [CtrlC][1..] == [];
    LoopStops(s, [CtrlC]);
  }

  // ------------------------------------------------------------ typing and erasing at the end

  /** The state after typing `text` at the end of the line. */
  function Appended(s: State, text: string): State {
    s.(currentInput := s.currentInput + text, ciPos := s.ciPos + |text|)
  }

  lemma AppendedSplit(s: State, text: string)
    requires text != []
    ensures Appended(Appended(s, [text[0]]), text[1..]) == Appended(s, text)
  {
    assert text == [text[0]] + text[1..];
    assert (s.currentInput + [text[0]]) + text[1..] == s.currentInput + text;
  }

  /** A typed character at the end of the line is appended. */
  lemma TypeChar(s: State, c: char)
    requires s.Valid() && s.ciPos == |s.currentInput| && c as int < 128 && !IsControl(c as int)
    ensures Step(s, PlainKey(c as int)).state == Appended(s, [c])
  {
    assert PlainKey(c as int) == Char(c);
    InsertAtEnd(s.currentInput, c);
  }

  /** Typing text with the cursor at the end of the line appends it to the input. */
  lemma {:induction false} TypeAtEnd(s: State, text: string, rest: seq<byte>)
    requires s.Valid() && s.ciPos == |s.currentInput| && Printable(text)
    ensures SameEnd(Loop(s, Typed(text) + rest), Loop(Appended(s, text), rest))
    decreases |text|
  {
    if text == [] {
      assert Typed(text) + rest == rest;
      assert Appended(s, text) == s;
    } else {
      var c := text[0];
      var more := Typed(text[1..]) + rest;
      assert Typed(text) + rest == [c as int] + more;
      TypeChar(s, c);
      var t := Appended(s, [c]);
      Plain(s, c as int, more, t);
      TypeAtEnd(t, text[1..], rest);
      AppendedSplit(s, text);
    }
  }

  /** The state after erasing the last `n` characters of the line. */
  function Truncated(s: State, n: nat): State
    requires n <= |s.currentInput|
  {
    s.(currentInput := s.currentInput[..|s.currentInput| - n], ciPos := |s.currentInput| - n)
  }

  lemma TruncatedSplit(s: State, n: nat)
    requires 0 < n <= |s.currentInput|
    ensures Truncated(Truncated(s, 1), n - 1) == Truncated(s, n)
  {
  }

  /** Backspace at the end of a non-empty line drops its last character. */
  lemma EraseChar(s: State)
    requires s.Valid() && s.ciPos == |s.currentInput| && s.currentInput != []
    ensures Step(s, PlainKey(Del)).state == Truncated(s, 1)
  {
    RemoveLast(s.currentInput);
  }

  /** `n` Backspaces with the cursor at the end of the line drop the last `n` characters. */
  lemma {:induction false} EraseAtEnd(s: State, n: nat, rest: seq<byte>)
    requires s.Valid() && s.ciPos == |s.currentInput| && n <= |s.currentInput|
    ensures SameEnd(Loop(s, Repeated(Del, n) + rest), Loop(Truncated(s, n), rest))
    decreases n
  {
    if n == 0 {
      assert Repeated(Del, n) + rest == rest;
      assert s.currentInput[..|s.currentInput|] == s.currentInput;
    } else {
      var more := Repeated(Del, n - 1) + rest;
      assert Repeated(Del, n) + rest == [Del] + more;
      EraseChar(s);
      var t := Truncated(s, 1);
      Plain(s, Del, more, t);
      EraseAtEnd(t, n - 1, rest);
      TruncatedSplit(s, n);
    }
  }

  // ------------------------------------------------------------ handler results on explicit states

  /** A new session starts on an empty line, at the live position after the file's entries. */
  lemma Opened(p: string, file: Option<string>, h: seq<string>)
    requires h == if file.Some? then Lines(file.value) else []
    ensures NewSession(p, file) == State(p, h, |h|, [], 0, file)
  {
  }

  /** Text typed on an empty line becomes the whole line. */
  lemma AppendedToEmpty(p: string, h: seq<string>, pos: nat, file: Option<string>, text: string)
    ensures Appended(State(p, h, pos, [], 0, file), text) == State(p, h, pos, text, |text|, file)
  {
    assert [] + text == text;
  }

  /** Enter on a non-empty line: it becomes the last entry, and its record the end of the file. */
  lemma Entered(p: string, h: seq<string>, pos: nat, line: string, at: nat, file: Option<string>,
                h2: seq<string>, n: nat, file2: Option<string>)
    requires pos <= |h| && at <= |line| && line != []
    requires h2 == h + [line] && n == |h2|
    requires file2 == if file.Some? then Some(file.value + Record(line)) else None
    ensures OnEnter(State(p, h, pos, line, at, file)).0 == State(p, h2, n, [], 0, file2)
  {
  }

  /** Up recalls the entry before the history position. */
  lemma Recalled(p: string, h: seq<string>, pos: nat, ci: string, at: nat, file: Option<string>, e: string)
    requires 0 < pos <= |h| && at <= |ci| && h[pos - 1] == e
    ensures Step(State(p, h, pos, ci, at, file), ArrowKey(65)).state == State(p, h, pos - 1, e, |e|, file)
  {
  }

  /** Down recalls the entry after the history position, when there is one. */
  lemma Advanced(p: string, h: seq<string>, pos: nat, ci: string, at: nat, file: Option<string>, e: string)
    requires pos + 1 < |h| && at <= |ci| && h[pos + 1] == e
    ensures Step(State(p, h, pos, ci, at, file), ArrowKey(66)).state == State(p, h, pos + 1, e, |e|, file)
  {
  }

  // ------------------------------------------------------------ whole calls of run

  /** A line typed on an empty input and submitted: `run` returns it. */
  lemma TypeAndSubmit(s: State, text: string, rest: seq<byte>, t: State)
    requires s.Valid() && s.currentInput == [] && s.ciPos == 0 && Printable(text)
    requires OnEnter(Appended(s, text)).0 == t
    ensures var r := Run(s, Typed(text) + ([13] + rest));
      r.outcome == Line(text) && r.state == t && r.rest == rest
  {
    TypeAtEnd(s, text, [13] + rest);
    Submit(Appended(s, text), rest);
    assert [] + text == text;
  }

  /** An arrow key, then Enter: `run` returns the line the arrow left. */
  lemma ArrowAndSubmit(s: State, b: byte, rest: seq<byte>, t: State, u: State)
    requires s.Valid() && 65 <= b <= 68 && Step(s, ArrowKey(b)).state == t && OnEnter(t).0 == u
    ensures var r := Run(s, [27, 1, b] + ([13] + rest));
      r.outcome == Line(t.currentInput) && r.state == u && r.rest == rest
  {
    Arrow(s, b, [13] + rest, t);
    Submit(t, rest);
  }

  /** Ctrl-C: `run` reports that the user exited, and nothing changes. */
  lemma InterruptRun(s: State)
    requires s.Valid()
    ensures var r := Run(s, [3]); r.outcome == Exited && r.state == s && r.rest == []
  {
    Interrupt(s);
  }

  // ------------------------------------------------------------ tests/arrows_leftright.rs

  /** A session without history, editing `text` with the cursor at `at`. */
  function Editing(p: string, text: string, at: nat): State {
    State(p, [], 0, text, at, None)
  }

  /** The test's bytes, grouped by key: "ESC 0x01 D" is Left, "ESC 0x01 C" is Right, 126 is Delete, 116 the letter t. */
  const LeftRightInput: seq<byte> :=
    Typed("ls -la Deskrop") + ([27, 1, 68] + ([27, 1, 68] + ([27, 1, 68] + ([27, 1, 68] +
    ([27, 1, 67] + ([126] + ([116] + ([13] + [3]))))))))

  lemma DeskropText()
    ensures Printable("ls -la Deskrop") && |"ls -la Deskrop"| == 14
  {
  }

  /** What the arrows of the test do to the line. */
  lemma LeftRightArrows(p: string)
    ensures NewSession(p, None) == Editing(p, [], 0)
    ensures Appended(Editing(p, [], 0), "ls -la Deskrop") == Editing(p, "ls -la Deskrop", 14)
    ensures Step(Editing(p, "ls -la Deskrop", 14), ArrowKey(68)).state == Editing(p, "ls -la Deskrop", 13)
    ensures Step(Editing(p, "ls -la Deskrop", 13), ArrowKey(68)).state == Editing(p, "ls -la Deskrop", 12)
    ensures Step(Editing(p, "ls -la Deskrop", 12), ArrowKey(68)).state == Editing(p, "ls -la Deskrop", 11)
    ensures Step(Editing(p, "ls -la Deskrop", 11), ArrowKey(68)).state == Editing(p, "ls -la Deskrop", 10)
    ensures Step(Editing(p, "ls -la Deskrop", 10), ArrowKey(67)).state == Editing(p, "ls -la Deskrop", 11)
  {
  }

  /** Delete and the typed letter mend the line, and Enter submits it. */
  lemma LeftRightFix(p: string)
    ensures Step(Editing(p, "ls -la Deskrop", 11), PlainKey(126)).state == Editing(p, "ls -la Deskop", 11)
    ensures Step(Editing(p, "ls -la Deskop", 11), PlainKey(116)).state == Editing(p, "ls -la Desktop", 12)
    ensures OnEnter(Editing(p, "ls -la Desktop", 12)).0 == State(p, ["ls -la Desktop"], 1, [], 0, None)
  {
    assert RemoveAt("ls -la Deskrop", 11) == "ls -la Deskop";
    assert PlainKey(116) == Char('t');
    assert InsertAt("ls -la Deskop", 11, 't') == "ls -la Desktop";
  }

  /**
   * A typo fixed in place: four Lefts, one Right, Delete removes the wrong
   * letter and the right one is typed before the cursor; then Ctrl-C.
   */
  lemma ArrowsLeftRight()
    ensures var first := Run(NewSession("arrows leftright > ", None), LeftRightInput);
      && first.outcome == Line("ls -la Desktop")
      && Run(first.state, first.rest).outcome == Exited
  {
    var p := "arrows leftright > ";
    DeskropText();
    PrintableText("ls -la Deskrop");
    LeftRightArrows(p);
    LeftRightFix(p);
    var r6 := [116] + ([13] + [3]);
    var r5 := [126] + r6;
    var r4 := [27, 1, 67] + r5;
    var r3 := [27, 1, 68] + r4;
    var r2 := [27, 1, 68] + r3;
    var r1 := [27, 1, 68] + r2;
    var r0 := [27, 1, 68] + r1;
    TypeAtEnd(Editing(p, [], 0), "ls -la Deskrop", r0);
    Arrow(Editing(p, "ls -la Deskrop", 14), 68, r1, Editing(p, "ls -la Deskrop", 13));
    Arrow(Editing(p, "ls -la Deskrop", 13), 68, r2, Editing(p, "ls -la Deskrop", 12));
    Arrow(Editing(p, "ls -la Deskrop", 12), 68, r3, Editing(p, "ls -la Deskrop", 11));
    Arrow(Editing(p, "ls -la Deskrop", 11), 68, r4, Editing(p, "ls -la Deskrop", 10));
    Arrow(Editing(p, "ls -la Deskrop", 10), 67, r5, Editing(p, "ls -la Deskrop", 11));
    Plain(Editing(p, "ls -la Deskrop", 11), 126, r6, Editing(p, "ls -la Deskop", 11));
    Plain(Editing(p, "ls -la Deskop", 11), 116, [13] + [3], Editing(p, "ls -la Desktop", 12));
    Submit(Editing(p, "ls -la Desktop", 12), [3]);
    Interrupt(State(p, ["ls -la Desktop"], 1, [], 0, None));
  }

  // ------------------------------------------------------------ tests/arrows_updown.rs

  /** The test's bytes, grouped by key: "ESC 0x01 A" is Up, "ESC 0x01 B" is Down. */
  const UpDownInput: seq<byte> :=
    Typed("test command -r one") + ([13] + (Typed("not the previous command") + ([13] +
    ([27, 1, 65] + ([27, 1, 65] + ([27, 1, 66] + ([13] + [3])))))))

  lemma FirstUpDownText()
    ensures Printable("test command -r one")
  {
  }

  lemma SecondUpDownText()
    ensures Printable("not the previous command")
  {
  }

  /** What each key of the test does, for any two non-empty lines `a` and `b`. */
  lemma UpDownSteps(p: string, a: string, b: string)
    requires a != [] && b != []
    ensures NewSession(p, None) == State(p, [], 0, [], 0, None)
    ensures Appended(State(p, [], 0, [], 0, None), a) == State(p, [], 0, a, |a|, None)
    ensures OnEnter(State(p, [], 0, a, |a|, None)).0 == State(p, [a], 1, [], 0, None)
    ensures Appended(State(p, [a], 1, [], 0, None), b) == State(p, [a], 1, b, |b|, None)
    ensures OnEnter(State(p, [a], 1, b, |b|, None)).0 == State(p, [a, b], 2, [], 0, None)
    ensures Step(State(p, [a, b], 2, [], 0, None), ArrowKey(65)).state == State(p, [a, b], 1, b, |b|, None)
    ensures Step(State(p, [a, b], 1, b, |b|, None), ArrowKey(65)).state == State(p, [a, b], 0, a, |a|, None)
    ensures Step(State(p, [a, b], 0, a, |a|, None), ArrowKey(66)).state == State(p, [a, b], 1, b, |b|, None)
    ensures OnEnter(State(p, [a, b], 1, b, |b|, None)).0 == State(p, [a, b, b], 3, [], 0, None)
  {
    Opened(p, None, []);
    AppendedToEmpty(p, [], 0, None, a);
    Entered(p, [], 0, a, |a|, None, [a], 1, None);
    AppendedToEmpty(p, [a], 1, None, b);
    Entered(p, [a], 1, b, |b|, None, [a, b], 2, None);
    Recalled(p, [a, b], 2, [], 0, None, b);
    Recalled(p, [a, b], 1, b, |b|, None, a);
    Advanced(p, [a, b], 0, a, |a|, None, b);
    Entered(p, [a, b], 1, b, |b|, None, [a, b, b], 3, None);
  }


  /**
   * Two lines are submitted; Up, Up, Down recalls the second again and Enter
   * submits it a second time; then Ctrl-C.
   */
  lemma ArrowsUpDown()
    ensures var r1 := Run(NewSession("arrows updown > ", None), UpDownInput);
      var r2 := Run(r1.state, r1.rest);
      var r3 := Run(r2.state, r2.rest);
      && r1.outcome == Line("test command -r one")
      && r2.outcome == Line("not the previous command")
      && r3.outcome == Line("not the previous command")
      && r3.state.history == ["test command -r one", "not the previous command", "not the previous command"]
      && Run(r3.state, r3.rest).outcome == Exited
  {
    var p := "arrows updown > ";
    var a := "test command -r one";
    var b := "not the previous command";
    FirstUpDownText();
    SecondUpDownText();
    PrintableText(a);
    PrintableText(b);
    UpDownSteps(p, a, b);
    var k3 := [27, 1, 66] + ([13] + [3]);
    var k2 := [27, 1, 65] + k3;
    var keys := [27, 1, 65] + k2;
    var afterB := [13] + keys;
    var afterA := [13] + (Typed(b) + afterB);
    TypeAtEnd(State(p, [], 0, [], 0, None), a, afterA);
    Submit(State(p, [], 0, a, |a|, None), Typed(b) + afterB);
    TypeAtEnd(State(p, [a], 1, [], 0, None), b, afterB);
    Submit(State(p, [a], 1, b, |b|, None), keys);
    Arrow(State(p, [a, b], 2, [], 0, None), 65, k2, State(p, [a, b], 1, b, |b|, None));
    Arrow(State(p, [a, b], 1, b, |b|, None), 65, k3, State(p, [a, b], 0, a, |a|, None));
    Arrow(State(p, [a, b], 0, a, |a|, None), 66, [13] + [3], State(p, [a, b], 1, b, |b|, None));
    Submit(State(p, [a, b], 1, b, |b|, None), [3]);
    Interrupt(State(p, [a, b, b], 3, [], 0, None));
  }

  // ------------------------------------------------------------ tests/backspace.rs

  /** The test's bytes, grouped by key: 127 is Backspace. */
  const BackspaceInput: seq<byte> :=
    Typed("ls -la Deskrop") + (Repeated(Del, 3) + (Typed("top") + (Repeated(Del, 7) +
    (Typed("Downloads") + ([13] + [3])))))

  lemma BackspaceText()
    ensures Printable("top") && Printable("Downloads")
  {
  }

  /** What each run of keys of the test does to the line. */
  lemma BackspaceSteps(p: string)
    ensures NewSession(p, None) == Editing(p, [], 0)
    ensures |"ls -la Desk"| == 11 && |"ls -la Desktop"| == 14 && |"ls -la "| == 7
    ensures Appended(Editing(p, [], 0), "ls -la Deskrop") == Editing(p, "ls -la Deskrop", 14)
    ensures Truncated(Editing(p, "ls -la Deskrop", 14), 3) == Editing(p, "ls -la Desk", 11)
    ensures Appended(Editing(p, "ls -la Desk", 11), "top") == Editing(p, "ls -la Desktop", 14)
    ensures Truncated(Editing(p, "ls -la Desktop", 14), 7) == Editing(p, "ls -la ", 7)
    ensures Appended(Editing(p, "ls -la ", 7), "Downloads") == Editing(p, "ls -la Downloads", 16)
    ensures OnEnter(Editing(p, "ls -la Downloads", 16)).0 == State(p, ["ls -la Downloads"], 1, [], 0, None)
  {
    assert "ls -la Deskrop"[..11] == "ls -la Desk";
    assert "ls -la Desk" + "top" == "ls -la Desktop";
    assert "ls -la Desktop"[..7] == "ls -la ";
    assert "ls -la " + "Downloads" == "ls -la Downloads";
  }

  /** Backspaces drop the last characters and typing goes on from there; then Ctrl-C. */
  lemma BackspaceTest()
    ensures var first := Run(NewSession("arrows > ", None), BackspaceInput);
      && first.outcome == Line("ls -la Downloads")
      && Run(first.state, first.rest).outcome == Exited
  {
    var p := "arrows > ";
    DeskropText();
    BackspaceText();
    PrintableText("ls -la Deskrop");
    PrintableText("top");
    PrintableText("Downloads");
    BackspaceSteps(p);
    var r4 := [13] + [3];
    var r3 := Typed("Downloads") + r4;
    var r2 := Repeated(Del, 7) + r3;
    var r1 := Typed("top") + r2;
    var r0 := Repeated(Del, 3) + r1;
    TypeAtEnd(Editing(p, [], 0), "ls -la Deskrop", r0);
    EraseAtEnd(Editing(p, "ls -la Deskrop", 14), 3, r1);
    TypeAtEnd(Editing(p, "ls -la Desk", 11), "top", r2);
    EraseAtEnd(Editing(p, "ls -la Desktop", 14), 7, r3);
    TypeAtEnd(Editing(p, "ls -la ", 7), "Downloads", r4);
    Submit(Editing(p, "ls -la Downloads", 16), [3]);
    Interrupt(State(p, ["ls -la Downloads"], 1, [], 0, None));
  }

  // ------------------------------------------------------------ tests/simple.rs

  /** The first session's bytes, grouped by key. */
  const SimpleInput: seq<byte> :=
    Typed("test command -r test") + ([13] + (Typed("this is the second command -m 123") + ([13] +
    ([27, 1, 65] + ([13] + [3])))))

  /** The second session's bytes: Up, then Enter. */
  const RecallInput: seq<byte> := [27, 1, 65] + [13]

  lemma FirstSimpleText()
    ensures Printable("test command -r test")
  {
  }

  lemma SecondSimpleText()
    ensures Printable("this is the second command -m 123")
  {
  }

  /**
   * What each key of the test does, for any two storable lines `a` and `b`
   * and a history file holding `before`; `f1` to `f3` are the file's text
   * after each submitted line.
   */
  lemma SimpleSteps(p: string, before: string, a: string, b: string, h: seq<string>, f1: string, f2: string, f3: string)
    requires Terminated(before) && a != [] && b != [] && Storable(a) && Storable(b) && h == Lines(before)
    requires f1 == before + Record(a) && f2 == f1 + Record(b) && f3 == f2 + Record(b)
    ensures NewSession(p, Some(before)) == State(p, h, |h|, [], 0, Some(before))
      && Appended(State(p, h, |h|, [], 0, Some(before)), a) == State(p, h, |h|, a, |a|, Some(before))
      && OnEnter(State(p, h, |h|, a, |a|, Some(before))).0 == State(p, h + [a], |h| + 1, [], 0, Some(f1))
      && Appended(State(p, h + [a], |h| + 1, [], 0, Some(f1)), b) == State(p, h + [a], |h| + 1, b, |b|, Some(f1))
      && OnEnter(State(p, h + [a], |h| + 1, b, |b|, Some(f1))).0 == State(p, h + [a, b], |h| + 2, [], 0, Some(f2))
    ensures Terminated(f2) && Lines(f2) == h + [a, b]
  {
    Opened(p, Some(before), h);
    AppendedToEmpty(p, h, |h|, Some(before), a);
    Entered(p, h, |h|, a, |a|, Some(before), h + [a], |h| + 1, Some(f1));
    AppendedToEmpty(p, h + [a], |h| + 1, Some(f1), b);
    assert h + [a] + [b] == h + [a, b];
    Entered(p, h + [a], |h| + 1, b, |b|, Some(f1), h + [a, b], |h| + 2, Some(f2));
    AppendRecord(before, a);
    AppendRecord(f1, b);
  }


  /** The same for the Up and Enter that follow, and for the new session on the file. */
  lemma SimpleRecallSteps(p: string, a: string, b: string, h: seq<string>, f2: string, f3: string)
    requires Terminated(f2) && Lines(f2) == h + [a, b] && b != [] && Storable(b) && f3 == f2 + Record(b)
    ensures Step(State(p, h + [a, b], |h| + 2, [], 0, Some(f2)), ArrowKey(65)).state
           == State(p, h + [a, b], |h| + 1, b, |b|, Some(f2))
      && OnEnter(State(p, h + [a, b], |h| + 1, b, |b|, Some(f2))).0 == State(p, h + [a, b, b], |h| + 3, [], 0, Some(f3))
      && NewSession(p, Some(f3)) == State(p, h + [a, b, b], |h| + 3, [], 0, Some(f3))
      && Step(State(p, h + [a, b, b], |h| + 3, [], 0, Some(f3)), ArrowKey(65)).state
           == State(p, h + [a, b, b], |h| + 2, b, |b|, Some(f3))
  {
    var h2, h3 := h + [a, b], h + [a, b, b];
    assert h2 + [b] == h3;
    assert h2[|h| + 1] == b && h3[|h| + 2] == b;
    Recalled(p, h2, |h| + 2, [], 0, Some(f2), b);
    Entered(p, h2, |h| + 1, b, |b|, Some(f2), h3, |h| + 3, Some(f3));
    AppendRecord(f2, b);
    Opened(p, Some(f3), h3);
    Recalled(p, h3, |h| + 3, [], 0, Some(f3), b);
  }



  /**
   * The first session of the test, for any two printable lines `a` and `b`:
   * two lines are submitted, Up recalls the second and Enter submits it
   * again, Ctrl-C ends the session. The history file then holds three more
   * records.
   */
  lemma SimpleSession(p: string, before: string, a: string, b: string)
    requires Terminated(before) && a != [] && b != [] && Printable(a) && Printable(b)
    ensures var r1 := Run(NewSession(p, Some(before)), Typed(a) + ([13] + (Typed(b) + ([13] + ([27, 1, 65] + ([13] + [3]))))));
      var r2 := Run(r1.state, r1.rest);
      var r3 := Run(r2.state, r2.rest);
      var r4 := Run(r3.state, r3.rest);
      && r1.outcome == Line(a) && r2.outcome == Line(b) && r3.outcome == Line(b) && r4.outcome == Exited
      && r4.state.history == Lines(before) + [a, b, b]
      && r4.state.historyFile == Some(before + Record(a) + Record(b) + Record(b))
  {
    var f1 := before + Record(a);
    var f2 := f1 + Record(b);
    var f3 := f2 + Record(b);
    var h := Lines(before);
    PrintableText(a);
    PrintableText(b);
    SimpleSteps(p, before, a, b, h, f1, f2, f3);
    SimpleRecallSteps(p, a, b, h, f2, f3);
    var keys := [27, 1, 65] + ([13] + [3]);
    var q1 := State(p, h + [a], |h| + 1, [], 0, Some(f1));
    var q2 := State(p, h + [a, b], |h| + 2, [], 0, Some(f2));
    var q3 := State(p, h + [a, b, b], |h| + 3, [], 0, Some(f3));
    TypeAndSubmit(State(p, h, |h|, [], 0, Some(before)), a, Typed(b) + ([13] + keys), q1);
    TypeAndSubmit(q1, b, keys, q2);
    ArrowAndSubmit(q2, 65, [3], State(p, h + [a, b], |h| + 1, b, |b|, Some(f2)), q3);
    InterruptRun(q3);
  }

  /** A new session on the file the first one left recalls its last line with one Up. */
  lemma SimpleRecall(p: string, before: string, a: string, b: string)
    requires Terminated(before) && a != [] && b != [] && Printable(a) && Printable(b)
    ensures Run(NewSession(p, Some(before + Record(a) + Record(b) + Record(b))), RecallInput).outcome == Line(b)
  {
    var f1 := before + Record(a);
    var f2 := f1 + Record(b);
    var f3 := f2 + Record(b);
    var h := Lines(before);
    PrintableText(a);
    PrintableText(b);
    SimpleSteps(p, before, a, b, h, f1, f2, f3);
    SimpleRecallSteps(p, a, b, h, f2, f3);
    Arrow(State(p, h + [a, b, b], |h| + 3, [], 0, Some(f3)), 65, [13], State(p, h + [a, b, b], |h| + 2, b, |b|, Some(f3)));
    SubmitLast(State(p, h + [a, b, b], |h| + 2, b, |b|, Some(f3)));
  }

  /**
   * The test itself: a session, then a new session on the same history file
   * that recalls the second line again with one Up — the history survived
   * through the file. The file may hold earlier entries, as long as it ends
   * with a line ending.
   */
  lemma SimpleTest(before: string)
    requires Terminated(before)
    ensures var p := "simple > ";
      var r1 := Run(NewSession(p, Some(before)), SimpleInput);
      var r2 := Run(r1.state, r1.rest);
      var r3 := Run(r2.state, r2.rest);
      var r4 := Run(r3.state, r3.rest);
      && r1.outcome == Line("test command -r test")
      && r2.outcome == Line("this is the second command -m 123")
      && r3.outcome == Line("this is the second command -m 123")
      && r4.outcome == Exited
      && Run(NewSession(p, r4.state.historyFile), RecallInput).outcome == Line("this is the second command -m 123")
  {
    var p := "simple > ";
    var a := "test command -r test";
    var b := "this is the second command -m 123";
    FirstSimpleText();
    SecondSimpleText();
    SimpleSession(p, before, a, b);
    SimpleRecall(p, before, a, b);
  }
}
