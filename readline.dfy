/**
 * The `Readline` struct of src/lib.rs as a class whose handlers update its
 * fields in place. The reader is the sequence of bytes not yet read; standard
 * error is the list of writes made so far. Every handler is proved to do
 * what the matching function of module Engine says.
 */
module ReadlineClass {
  import opened Options
  import opened Keys
  import opened Text
  import opened Terminal
  import opened HistoryFile
  import Engine

  class Readline {
    var prompt: string
    var history: seq<string>
    var historyPos: nat
    var currentInput: string
    var ciPos: nat
    var reader: seq<byte>
    var historyFile: Option<string>
    var stderr: seq<Write>

    /** The fields as an Engine state. */
    ghost function Model(): Engine.State
      reads this
    {
      Engine.State(prompt, history, historyPos, currentInput, ciPos, historyFile)
    }

    ghost predicate Valid()
      reads this
    {
      Model().Valid()
    }

    /**
     * `Readline::new`: keeps the reader and the prompt, and loads the history
     * from the file. Its text and the bytes to be read are ASCII, so that
     * string lengths count characters.
     */
    constructor (reader: seq<byte>, prompt: string, historyFile: Option<string>)
      requires forall i | 0 <= i < |reader| :: reader[i] < 128
      requires historyFile.Some? ==> IsAscii(historyFile.value)
      ensures Valid()
      ensures Model() == Engine.NewSession(prompt, historyFile)
      ensures this.reader == reader && stderr == []
    {
      this.prompt := prompt;
      history := [];
      historyPos := 0;
      currentInput := [];
      ciPos := 0;
      this.reader := reader;
      this.historyFile := historyFile;
      stderr := [];
      new;
      HistoryLoad();
    }

    method GetPrompt() returns (p: string)
      ensures p == prompt
    {
      p := prompt;
    }

    method SetPrompt(newPrompt: string)
      modifies this`prompt
      ensures prompt == newPrompt
    {
      prompt := newPrompt;
    }

    /** `get_keycode`: the next byte, or None when the reader has run out. */
    method GetKeycode() returns (k: Option<byte>)
      modifies this`reader
      ensures old(reader) == [] ==> k == None && reader == []
      ensures old(reader) != [] ==> k == Some(old(reader)[0]) && reader == old(reader)[1..]
    {
      if reader == [] {
        k := None;
      } else {
        k := Some(reader[0]);
        reader := reader[1..];
      }
    }

    method WriteFlush(what: Write)
      modifies this`stderr
      ensures stderr == old(stderr) + [what]
    {
      stderr := stderr + [what];
    }

    method ClearCurrentLine()
      modifies this`stderr
      ensures stderr == old(stderr) + [ClearLine]
    {
      WriteFlush(ClearLine);
    }

    /** `print_current_line`: prompt and input from column 1, then the cursor column. */
    method PrintCurrentLine()
      modifies this`stderr
      ensures stderr == old(stderr) + Engine.CurrentLine(Model())
    {
      WriteFlush(PrintLine(prompt + currentInput));
      WriteFlush(MoveColumn(Utf8Len(prompt) + ciPos + 1));
    }

    method CiInsertPos(what: char)
      requires Valid()
      modifies this`currentInput, this`ciPos
      ensures Model() == Engine.CiInsertPos(old(Model()), what)
    {
      currentInput := currentInput[..ciPos] + [what] + currentInput[ciPos..];
      ciPos := ciPos + 1;
    }

    method InsertCi(what: char)
      requires Valid()
      modifies this`currentInput, this`ciPos, this`stderr
      ensures Model() == Engine.InsertCi(old(Model()), what).state
      ensures stderr == old(stderr) + Engine.InsertCi(old(Model()), what).out
    {
      CiInsertPos(what);
      if ciPos != |currentInput| {
        ClearCurrentLine();
        PrintCurrentLine();
      } else {
        WriteFlush(Echo(what));
      }
    }

    method OnLeftArrow()
      requires Valid()
      modifies this`ciPos, this`stderr
      ensures Model() == Engine.OnLeftArrow(old(Model())).state
      ensures stderr == old(stderr) + Engine.OnLeftArrow(old(Model())).out
    {
      if ciPos > 0 {
        ciPos := ciPos - 1;
        ClearCurrentLine();
        PrintCurrentLine();
      }
    }

    method OnRightArrow()
      requires Valid()
      modifies this`ciPos, this`stderr
      ensures Model() == Engine.OnRightArrow(old(Model())).state
      ensures stderr == old(stderr) + Engine.OnRightArrow(old(Model())).out
    {
      if ciPos < |currentInput| {
        ciPos := ciPos + 1;
        ClearCurrentLine();
        PrintCurrentLine();
      }
    }

    method OnUpArrow()
      requires Valid()
      modifies this`historyPos, this`currentInput, this`ciPos, this`stderr
      ensures Model() == Engine.OnUpArrow(old(Model())).state
      ensures stderr == old(stderr) + Engine.OnUpArrow(old(Model())).out
    {
      if historyPos > 0 {
        historyPos := historyPos - 1;
        SetCi(history[historyPos]);
        ClearCurrentLine();
        PrintCurrentLine();
      }
    }

    method OnDownArrow()
      requires Valid()
      modifies this`historyPos, this`currentInput, this`ciPos, this`stderr
      ensures Model() == Engine.OnDownArrow(old(Model())).state
      ensures stderr == old(stderr) + Engine.OnDownArrow(old(Model())).out
    {
      if historyPos < |history| {
        historyPos := historyPos + 1;
        SetCi(if historyPos < |history| then history[historyPos] else []);
        ClearCurrentLine();
        PrintCurrentLine();
      }
    }

    method OnEnter() returns (r: string)
      requires Valid()
      modifies this`history, this`historyPos, this`currentInput, this`ciPos, this`historyFile, this`stderr
      ensures (Model(), r) == Engine.OnEnter(old(Model()))
      ensures stderr == old(stderr) + [NewLine]
    {
      WriteFlush(NewLine);
      if currentInput != [] {
        HistoryPush(currentInput);
      }
      ResetHistoryPos();
      r := currentInput;
      currentInput := [];
      ciPos := 0;
    }

    method OnBackspace()
      requires Valid()
      modifies this`currentInput, this`ciPos, this`stderr
      ensures Model() == Engine.OnBackspace(old(Model())).state
      ensures stderr == old(stderr) + Engine.OnBackspace(old(Model())).out
    {
      var removed := CiRemovePos();
      if removed {
        ClearCurrentLine();
        PrintCurrentLine();
      }
    }

    method OnCanc()
      requires Valid()
      modifies this`currentInput, this`stderr
      ensures Model() == Engine.OnCanc(old(Model())).state
      ensures stderr == old(stderr) + Engine.OnCanc(old(Model())).out
    {
      var removed := CiRemovePosRight();
      if removed {
        ClearCurrentLine();
        PrintCurrentLine();
      }
    }

    /** `ci_remove_pos`: reports whether the line needs a redraw. */
    method CiRemovePos() returns (removed: bool)
      requires Valid()
      modifies this`currentInput, this`ciPos
      ensures (Model(), removed) == Engine.CiRemovePos(old(Model()))
    {
      if currentInput == [] || ciPos == 0 {
        return false;
      }
      ciPos := ciPos - 1;
      currentInput := currentInput[..ciPos] + currentInput[ciPos + 1..];
      return true;
    }

    /** `ci_remove_pos_right`: reports whether the line needs a redraw. */
    method CiRemovePosRight() returns (removed: bool)
      requires Valid()
      modifies this`currentInput
      ensures (Model(), removed) == Engine.CiRemovePosRight(old(Model()))
    {
      if currentInput == [] || ciPos == |currentInput| {
        return false;
      }
      currentInput := currentInput[..ciPos] + currentInput[ciPos + 1..];
      removed := true;
    }

    method SetCi(what: string)
      modifies this`currentInput, this`ciPos
      ensures Model() == Engine.SetCi(old(Model()), what)
    {
      ciPos := |what|;
      currentInput := what;
    }

    method ResetHistoryPos()
      modifies this`historyPos
      ensures Model() == Engine.ResetHistoryPos(old(Model()))
    {
      historyPos := |history|;
    }

    method HistoryLoad()
      requires ciPos <= |currentInput|
      modifies this`history, this`historyPos
      ensures Model() == Engine.HistoryLoad(old(Model()))
    {
      if historyFile.Some? {
        history := Lines(historyFile.value);
      }
      ResetHistoryPos();
    }

    /** `history_push`: the file, if any, gets the entry and a line ending. */
    method HistoryPush(what: string)
      modifies this`history, this`historyFile
      ensures Model() == Engine.HistoryPush(old(Model()), what)
    {
      history := history + [what];
      if historyFile.Some? {
        historyFile := Some(historyFile.value + Record(what));
      }
    }

    /**
     * The arm of `run` for byte 27: two more bytes are read, and the second
     * of them selects the arrow. Reports false when the reader runs out.
     */
    method OnEscapeSequence() returns (complete: bool)
      requires Valid()
      modifies this`reader, this`historyPos, this`currentInput, this`ciPos, this`stderr
      ensures complete <==> 2 <= |old(reader)|
      ensures !complete ==> reader == [] && Model() == old(Model()) && stderr == old(stderr)
      ensures complete ==>
        var e := Engine.Step(old(Model()), ArrowKey(old(reader)[1]));
        && reader == old(reader)[2..]
        && Model() == e.state && stderr == old(stderr) + e.out
    {
      var skipped := GetKeycode();
      if skipped.None? {
        return false;
      }
      var code := GetKeycode();
      if code.None? {
        return false;
      }
      Engine.StepDispatch(old(Model()), ArrowKey(code.value));
      match code.value {
        case 65 => OnUpArrow();
        case 66 => OnDownArrow();
        case 67 => OnRightArrow();
        case 68 => OnLeftArrow();
        case _ =>
      }
      return true;
    }

    /**
     * The `match` of `run` on a byte `k` just read: Ctrl-C and Enter end the
     * call, byte 27 reads the rest of an escape sequence, and every other
     * byte goes to its handler. The turn agrees with one turn of Engine.Loop
     * on `k` followed by the unread bytes.
     */
    method Dispatch(k: byte) returns (done: Option<Engine.Outcome>, ghost written: seq<Write>)
      requires Valid()
      modifies this`reader, this`history, this`historyPos, this`currentInput, this`ciPos, this`historyFile, this`stderr
      ensures Valid() && stderr == old(stderr) + written && |reader| <= |old(reader)|
      ensures done.Some? ==>
        Engine.Loop(old(Model()), [k] + old(reader)) == Engine.RunResult(done.value, Model(), reader, written)
      ensures done.None? ==>
        Engine.Loop(old(Model()), [k] + old(reader)) == Engine.Prefixed(written, Engine.Loop(Model(), reader))
    {
      ghost var before, input := Model(), [k] + reader;
      Engine.LoopStops(before, input);
      ghost var key: Key;
      match k {
        case 3 =>
          return Some(Engine.Exited), [];
        case 27 =>
          var complete := OnEscapeSequence();
          if !complete {
            return Some(Engine.ReadError), [];
          }
          key := ArrowKey(input[2]);
        case 126 =>
          key := Delete;
          Engine.StepDispatch(before, key);
          OnCanc();
        case 127 =>
          key := Backspace;
          Engine.StepDispatch(before, key);
          OnBackspace();
        case 13 =>
          var line := OnEnter();
          return Some(Engine.Line(line)), [NewLine];
        case _ =>
          key := Char(k as char);
          Engine.StepDispatch(before, key);
          InsertCi(k as char);
      }
      assert Decode(input) == Decoded(key, reader);
      Engine.LoopStep(before, input);
      done, written := None, Engine.Step(before, key).out;
    }

    /**
     * One pass of the loop of `run`: a byte is read and dispatched. It agrees
     * with one turn of Engine.Loop on the unread bytes; a failed read ends
     * the call.
     */
    method Turn() returns (done: Option<Engine.Outcome>, ghost written: seq<Write>)
      requires Valid()
      modifies this`reader, this`history, this`historyPos, this`currentInput, this`ciPos, this`historyFile, this`stderr
      ensures Valid() && stderr == old(stderr) + written
      ensures done.Some? ==>
        Engine.Loop(old(Model()), old(reader)) == Engine.RunResult(done.value, Model(), reader, written)
      ensures done.None? ==>
        |reader| < |old(reader)| && Engine.Loop(old(Model()), old(reader)) == Engine.Prefixed(written, Engine.Loop(Model(), reader))
    {
      ghost var before, unread := Model(), reader;
      var k := GetKeycode();
      if k.None? {
        Engine.LoopStops(before, unread);
        return Some(Engine.ReadError), [];
      }
      assert unread == [k.value] + reader;
      done, written := Dispatch(k.value);
    }

    /**
     * `run`: prints the current line, then reads and handles keys until
     * Enter (the line), Ctrl-C (Exited) or a failed read (ReadError).
     */
    method Run() returns (r: Engine.Outcome)
      requires Valid()
      modifies this
      ensures Valid()
      ensures var res := Engine.Run(old(Model()), old(reader));
        && r == res.outcome && Model() == res.state
        && reader == res.rest && stderr == old(stderr) + res.out
    {
      ghost var start := Model();
      PrintCurrentLine();
      ghost var written := Engine.CurrentLine(start);
      while true
        invariant Valid()
        invariant stderr == old(stderr) + written
        invariant Engine.Run(start, old(reader)) == Engine.Prefixed(written, Engine.Loop(Model(), reader))
        decreases |reader|
      {
        var done, turn := Turn();
        Engine.PrefixedTwice(written, turn, Engine.Loop(Model(), reader));
        WritesAssociate(old(stderr), written, turn);
        written := written + turn;
        if done.Some? {
          return done.value;
        }
      }
    }
  }
}
