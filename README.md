# readline — a verified model of the line editor

This project models the editing engine of the `readline` crate (`src/lib.rs`).
That engine is a `Readline` value holding several things:

- a prompt;
- a history of submitted lines and a position in it;
- the line being typed and a cursor in it;
- a reader of raw terminal bytes;
- an optional history file.

Each call of `run` prints the prompt and the line. It then reads one byte at a
time and dispatches on it:

- Ctrl-C (3) ends the call with "Exited".
- Escape (27) reads two more bytes, and the second of them selects the arrow.
- 126 is Delete, 127 is Backspace, and 13 (Enter) submits the line.
- Any other byte is inserted at the cursor.

After each edit, a handler either redraws the line or writes the typed character.

The model has two layers:

- **Engine** (pure): a `State` datatype with the struct's fields, and one function
  per handler. Each function returns the new state and the writes the handler
  makes. `Loop` and `Run` give the read loop over the byte sequence.
- **ReadlineClass.Readline** (imperative): a class with the struct's fields. The
  reader is the sequence of unread bytes and standard error is the list of
  writes. Each handler is a method that updates the fields in place. `Run` is
  the byte-reading `while` loop with the `match` dispatch. Every method is
  proved to do exactly what its Engine function says. For `Run`, the outcome,
  the new fields, the unread bytes and the writes are those of `Engine.Run`.

On top of these sit the following:

- **Properties**, proved about the engine:
  - An editing key writes to the terminal exactly when it changes the state.
  - Edits undo each other.
  - Cursor and history position stop at their bounds, however often a key is pressed.
  - With an ASCII prompt, on a terminal that gives every character one column, the terminal line keeps showing the prompt and the input, with the cursor just after the first `ci_pos` characters of the input.
  - The history file, reloaded, reproduces the history a session ends with.
- **Scenarios**: the repository's four integration tests, replayed byte for
  byte. Each one is proved to return the lines the test expects.

Other modules:

- `Keys` decodes bytes into keys.
- `Text` holds `String::insert` and `String::remove`.
- `Terminal` holds the abstract writes and a screen that replays them.
- `HistoryFile` holds Rust's `str::lines` and the records `history_push` appends.

Where the tests and `src/lib.rs` disagree, the model follows `src/lib.rs`. The
tests expect an `Event` enum and pass a boxed reader; `src/lib.rs` has neither.
Ctrl-C and a failed read both come out of `run` as an `Err`. The model keeps
the two apart as `Exited` and `ReadError`, and `Line(s)` stands for `Ok(s)`.

## Model

| member | source | states |
|---|---|---|
| Keys.ArrowKey | src/lib.rs:99-113 | the last byte of an escape sequence gives Up exactly for 65, Down exactly for 66, Right exactly for 67 and Left exactly for 68; any other byte gives the key that changes nothing |
| Keys.PlainKey | src/lib.rs:90-126 | a byte other than 27 is a typed character exactly when it is none of 3, 13, 126, 127, and then it is that byte; 3 and only 3 interrupts; 13 and only 13 is Enter; 126 and only 126 is Delete; 127 and only 127 is Backspace |
| Keys.Decode | src/lib.rs:88-126 | reading a key fails exactly on an empty input or an escape byte followed by fewer than two bytes; a byte other than 27 is read as its PlainKey and consumes one byte; an escape sequence is read as the ArrowKey of its third byte (Unrecognized for any byte but 65..68) and consumes three |
| Keys.Encode | src/lib.rs:90-113 | the reference encoding of a key (one byte, or escape, '[' and the arrow letter) reads back as exactly that key with nothing left over |
| Keys.DecodeEncode | src/lib.rs:90-127 | every key read from the stream has an encoding, and that encoding followed by the unread bytes reads back to the same key and rest |
| Keys.EncodeDecode | src/lib.rs:90-127 | encoding a key and reading it back gives the key and leaves the bytes after it untouched |
| Keys.EscapeIgnoresMiddleByte | src/lib.rs:97-98 | the middle byte of an escape sequence has no influence on the key read |
| Text.Utf8Width | src/lib.rs:357 | a character takes one to four bytes in UTF-8, and exactly one when it is ASCII |
| Text.Utf8Len | src/lib.rs:357 | `String::len`: a string takes at least as many bytes as it has characters and at most four times as many, and exactly as many when it is ASCII |
| Text.InsertAt | src/lib.rs:266 | `String::insert`: the text is one longer, the character is at the position, the characters before stay and the ones after shift right |
| Text.RemoveAt | src/lib.rs:281 | `String::remove`: the text is one shorter, the characters before stay and the ones after shift left |
| Text.InsertAtEnd | src/lib.rs:143-147 | inserting at the end of the text appends the character |
| Text.RemoveLast | src/lib.rs:280-281 | removing the last character keeps the rest |
| Text.RemoveUndoesInsert | src/lib.rs:266-281 | removing at the position of an insertion gives back the original text |
| Text.InsertUndoesRemove | src/lib.rs:281-296 | putting the removed character back at its position gives back the original text |
| Terminal.Put | src/lib.rs:147 | writing one character overwrites the cell under the cursor or extends the line, and leaves every other cell |
| Terminal.Overwrite | src/lib.rs:353-354 | the printed text starts the line, and the old line shows past its end |
| HistoryFile.NewlineIndex | src/lib.rs:319 | the first line ending of the text, or its length: no '\n' before it |
| HistoryFile.StripCr | src/lib.rs:319 | a line loses at most one character, and only a final '\r'; a line not ending in '\r' is kept as is |
| HistoryFile.Lines | src/lib.rs:319 | `str::lines`: empty exactly for empty text; no line holds a '\n'; every character of a line comes from the text |
| HistoryFile.Record | src/lib.rs:333 | the record of an entry is the entry followed by one character, it ends with a line ending, and for an entry without '\n' its first line ending is right after the entry |
| HistoryFile.Join | src/lib.rs:333 | the file written one record per entry ends with a line ending |
| HistoryFile.LinesOfConcat | src/lib.rs:319 | splitting terminated text followed by more text gives the lines of both parts, in order |
| HistoryFile.LinesOfRecord | src/lib.rs:333 | the record of an entry without line endings reads back as exactly that entry |
| HistoryFile.AppendRecord | src/lib.rs:327-338 | appending a record to a terminated file keeps it terminated and adds exactly that entry to what a reload reads |
| HistoryFile.LinesOfJoin | src/lib.rs:311-338 | entries without line endings written one record each read back as the same entries |
| HistoryFile.EmbeddedNewlineSplitsEntry | src/lib.rs:319-333 | an entry holding a '\n' comes back from the file as two entries |
| Engine.Column | src/lib.rs:357 | the cursor column counts the prompt in UTF-8 bytes; it is past the prompt's characters and the cursor, and it is exactly one past them when the prompt is ASCII |
| Engine.CiInsertPos | src/lib.rs:263-268 | the character goes in before the cursor and the cursor moves past it; nothing else changes; removing it again gives back the input |
| Engine.InsertCi | src/lib.rs:140-151 | inserting at the end of the line writes only the character; anywhere else it redraws the line |
| Engine.CiRemovePos | src/lib.rs:270-284 | reports true exactly when the cursor is past the start; then the character before the cursor is removed and the cursor moves back; otherwise nothing changes |
| Engine.CiRemovePosRight | src/lib.rs:286-299 | reports true exactly when the cursor is before the end; then the character under the cursor is removed and the cursor stays; otherwise nothing changes |
| Engine.OnBackspace | src/lib.rs:237-244 | Backspace redraws exactly when a character was removed |
| Engine.OnCanc | src/lib.rs:246-253 | Delete redraws exactly when a character was removed |
| Engine.OnLeftArrow | src/lib.rs:153-165 | the cursor moves one column left and the line is redrawn; at the start nothing changes and nothing is written |
| Engine.OnRightArrow | src/lib.rs:167-181 | the cursor moves one column right and the line is redrawn; at the end nothing changes and nothing is written |
| Engine.SetCi | src/lib.rs:301-304 | the input is replaced and the cursor goes to its end |
| Engine.OnUpArrow | src/lib.rs:183-198 | with an entry before the position, the position moves back and that entry is shown with the cursor at its end; at the oldest entry nothing changes and nothing is written |
| Engine.OnDownArrow | src/lib.rs:200-216 | with the position before the end, it moves on and the entry there is shown, or an empty line at the end; at the end nothing changes |
| Engine.ResetHistoryPos | src/lib.rs:306-309 | the position goes to the live line after the last entry |
| Engine.HistoryPush | src/lib.rs:327-338 | the entry is added last; the file, if any, gets its record appended; nothing else changes |
| Engine.OnEnter | src/lib.rs:218-235 | returns the input; a non-empty input is added to the history and to the file; the history is never shrunk or reordered; position at the live line, input empty, cursor at 0 |
| Engine.HistoryLoad | src/lib.rs:311-325 | with a file, the history becomes the file's lines; the position goes to the live line |
| Engine.NewSession | src/lib.rs:49-74 | a new editor starts on an empty line, with the file's lines as history, at the live position |
| Engine.Step | src/lib.rs:96-126 | every editing key keeps the prompt, the history and the file, and keeps cursor and position in bounds |
| Engine.StepDispatch | src/lib.rs:99-126 | each key goes to its own handler; an unrecognized escape sequence changes nothing |
| Engine.Loop | src/lib.rs:87-130 | the read loop keeps the state in bounds; the history only grows, never by an empty entry; unread bytes are a suffix of the input; a read error consumes everything; after Enter the line is empty |
| Engine.LoopStep | src/lib.rs:96-126 | a key that edits the line is handled, its writes come first, and the loop goes on with the bytes after it |
| Engine.LoopStops | src/lib.rs:88-94 | a failed read, Ctrl-C and Enter end the loop with a read error, Exited and the submitted line |
| Engine.Run | src/lib.rs:84-131 | a call of `run` prints the current line first, keeps the state in bounds and only grows the history |
| ReadlineClass.Readline.constructor | src/lib.rs:49-74 | the fields are those of a new session on the reader, prompt and file |
| ReadlineClass.Readline.GetPrompt | src/lib.rs:362-364 | returns the prompt |
| ReadlineClass.Readline.SetPrompt | src/lib.rs:366-369 | replaces the prompt and nothing else |
| ReadlineClass.Readline.GetKeycode | src/lib.rs:133-138 | returns the next byte and consumes it, or reports a failed read on an empty reader |
| ReadlineClass.Readline.WriteFlush | src/lib.rs:340-347 | the write is appended to standard error |
| ReadlineClass.Readline.ClearCurrentLine | src/lib.rs:379-381 | writes one line clear |
| ReadlineClass.Readline.PrintCurrentLine | src/lib.rs:349-360 | writes prompt and input from column 1, then moves the cursor to Engine.Column: the prompt's length in UTF-8 bytes plus `ci_pos` plus 1 |
| ReadlineClass.Readline.CiInsertPos | src/lib.rs:263-268 | changes the fields as Engine.CiInsertPos |
| ReadlineClass.Readline.InsertCi | src/lib.rs:140-151 | changes the fields and writes as Engine.InsertCi |
| ReadlineClass.Readline.OnLeftArrow | src/lib.rs:153-165 | changes the fields and writes as Engine.OnLeftArrow |
| ReadlineClass.Readline.OnRightArrow | src/lib.rs:167-181 | changes the fields and writes as Engine.OnRightArrow |
| ReadlineClass.Readline.OnUpArrow | src/lib.rs:183-198 | changes the fields and writes as Engine.OnUpArrow |
| ReadlineClass.Readline.OnDownArrow | src/lib.rs:200-216 | changes the fields and writes as Engine.OnDownArrow |
| ReadlineClass.Readline.OnEnter | src/lib.rs:218-235 | returns the line and changes the fields as Engine.OnEnter, writing one line ending |
| ReadlineClass.Readline.OnBackspace | src/lib.rs:237-244 | changes the fields and writes as Engine.OnBackspace |
| ReadlineClass.Readline.OnCanc | src/lib.rs:246-253 | changes the fields and writes as Engine.OnCanc |
| ReadlineClass.Readline.CiRemovePos | src/lib.rs:270-284 | changes the fields and reports as Engine.CiRemovePos |
| ReadlineClass.Readline.CiRemovePosRight | src/lib.rs:286-299 | changes the fields and reports as Engine.CiRemovePosRight |
| ReadlineClass.Readline.SetCi | src/lib.rs:301-304 | changes the fields as Engine.SetCi |
| ReadlineClass.Readline.ResetHistoryPos | src/lib.rs:306-309 | changes the fields as Engine.ResetHistoryPos |
| ReadlineClass.Readline.HistoryLoad | src/lib.rs:311-325 | changes the fields as Engine.HistoryLoad |
| ReadlineClass.Readline.HistoryPush | src/lib.rs:327-338 | changes the fields as Engine.HistoryPush |
| ReadlineClass.Readline.OnEscapeSequence | src/lib.rs:96-114 | reads two more bytes and fails exactly when fewer remain; otherwise the second byte's arrow is handled as Engine.Step |
| ReadlineClass.Readline.Dispatch | src/lib.rs:90-127 | one turn of the loop on a byte agrees with one turn of Engine.Loop: it ends the call with the same outcome, or hands on the same state and unread bytes |
| ReadlineClass.Readline.Turn | src/lib.rs:87-128 | one pass of the loop agrees with one turn of Engine.Loop on the unread bytes: it ends the call with the same outcome, or consumes at least one byte and hands on the same state |
| ReadlineClass.Readline.Run | src/lib.rs:84-131 | the outcome, the new fields, the unread bytes and everything written are those of Engine.Run |
| Properties.RedrawsExactlyWhenChanged | src/lib.rs:140-253 | an editing key writes to the terminal exactly when it changes the state |
| Properties.BackspaceUndoesInsert | src/lib.rs:140-151 | Backspace right after typing a character restores the state before it |
| Properties.DeleteUndoesInsert | src/lib.rs:246-268 | Left then Delete right after typing a character restores the state before it |
| Properties.Presses | src/lib.rs:96-126 | repeated presses of one key keep the state in bounds, the prompt and the history |
| Properties.PressesAtRest | src/lib.rs:153-253 | a key that changes nothing, pressed any number of times, changes nothing and writes nothing |
| Properties.LeftPresses | src/lib.rs:153-165 | n Left presses move the cursor n columns left, down to the start, and change nothing else |
| Properties.LeftStopsAtStart | src/lib.rs:153-165 | Left presses beyond the start of the line change nothing and write nothing |
| Properties.RightPresses | src/lib.rs:167-181 | n Right presses move the cursor n columns right, up to the end, and change nothing else |
| Properties.RightStopsAtEnd | src/lib.rs:167-181 | Right presses beyond the end of the line change nothing and write nothing |
| Properties.BackspaceAtStart | src/lib.rs:237-244 | Backspace at the start of the line, however often, changes nothing and writes nothing |
| Properties.DeleteAtEnd | src/lib.rs:246-253 | Delete at the end of the line, however often, changes nothing and writes nothing |
| Properties.UpPresses | src/lib.rs:183-198 | n Up presses, at most the position, show the entry n places back with the cursor at its end |
| Properties.UpStopsAtOldest | src/lib.rs:183-198 | Up presses beyond the oldest entry change nothing and write nothing; the oldest entry stays shown |
| Properties.DownPresses | src/lib.rs:200-216 | n Down presses, at most the entries after the position, show the entry n places on, or an empty line at the end |
| Properties.DownStopsAtLive | src/lib.rs:200-216 | Down presses past the last entry change nothing and write nothing; an empty line stays shown |
| Properties.DownAfterUp | src/lib.rs:183-216 | Down after Up comes back to the same position but shows the entry there, or an empty line; the line typed before Up is lost |
| Properties.CurrentLineShows | src/lib.rs:349-360 | `print_current_line` writes the prompt and the input over the line from its start, keeps what showed past them, and puts the cursor in the computed column |
| Properties.RedrawReplaces | src/lib.rs:144-145 | `clear_current_line` then `print_current_line` leave exactly the prompt and the input on the line, whatever was there, with the cursor in the computed column |
| Properties.RedrawShows | src/lib.rs:349-381 | with an ASCII prompt, a redraw leaves exactly the prompt and the input on the line, with the cursor just after the first `ci_pos` characters of the input |
| Properties.WidePromptShiftsCursor | src/lib.rs:357 | with the prompt "é> " and an empty line the cursor goes to column 5, one past the end of the line, so the terminal does not show the cursor after the input |
| Properties.EchoShows | src/lib.rs:143-148 | writing only the typed character at the end of the line keeps the terminal showing the prompt and the input |
| Properties.StepShows | src/lib.rs:140-253 | every editing key keeps the terminal showing the prompt and the input with the cursor in its column |
| Properties.LoopShows | src/lib.rs:87-128 | over a whole read loop the terminal keeps showing the prompt and the input; after Enter it is on a fresh line |
| Properties.RunShows | src/lib.rs:84-131 | after a call of `run` the terminal shows the prompt and the input with the cursor in its column, exactly so when the line was no longer to start with |
| Properties.NewSessionSynced | src/lib.rs:49-74 | a session opened on a terminated file without '\r' has a history that the file reads back as |
| Properties.EnterKeepsSynced | src/lib.rs:218-235 | submitting a line without line endings keeps the file reading back as the history |
| Properties.InsertKeepsClean | src/lib.rs:263-268 | typing a character other than '\n' and '\r' keeps the input and the history free of line endings |
| Properties.RemoveKeepsClean | src/lib.rs:276-298 | removing a character keeps the input and the history free of line endings |
| Properties.StepKeepsClean | src/lib.rs:140-304 | editing keys other than a typed line feed keep the input and the history free of line endings |
| Properties.LoopKeepsSynced | src/lib.rs:87-130 | a read loop without typed line feeds keeps the file reading back as the history |
| Properties.ReloadReproducesHistory | src/lib.rs:311-338 | after a call of `run`, a new session on the same file loads exactly the history the old one ended with |
| Scenarios.TypeAtEnd | src/lib.rs:124-151 | typing text at the end of the line appends it to the input, and the loop goes on after it |
| Scenarios.EraseAtEnd | src/lib.rs:118-120 | n Backspaces at the end of the line drop the last n characters |
| Scenarios.TypeAndSubmit | src/lib.rs:121-123 | a line typed on an empty input and submitted is what `run` returns |
| Scenarios.ArrowAndSubmit | src/lib.rs:96-123 | an arrow key and Enter make `run` return the line the arrow left |
| Scenarios.InterruptRun | src/lib.rs:92-94 | Ctrl-C makes `run` return Exited and changes nothing |
| Scenarios.ArrowsLeftRight | tests/arrows_leftright.rs:18-26 | four Lefts, a Right, Delete and a typed 't' mend "ls -la Deskrop": `run` returns "ls -la Desktop", and then Exited |
| Scenarios.ArrowsUpDown | tests/arrows_updown.rs:16-25 | `run` returns "test command -r one", "not the previous command" and again "not the previous command" after Up, Up, Down; then Exited |
| Scenarios.BackspaceTest | tests/backspace.rs:19-26 | the typed and erased keys make `run` return "ls -la Downloads", and then Exited |
| Scenarios.SimpleSession | tests/simple.rs:10-24 | for any two printable lines: `run` returns them, then the second again after Up, then Exited; the file holds three more records |
| Scenarios.SimpleRecall | tests/simple.rs:28-37 | a new session on that file returns the last line after one Up and Enter |
| Scenarios.SimpleTest | tests/simple.rs:10-37 | the test's two sessions on one history file, from any terminated file: the lines it expects, then the second line recalled in the new session |

## Left out

- tokio, `async`/`await` and the `RwLock`/`Mutex` wrappers: the fields are plain object state, and concurrent calls of `set_prompt` during `run` are not modelled.
- File I/O: opening the file, `read_to_string`, `write_all`, `flush` and the `unwrap` panics when they fail. The history file is the text it holds, an `Option<string>`, and a push appends to that text.
- Terminal output: the escape strings (`ESC[2K`, `ESC[<n>G`) and their decimal formatting are abstract writes (`ClearLine`, `MoveColumn(n)`, ...). The terminal model has one line and no width, so it does not wrap. Every write to standard error succeeds: the I/O errors that `clear_current_line` and `write_flush` return through `?` (src/lib.rs:144,147,160,176,193,211,221,239,248), the one `move_cursor_col` returns through `?` inside `print_current_line` (src/lib.rs:357), and the one `print_current_line` returns and `let _ =` drops, are not modelled.
- `enable_raw_mode` and `disable_raw_mode` call into crossterm and are not modelled.
- The dead helpers `_current_input_pop`, `_current_input_push` and `_move_cursor` are not modelled.
- tests/fakestdin.rs is not part of this model: the reader is the sequence of bytes it would hand out.
- Properties.RedrawShows, Properties.EchoShows, Properties.StepShows, Properties.LoopShows and Properties.RunShows: the terminal model (Terminal.Put, Terminal.Perform) gives every written character one column, which holds only for printable characters. A typed control byte other than 3, 13 and 27 goes into the line (src/lib.rs:124-125) and is written as is by the echo (src/lib.rs:147) and the redraw (src/lib.rs:354). A real terminal moves the cursor to the next tab stop on byte 9, back one column on byte 8, down a line on byte 10, and not at all on most others. For input holding such bytes these lemmas describe the model terminal, not what a real terminal shows.
- Properties.RedrawShows, Properties.EchoShows, Properties.StepShows, Properties.LoopShows and Properties.RunShows: stated for ASCII prompts only. `print_current_line` counts the prompt in UTF-8 bytes (src/lib.rs:357), while the terminal shows each character in one column. With a non-ASCII prompt the cursor lands past its place and typed characters are echoed there (Properties.WidePromptShiftsCursor). The prompt itself may hold any characters.
- Bytes of 128 and above: `k as char` makes them two-byte UTF-8 characters, so `ci_pos` no longer counts characters. The constructor requires ASCII bytes and an ASCII history file.
- Properties.LoopShows, Properties.RunShows, Properties.LoopKeepsSynced and Properties.ReloadReproducesHistory: proved of the model for any input bytes, but they describe the source only for bytes below 128, the input the constructor admits. On a byte of 128 or more the source inserts a two-byte character, so it redraws where the model echoes, and a later `String::insert` off a character boundary panics.
- ReadlineClass.Readline.Run: the body of the loop of `run` is the method Turn, and its `match` is split into the methods Dispatch and OnEscapeSequence, so that each proof stays small; the order of reads and writes is the same.
- Properties.ReloadReproducesHistory: stated only for inputs without a typed line feed (byte 10), for files that end with a line ending, and for sessions whose input and history hold no '\r' at the start (`Clean`). A history entry "a\r", loaded from the file "a\r\r\n", is appended as "a\r\n" when recalled and submitted, and that reloads as "a". A typed '\n' is stored in one entry and reloaded as two (HistoryFile.EmbeddedNewlineSplitsEntry). A file whose last line has no line ending gets its first new record glued onto that line.
- Scenarios.SimpleTest: the test starts without a history file on disk. The model starts from any text that ends with a line ending, and the empty file is one such text.
