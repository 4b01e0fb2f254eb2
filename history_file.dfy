/**
 * The history file: one entry per line. Loading splits the file's text the
 * way Rust's `str::lines` does; pushing appends the entry and a '\n'.
 */
module HistoryFile {

  /** The position of the first '\n' in `s`, or `|s|` when there is none. */
  function NewlineIndex(s: string): (i: nat)
    ensures i <= |s|
    ensures i < |s| ==> s[i] == '\n'
    ensures forall j | 0 <= j < i :: s[j] != '\n'
  {
    if s == [] || s[0] == '\n' then 0 else 1 + NewlineIndex(s[1..])
  }

  /** A line ended by "\r\n" loses its '\r' too. */
  function StripCr(l: string): (r: string)
    ensures r <= l && |l| <= |r| + 1
    ensures r == l <==> l == [] || l[|l| - 1] != '\r'
  {
    if l != [] && l[|l| - 1] == '\r' then l[..|l| - 1] else l
  }

  /**
   * Rust's `str::lines`: the text split at each '\n' (and "\r\n"); a final
   * line without a line ending is kept, and a final line ending adds no
   * empty line.
   */
  function Lines(text: string): (r: seq<string>)
    ensures text == [] <==> r == []
    ensures forall k | 0 <= k < |r| :: '\n' !in r[k]
    ensures forall k, ch | 0 <= k < |r| && ch in r[k] :: ch in text
    decreases |text|
  {
    if text == [] then []
    else
      var i := NewlineIndex(text);
      if i == |text| then [text]
      else
        var first := StripCr(text[..i]);
        assert forall ch | ch in first :: ch in text[..i];
        assert forall ch | ch in text[i + 1..] :: ch in text;
        [first] + Lines(text[i + 1..])
  }

  /** The text that pushing `line` appends to the file. */
  function Record(line: string): (r: string)
    ensures line <= r && |r| == |line| + 1 && Terminated(r)
    ensures '\n' !in line ==> NewlineIndex(r) == |line|
  {
    line + "\n"
  }

  /** Text that ends with a line ending, so that the next record starts on a line of its own. */
  predicate Terminated(text: string) {
    text == [] || text[|text| - 1] == '\n'
  }

  /** An entry that survives a write and a reload unchanged: it holds no line-ending character. */
  predicate Storable(line: string) {
    '\n' !in line && '\r' !in line
  }

  /** The file text holding the given entries, one record each. */
  function Join(entries: seq<string>): (text: string)
    ensures Terminated(text)
  {
    if entries == [] then [] else Join(entries[..|entries| - 1]) + Record(entries[|entries| - 1])
  }

  lemma NewlineIndexOfConcat(a: string, b: string)
    requires NewlineIndex(a) < |a|
    ensures NewlineIndex(a + b) == NewlineIndex(a)
  {
    var i, j := NewlineIndex(a), NewlineIndex(a + b);
    assert (a + b)[i] == '\n';
    if j < i {
      assert (a + b)[j] == a[j];
    }
  }

  /** Splitting text that ends with a line ending and then more text splits the two parts apart. */
  lemma {:induction false} LinesOfConcat(a: string, b: string)
    requires Terminated(a)
    ensures Lines(a + b) == Lines(a) + Lines(b)
    decreases |a|
  {
    if a == [] {
      assert a + b == b;
    } else {
      var i := NewlineIndex(a);
      assert a[|a| - 1] == '\n';
      var tail := a[i + 1..];
      NewlineIndexOfConcat(a, b);
      assert (a + b)[..i] == a[..i];
      assert (a + b)[i + 1..] == tail + b;
      assert Terminated(tail) by {
        if tail != [] { assert tail[|tail| - 1] == a[|a| - 1]; }
      }
      var first := StripCr(a[..i]);
      assert Lines(a) == [first] + Lines(tail);
      assert a + b != [];
      assert Lines(a + b) == [first] + Lines(tail + b);
      LinesOfConcat(tail, b);
      AppendAssoc([first], Lines(tail), Lines(b));
    }
  }

  lemma AppendAssoc(x: seq<string>, y: seq<string>, z: seq<string>)
    ensures x + (y + z) == x + y + z
  {
  }

  /** A storable entry reads back from its record as exactly that entry. */
  lemma LinesOfRecord(line: string)
    requires Storable(line)
    ensures Lines(Record(line)) == [line]
  {
    var text := Record(line);
    assert text[|line|] == '\n';
    assert forall j | 0 <= j < |line| :: text[j] == line[j];
    assert forall j | 0 <= j < |line| :: line[j] in line;
    assert NewlineIndex(text) == |line|;
    assert text[..|line|] == line;
    assert line != [] ==> line[|line| - 1] in line;
    assert text[|line| + 1..] == [];
  }

  /**
   * Appending the record of a storable entry to a terminated file adds
   * exactly that entry to what a reload reads, and keeps the file terminated.
   */
  lemma AppendRecord(text: string, line: string)
    requires Terminated(text) && Storable(line)
    ensures Terminated(text + Record(line))
    ensures Lines(text + Record(line)) == Lines(text) + [line]
  {
    LinesOfConcat(text, Record(line));
    LinesOfRecord(line);
  }

  /** Storable entries written one record each read back as the same entries. */
  lemma {:induction false} LinesOfJoin(entries: seq<string>)
    requires forall k | 0 <= k < |entries| :: Storable(entries[k])
    ensures Lines(Join(entries)) == entries
    decreases |entries|
  {
    if entries != [] {
      var init := entries[..|entries| - 1];
      LinesOfJoin(init);
      AppendRecord(Join(init), entries[|entries| - 1]);
      assert init + [entries[|entries| - 1]] == entries;
    }
  }

  /** An entry holding a '\n' comes back from the file as two entries. */
  lemma EmbeddedNewlineSplitsEntry()
    ensures Lines(Record("a\nb")) == ["a", "b"]
  {
    var text := Record("a\nb");
    assert text == ['a', '\n', 'b', '\n'];
    assert NewlineIndex(text) == 1;
    assert text[2..] == ['b', '\n'];
    assert NewlineIndex(text[2..]) == 1;
    assert text[..1] == "a" && StripCr("a") == "a";
    assert text[2..][..1] == "b" && StripCr("b") == "b";
    assert text[2..][2..] == [];
    assert Lines(text[2..]) == ["b"];
  }
}
