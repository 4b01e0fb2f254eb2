/**
 * Editing a string at a position, as `String::insert` and `String::remove`
 * do on text whose characters are one byte each.
 */
module Text {

  /** Text whose characters each take one byte in UTF-8, so that `String::len` counts characters. */
  predicate IsAscii(s: string) {
    forall i | 0 <= i < |s| :: s[i] as int < 128
  }

  /** The number of bytes `c` takes in UTF-8. */
  function Utf8Width(c: char): (n: nat)
    ensures 1 <= n <= 4
    ensures n == 1 <==> c as int < 128
  {
    if c as int < 0x80 then 1
    else if c as int < 0x800 then 2
    else if c as int < 0x1_0000 then 3
    else 4
  }

  /** `String::len`: the length of `s` in UTF-8 bytes, which is its length in characters exactly when it is ASCII. */
  function Utf8Len(s: string): (n: nat)
    ensures |s| <= n <= 4 * |s|
    ensures n == |s| <==> IsAscii(s)
  {
    if s == [] then 0
    else
      var n := Utf8Width(s[0]) + Utf8Len(s[1..]);
      assert IsAscii(s) <==> s[0] as int < 128 && IsAscii(s[1..]) by {
        assert forall i | 0 < i < |s| :: s[i] == s[1..][i - 1];
      }
      n
  }

  /** `s` with `c` inserted before position `i`. */
  function InsertAt(s: string, i: nat, c: char): (r: string)
    requires i <= |s|
    ensures |r| == |s| + 1 && r[i] == c
    ensures forall j | 0 <= j < i :: r[j] == s[j]
    ensures forall j | i < j < |r| :: r[j] == s[j - 1]
  {
    s[..i] + [c] + s[i..]
  }

  /** `s` without the character at position `i`. */
  function RemoveAt(s: string, i: nat): (r: string)
    requires i < |s|
    ensures |r| == |s| - 1
    ensures forall j | 0 <= j < i :: r[j] == s[j]
    ensures forall j | i <= j < |r| :: r[j] == s[j + 1]
  {
    s[..i] + s[i + 1..]
  }

  /** Inserting at the end appends. */
  lemma InsertAtEnd(s: string, c: char)
    ensures InsertAt(s, |s|, c) == s + [c]
  {
    assert s[..|s|] == s && s[|s|..] == [];
  }

  /** Removing the last character drops it. */
  lemma RemoveLast(s: string)
    requires s != []
    ensures RemoveAt(s, |s| - 1) == s[..|s| - 1]
  {
    assert s[|s|..] == [];
  }

  /** Removing what was just inserted gives back the original text. */
  lemma RemoveUndoesInsert(s: string, i: nat, c: char)
    requires i <= |s|
    ensures RemoveAt(InsertAt(s, i, c), i) == s
  {
    var r := RemoveAt(InsertAt(s, i, c), i);
    assert forall j | 0 <= j < |s| :: r[j] == s[j];
  }

  /** Putting back the removed character gives back the original text. */
  lemma InsertUndoesRemove(s: string, i: nat)
    requires i < |s|
    ensures InsertAt(RemoveAt(s, i), i, s[i]) == s
  {
    var r := InsertAt(RemoveAt(s, i), i, s[i]);
    assert forall j | 0 <= j < |s| :: r[j] == s[j];
  }
}
