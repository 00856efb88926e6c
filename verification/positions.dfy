/**
 * `offset_to_position` (src/main.rs): converting a char offset into a zero-based
 * line/column pair. The rope is modelled as the plain sequence of its chars, and
 * `'\n'` is its only line break.
 */
module Positions {
  import opened Wrappers

  /** Exclusive upper bound of the protocol's `u32` line and column fields. */
  const U32_LIMIT: nat := 0x1_0000_0000

  /** `x as u32`: keeps the low 32 bits. */
  function AsU32(x: nat): (r: nat)
    ensures r < U32_LIMIT
    ensures x < U32_LIMIT ==> r == x
  {
    x % U32_LIMIT
  }

  /** The protocol's `Position`: zero-based line and column. */
  datatype Position = Position(line: nat, character: nat)

  /** The number of line breaks in `s`. */
  function Breaks(s: seq<char>): (n: nat)
    ensures n <= |s|
    decreases |s|
  {
    if s == [] then 0
    else Breaks(s[..|s| - 1]) + (if s[|s| - 1] == '\n' then 1 else 0)
  }

  /** Counting line breaks distributes over splitting a prefix in two. */
  lemma {:induction false} BreaksSplit(s: seq<char>, i: nat, j: nat)
    requires i <= j <= |s|
    ensures Breaks(s[..j]) == Breaks(s[..i]) + Breaks(s[i..j])
    decreases j
  {
    if j == i {
      assert s[i..j] == [];
    } else {
      BreaksSplit(s, i, j - 1);
      assert s[..j][..j - 1] == s[..j - 1];
      assert s[i..j][..j - 1 - i] == s[i..j - 1];
    }
  }

  /** A piece of text holds no line break exactly when `Breaks` counts none. */
  lemma {:induction false} BreaksZero(s: seq<char>)
    ensures Breaks(s) == 0 <==> '\n' !in s
    decreases |s|
  {
    if s != [] {
      BreaksZero(s[..|s| - 1]);
      assert s == s[..|s| - 1] + [s[|s| - 1]];
    }
  }

  /**
   * The char index at which line `line` starts: 0 for the first line, otherwise
   * the index just after the line's preceding break.
   */
  function LineStart(s: seq<char>, line: nat): (k: nat)
    requires line <= Breaks(s)
    ensures k <= |s|
    ensures Breaks(s[..k]) == line
    ensures k == 0 || s[k - 1] == '\n'
    decreases |s|
  {
    if line == 0 then 0
    else if s[|s| - 1] == '\n' && Breaks(s[..|s| - 1]) == line - 1 then
      assert s[..|s|] == s;
      |s|
    else
      var k := LineStart(s[..|s| - 1], line);
      assert s[..|s| - 1][..k] == s[..k];
      k
  }

  /** Two prefixes with as many breaks as each other leave no break between them. */
  lemma NoBreakBetween(s: seq<char>, i: nat, j: nat)
    requires i <= j <= |s| && Breaks(s[..i]) == Breaks(s[..j])
    ensures forall m :: i <= m < j ==> s[m] != '\n'
  {
    BreaksSplit(s, i, j);
    BreaksZero(s[i..j]);
    forall m | i <= m < j
      ensures s[m] != '\n'
    {
      assert s[m] == s[i..j][m - i];
    }
  }

  /** Only one index is the start of a given line. */
  lemma LineStartUnique(s: seq<char>, line: nat, k: nat)
    requires k <= |s| && Breaks(s[..k]) == line
    requires k == 0 || s[k - 1] == '\n'
    ensures line <= Breaks(s)
    ensures LineStart(s, line) == k
  {
    BreaksSplit(s, k, |s|);
    assert s[..|s|] == s;
    var k0 := LineStart(s, line);
    if k < k0 {
      NoBreakBetween(s, k, k0);
      assert false;
    } else if k0 < k {
      NoBreakBetween(s, k0, k);
      assert false;
    }
  }

  /** The line holding char `offset` starts at or before `offset`. */
  lemma LineStartAtMost(s: seq<char>, offset: nat)
    requires offset <= |s|
    ensures Breaks(s[..offset]) <= Breaks(s)
    ensures LineStart(s, Breaks(s[..offset])) <= offset
  {
    BreaksSplit(s, offset, |s|);
    assert s[..|s|] == s;
    var k := LineStart(s, Breaks(s[..offset]));
    if offset < k {
      NoBreakBetween(s, offset, k);
      assert false;
    }
  }

  /**
   * `Rope::try_char_to_line`: the line holding char `offset`, which is the number
   * of line breaks before it; `offset == |text|` is accepted, anything beyond fails.
   */
  function CharToLine(text: seq<char>, offset: nat): (r: Option<nat>)
    ensures r.Some? <==> offset <= |text|
    ensures r.Some? ==> r.value <= Breaks(text)
  {
    if offset <= |text| then
      LineStartAtMost(text, offset);
      Some(Breaks(text[..offset]))
    else None
  }

  /**
   * `Rope::try_line_to_char`: the char index where line `line` starts. A rope
   * with n breaks has n + 1 lines, and the index one past the last line is
   * accepted too, giving the length of the text.
   */
  function LineToChar(text: seq<char>, line: nat): (r: Option<nat>)
    ensures r.Some? <==> line <= Breaks(text) + 1
    ensures r.Some? ==> r.value <= |text|
    ensures line <= Breaks(text) ==>
              r.Some? && Breaks(text[..r.value]) == line && (r.value == 0 || text[r.value - 1] == '\n')
    ensures line == Breaks(text) + 1 ==> r == Some(|text|)
  {
    if line <= Breaks(text) then Some(LineStart(text, line))
    else if line == Breaks(text) + 1 then Some(|text|)
    else None
  }

  /**
   * `offset_to_position`: the line holding `offset`, and its distance from that
   * line's first char, both cast to `u32`. `None` when `offset` lies past the end.
   */
  function OffsetToPosition(text: seq<char>, offset: nat): (r: Option<Position>)
    ensures r.None? <==> offset > |text|
    ensures r.Some? ==> r.value.line < U32_LIMIT && r.value.character < U32_LIMIT
  {
    match CharToLine(text, offset)
    case None => None
    case Some(line) =>
      match LineToChar(text, line)
      case None => None
      case Some(first) =>
        LineStartAtMost(text, offset);
        Some(Position(AsU32(line), AsU32(offset - first)))
  }

  /**
   * The inverse mapping: the offset of a position, defined for positions on an
   * existing line whose column does not run past that line's break.
   */
  function PositionToOffset(text: seq<char>, p: Position): Option<nat>
  {
    if p.line <= Breaks(text) then
      var start := LineStart(text, p.line);
      if start + p.character <= |text| && '\n' !in text[start .. start + p.character]
      then Some(start + p.character)
      else None
    else None
  }

  /**
   * Within 32 bits, the line of `offset` is the number of breaks before it, and
   * its column is the number of chars back to the previous break or to the start.
   */
  lemma OffsetToPositionCorrect(text: seq<char>, offset: nat)
    requires offset <= |text| && offset < U32_LIMIT
    ensures OffsetToPosition(text, offset).Some?
    ensures OffsetToPosition(text, offset).value.line == Breaks(text[..offset])
    ensures OffsetToPosition(text, offset).value.character <= offset
    ensures var c := OffsetToPosition(text, offset).value.character;
            '\n' !in text[offset - c .. offset] && (c == offset || text[offset - c - 1] == '\n')
  {
    LineStartAtMost(text, offset);
    var line := Breaks(text[..offset]);
    var start := LineStart(text, line);
    BreaksSplit(text, start, offset);
    BreaksZero(text[start..offset]);
  }

  /** Converting an offset to a position and back gives the offset again. */
  lemma PositionRoundTrip(text: seq<char>, offset: nat)
    requires offset <= |text| && offset < U32_LIMIT
    ensures OffsetToPosition(text, offset).Some?
    ensures PositionToOffset(text, OffsetToPosition(text, offset).value) == Some(offset)
  {
    OffsetToPositionCorrect(text, offset);
    LineStartAtMost(text, offset);
  }

  /** Converting a valid position to an offset and back gives the position again. */
  lemma OffsetRoundTrip(text: seq<char>, p: Position)
    requires PositionToOffset(text, p).Some? && PositionToOffset(text, p).value < U32_LIMIT
    ensures OffsetToPosition(text, PositionToOffset(text, p).value) == Some(p)
  {
    var start := LineStart(text, p.line);
    var offset := start + p.character;
    assert PositionToOffset(text, p) == Some(offset);
    BreaksSplit(text, start, offset);
    BreaksZero(text[start..offset]);
    assert Breaks(text[..offset]) == p.line;
    assert CharToLine(text, offset) == Some(p.line);
    assert LineToChar(text, p.line) == Some(start);
    assert offset - start == p.character;
  }

  /** Lines "abc" and "defgh": char 5, the 'e', is on line 1 at column 1. */
  lemma SecondLineExample()
    ensures OffsetToPosition("abc\ndefgh", 5) == Some(Position(1, 1))
  {
    var text := "abc\ndefgh";
    assert text[..4][..3] == "abc";
    BreaksZero("abc");
    assert Breaks(text[..4]) == 1;
    assert text[..5][..4] == text[..4];
    LineStartUnique(text, 1, 4);
  }
}
