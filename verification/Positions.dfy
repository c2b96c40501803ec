/** Line and column positions of the editor, and the text widget's buffer they address. */
module Positions {
  import opened Text

  datatype Position = Position(line: nat, column: nat)

  predicate Before(a: Position, b: Position) {
    a.line < b.line || (a.line == b.line && a.column < b.column)
  }

  function Advance(at: Position, character: char): Position {
    if character == '\n' then Position(at.line + 1, 0)
    else if character != '\r' then Position(at.line, at.column + 1)
    else at
  }

  /** The position after the first `offset` characters. Carriage returns do not advance it. */
  function PositionOf(text: string, offset: nat): Position
    requires offset <= |text|
  {
    if offset == 0 then Position(0, 0)
    else Advance(PositionOf(text, offset - 1), text[offset - 1])
  }

  method BytePosition(text: string, byte: nat) returns (position: Position)
    ensures position == PositionOf(text, if byte < |text| then byte else |text|)
  {
    var line, column := 0, 0;
    var end := if byte < |text| then byte else |text|;
    for i := 0 to end
      invariant Position(line, column) == PositionOf(text, i)
    {
      var character := text[i];
      if character == '\n' {
        line := line + 1;
        column := 0;
      } else if character != '\r' {
        column := column + 1;
      }
    }
    position := Position(line, column);
  }

  predicate AllReturns(text: string) {
    forall i | 0 <= i < |text| :: text[i] == '\r'
  }

  lemma AllReturnsAppend(text: string, last: char)
    ensures AllReturns(text + [last]) <==> AllReturns(text) && last == '\r'
  {
    assert (text + [last])[|text|] == last;
    assert forall i | 0 <= i < |text| :: (text + [last])[i] == text[i];
  }

  /** Positions never go back, and two offsets share one exactly when only carriage returns lie
      between them: no widget can tell such offsets apart. */
  lemma {:induction false} PositionsAgreeIff(text: string, a: nat, b: nat)
    requires a <= b <= |text|
    ensures PositionOf(text, a) == PositionOf(text, b) <==> AllReturns(text[a..b])
    ensures PositionOf(text, a) == PositionOf(text, b) || Before(PositionOf(text, a), PositionOf(text, b))
  {
    if a < b {
      PositionsAgreeIff(text, a, b - 1);
      assert text[a..b] == text[a..b - 1] + [text[b - 1]];
      AllReturnsAppend(text[a..b - 1], text[b - 1]);
    }
  }

  /** The widget reads a position as the first offset that has it (or the end of the text). */
  function Resolve(text: string, position: Position, from: nat): (offset: nat)
    requires from <= |text|
    ensures from <= offset <= |text|
    decreases |text| - from
  {
    if from == |text| || PositionOf(text, from) == position then from
    else Resolve(text, position, from + 1)
  }

  lemma {:induction false} ResolveFirst(text: string, position: Position, from: nat, offset: nat)
    requires from <= offset <= |text| && PositionOf(text, offset) == position
    ensures Resolve(text, position, from) <= offset
    ensures PositionOf(text, Resolve(text, position, from)) == position
    decreases |text| - from
  {
    if from < offset && PositionOf(text, from) != position {
      ResolveFirst(text, position, from + 1, offset);
    }
  }

  /** Going through a position gives an offset back exactly when it does not follow a carriage return. */
  lemma ResolveIsExactIff(text: string, offset: nat)
    requires offset <= |text|
    ensures Resolve(text, PositionOf(text, offset), 0) == offset <==> offset == 0 || text[offset - 1] != '\r'
  {
    var back := Resolve(text, PositionOf(text, offset), 0);
    ResolveFirst(text, PositionOf(text, offset), 0, offset);
    PositionsAgreeIff(text, back, offset);
    if back < offset {
      assert text[back..offset][offset - 1 - back] == text[offset - 1];
    } else if offset > 0 && text[offset - 1] == '\r' {
      ResolveFirst(text, PositionOf(text, offset), 0, offset - 1);
    }
  }

  /** How many carriage returns stand directly before an offset. */
  function ReturnsBefore(text: string, offset: nat): (count: nat)
    requires offset <= |text|
    ensures count <= offset
  {
    if offset == 0 || text[offset - 1] != '\r' then 0 else 1 + ReturnsBefore(text, offset - 1)
  }

  lemma {:induction false} ReturnsBeforeIs(text: string, offset: nat)
    requires offset <= |text|
    ensures var first := offset - ReturnsBefore(text, offset);
      AllReturns(text[first..offset]) && (first > 0 ==> text[first - 1] != '\r')
  {
    if offset > 0 && text[offset - 1] == '\r' {
      ReturnsBeforeIs(text, offset - 1);
      var first := offset - ReturnsBefore(text, offset);
      assert text[first..offset] == text[first..offset - 1] + [text[offset - 1]];
      AllReturnsAppend(text[first..offset - 1], text[offset - 1]);
    }
  }

  /** The way through a position goes back over the carriage returns directly before the offset. */
  lemma ResolveSkipsReturns(text: string, offset: nat)
    requires offset <= |text|
    ensures Resolve(text, PositionOf(text, offset), 0) == offset - ReturnsBefore(text, offset)
  {
    var first := offset - ReturnsBefore(text, offset);
    ReturnsBeforeIs(text, offset);
    PositionsAgreeIff(text, first, offset);
    ResolveIsExactIff(text, first);
  }

  datatype Cursor = Cursor(position: Position, selection: Option<Position>)

  /** The widget's buffer: its text and where the caret and the selection anchor are. */
  datatype Content = Content(text: string, cursor: Cursor) {
    function MoveTo(to: Cursor): Content {
      this.(cursor := to)
    }

    /** The selected range, as offsets. */
    function Selected(): (range: (nat, nat))
      ensures range.0 <= range.1 <= |text|
    {
      var caret := Resolve(text, cursor.position, 0);
      var anchor := if cursor.selection.Some? then Resolve(text, cursor.selection.value, 0) else caret;
      if anchor < caret then (anchor, caret) else (caret, anchor)
    }

    /** Pasting replaces the selection and leaves the caret after the pasted text. */
    function Paste(pasted: string): Content {
      var (low, high) := Selected();
      var after := text[..low] + pasted + text[high..];
      Content(after, Cursor(PositionOf(after, low + |pasted|), None))
    }
  }

  function WithText(text: string): Content {
    Content(text, Cursor(Position(0, 0), None))
  }

  predicate FollowsReturn(text: string, offset: nat)
    requires offset <= |text|
  {
    offset > 0 && text[offset - 1] == '\r'
  }

  function SelectRange(content: Content, start: nat, end: nat): Content
    requires start <= end <= |content.text|
  {
    content.MoveTo(Cursor(PositionOf(content.text, end), Some(PositionOf(content.text, start))))
  }

  lemma {:induction false} ResolveMonotone(text: string, a: nat, b: nat)
    requires a <= b <= |text|
    ensures Resolve(text, PositionOf(text, a), 0) <= Resolve(text, PositionOf(text, b), 0)
  {
    var low, high := Resolve(text, PositionOf(text, a), 0), Resolve(text, PositionOf(text, b), 0);
    ResolveFirst(text, PositionOf(text, a), 0, a);
    ResolveFirst(text, PositionOf(text, b), 0, b);
    PositionsAgreeIff(text, a, b);
    if high < low {
      PositionsAgreeIff(text, high, low);
    }
  }

  /** Selecting a range through positions selects exactly that range iff neither end follows a
      carriage return. */
  lemma SelectionIsExactIff(content: Content, start: nat, end: nat)
    requires start <= end <= |content.text|
    ensures SelectRange(content, start, end).Selected() == (start, end)
       <==> !FollowsReturn(content.text, start) && !FollowsReturn(content.text, end)
  {
    ResolveIsExactIff(content.text, start);
    ResolveIsExactIff(content.text, end);
    ResolveMonotone(content.text, start, end);
  }
}
