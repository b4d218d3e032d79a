/** Properties of whole write calls, proved from the one-character step:
    how text lands in a line, what a line feed and a full line do, and what
    truncating characters to bytes does to non-ASCII input. */
module WriteProperties {
  import opened Vga
  import opened Console

  /** No character of `s` truncates to the line feed byte. */
  predicate NoLineFeed(s: string) {
    forall k :: 0 <= k < |s| ==> Truncate(s[k]) != LineFeed
  }

  /** The loop over `s + t` is the loop over `s` followed by the loop over `t`. */
  lemma {:induction false} RunAppend(d: Display, s: string, t: string, color: Color)
    requires d.Valid()
    ensures Run(d, s + t, color) == Run(Run(d, s, color), t, color)
    decreases |t|
  {
    if |t| == 0 {
      assert s + t == s;
    } else {
      var front := t[..|t| - 1];
      assert (s + t)[..|s + t| - 1] == s + front;
      assert (s + t)[|s + t| - 1] == t[|t| - 1];
      RunAppend(d, s, front, color);
    }
  }

  /** Dropping the end of a text keeps it free of line feeds. */
  lemma NoLineFeedPrefix(s: string, n: nat)
    requires NoLineFeed(s) && n <= |s|
    ensures NoLineFeed(s[..n])
  {
    forall k | 0 <= k < n ensures Truncate(s[..n][k]) != LineFeed {
      assert s[..n][k] == s[k];
    }
  }

  /** Text without line feeds that fits in the rest of the line leaves the
      cursor just after it on the same line. */
  lemma {:induction false} RunSegmentCursor(d: Display, s: string, color: Color)
    requires d.Valid() && NoLineFeed(s) && d.cursor.column + |s| <= Width
    ensures Run(d, s, color).cursor == Cursor(d.cursor.line, d.cursor.column + |s|)
    decreases |s|
  {
    if |s| != 0 {
      var front, last := s[..|s| - 1], s[|s| - 1];
      NoLineFeedPrefix(s, |s| - 1);
      RunSegmentCursor(d, front, color);
      StepDraws(Run(d, front, color), last, color);
    }
  }

  /** Under the same conditions no byte outside the cells from the cursor to
      the end of the text changes. */
  lemma {:induction false} RunSegment(d: Display, s: string, color: Color)
    requires d.Valid() && NoLineFeed(s) && d.cursor.column + |s| <= Width
    ensures forall o {:trigger Run(d, s, color).vga[o]} :: 0 <= o < BufferSize && !(Offset(d.cursor.line, d.cursor.column) <= o < Offset(d.cursor.line, d.cursor.column) + 2 * |s|) ==>
      Run(d, s, color).vga[o] == d.vga[o]
    decreases |s|
  {
    if |s| != 0 {
      var front, last := s[..|s| - 1], s[|s| - 1];
      NoLineFeedPrefix(s, |s| - 1);
      RunSegmentCursor(d, front, color);
      RunSegment(d, front, color);
      StepDraws(Run(d, front, color), last, color);
    }
  }

  /** Under the same conditions, the k-th character of the text is drawn,
      sanitised and in the given colour, k cells right of the cursor. */
  lemma {:induction false} RunSegmentCell(d: Display, s: string, color: Color, k: nat)
    requires d.Valid() && NoLineFeed(s) && d.cursor.column + |s| <= Width
    requires k < |s|
    ensures Glyph(Run(d, s, color).vga, d.cursor.line, d.cursor.column + k) == Sanitize(Truncate(s[k]))
    ensures Attribute(Run(d, s, color).vga, d.cursor.line, d.cursor.column + k) == Code(color)
    decreases |s|
  {
    var front, last := s[..|s| - 1], s[|s| - 1];
    NoLineFeedPrefix(s, |s| - 1);
    RunSegmentCursor(d, front, color);
    StepDraws(Run(d, front, color), last, color);
    if k < |front| {
      RunSegmentCell(d, front, color, k);
      assert front[k] == s[k];
    }
  }

  /** A character met when the line is already full is lost: it only moves the
      cursor to the next line. Writing 81 characters from the start of a line
      draws the first 80 across that line and nothing else. */
  lemma {:induction false} FullLineDropsNext(d: Display, s: string, color: Color)
    requires d.Valid() && d.cursor.column == 0 && d.cursor.line + 1 < Height
    requires |s| == Width + 1 && NoLineFeed(s[..Width])
    ensures Run(d, s, color).cursor == Cursor(d.cursor.line + 1, 0)
    ensures Run(d, s, color).vga == Run(d, s[..Width], color).vga
    ensures forall k :: 0 <= k < Width ==> Glyph(Run(d, s, color).vga, d.cursor.line, k) == Sanitize(Truncate(s[k]))
  {
    var front := s[..Width];
    RunSegmentCursor(d, front, color);
    assert Run(d, s, color) == Step(Run(d, front, color), s[Width], color);
    StepDrops(Run(d, front, color), s[Width], color);
    forall k | 0 <= k < Width
      ensures Glyph(Run(d, s, color).vga, d.cursor.line, k) == Sanitize(Truncate(s[k]))
    {
      RunSegmentCell(d, front, color, k);
      assert front[k] == s[k];
    }
  }

  /** One call with text that fits in the rest of the line and has no line
      feed: the text is drawn on the cursor's line and the cursor moves to the
      start of the next line. On the last line the trailing `new_line` clears
      the screen at once, so the text just drawn is wiped. */
  lemma {:induction false} WriteShortLine(d: Display, s: string, color: Color)
    requires d.Valid() && NoLineFeed(s) && d.cursor.column + |s| <= Width
    ensures d.cursor.line + 1 < Height ==> WriteText(d, s, color).cursor == Cursor(d.cursor.line + 1, 0)
    ensures d.cursor.line + 1 < Height ==> forall k :: 0 <= k < |s| ==>
      && Glyph(WriteText(d, s, color).vga, d.cursor.line, d.cursor.column + k) == Sanitize(Truncate(s[k]))
      && Attribute(WriteText(d, s, color).vga, d.cursor.line, d.cursor.column + k) == Code(color)
    ensures d.cursor.line + 1 == Height ==> WriteText(d, s, color) == Cleared
  {
    var mid := Run(d, s, color);
    var r := WriteText(d, s, color);
    assert r == NewLine(mid);
    RunSegmentCursor(d, s, color);
    if d.cursor.line + 1 < Height {
      assert r.vga == mid.vga;
      forall k | 0 <= k < |s|
        ensures Glyph(r.vga, d.cursor.line, d.cursor.column + k) == Sanitize(Truncate(s[k]))
        ensures Attribute(r.vga, d.cursor.line, d.cursor.column + k) == Code(color)
      {
        RunSegmentCell(d, s, color, k);
      }
    }
  }

  /** The loop over a lone line feed is exactly one `new_line`. */
  lemma {:induction false} RunLineFeed(d: Display, color: Color)
    requires d.Valid()
    ensures Run(d, "\n", color) == NewLine(d)
  {
    assert "\n"[..0] == "";
  }

  /** The loop over text with a line feed in it is the loop over the part
      before, one `new_line`, then the loop over the part after. */
  lemma {:induction false} RunAcrossLineFeed(d: Display, s: string, t: string, color: Color)
    requires d.Valid()
    ensures Run(d, s + "\n" + t, color) == Run(NewLine(Run(d, s, color)), t, color)
  {
    RunAppend(d, s, "\n", color);
    RunAppend(d, s + "\n", t, color);
    RunLineFeed(Run(d, s, color), color);
  }

  /** Drawing text on a line leaves every cell of the lines above it as it was. */
  lemma {:induction false} SegmentKeepsEarlierLines(d: Display, s: string, color: Color, line: nat, column: nat)
    requires d.Valid() && NoLineFeed(s) && d.cursor.column + |s| <= Width
    requires line < d.cursor.line && column < Width
    ensures Glyph(Run(d, s, color).vga, line, column) == Glyph(d.vga, line, column)
    ensures Attribute(Run(d, s, color).vga, line, column) == Attribute(d.vga, line, column)
  {
    assert Offset(line, column) + 1 < Offset(d.cursor.line, d.cursor.column);
    RunSegment(d, s, color);
  }

  /** A `new_line` followed by text that fits the next line leaves every cell
      of the line the cursor was on as it was. */
  lemma {:induction false} NewLineKeepsCell(d: Display, t: string, color: Color, column: nat)
    requires d.Valid() && d.cursor.line + 1 < Height
    requires NoLineFeed(t) && |t| <= Width && column < Width
    ensures Glyph(Run(NewLine(d), t, color).vga, d.cursor.line, column) == Glyph(d.vga, d.cursor.line, column)
    ensures Attribute(Run(NewLine(d), t, color).vga, d.cursor.line, column) == Attribute(d.vga, d.cursor.line, column)
  {
    SegmentKeepsEarlierLines(NewLine(d), t, color, d.cursor.line, column);
  }

  /** After a `new_line` and more text on the next line, a character drawn on
      the earlier line is still there. */
  lemma {:induction false} FirstSegmentSurvives(d: Display, s: string, t: string, color: Color, k: nat)
    requires d.Valid() && d.cursor.line + 1 < Height
    requires NoLineFeed(s) && NoLineFeed(t)
    requires d.cursor.column + |s| <= Width && |t| <= Width
    requires k < |s|
    ensures Glyph(Run(NewLine(Run(d, s, color)), t, color).vga, d.cursor.line, d.cursor.column + k) == Sanitize(Truncate(s[k]))
  {
    RunSegmentCursor(d, s, color);
    NewLineKeepsCell(Run(d, s, color), t, color, d.cursor.column + k);
    RunSegmentCell(d, s, color, k);
  }

  /** After a `new_line`, the k-th character of the text that follows is
      drawn k cells from the start of the next line. */
  lemma {:induction false} SecondSegmentDrawn(d: Display, s: string, t: string, color: Color, k: nat)
    requires d.Valid() && d.cursor.line + 1 < Height
    requires NoLineFeed(s) && NoLineFeed(t)
    requires d.cursor.column + |s| <= Width && |t| <= Width
    requires k < |t|
    ensures Glyph(Run(NewLine(Run(d, s, color)), t, color).vga, d.cursor.line + 1, k) == Sanitize(Truncate(t[k]))
  {
    RunSegmentCursor(d, s, color);
    RunSegmentCell(NewLine(Run(d, s, color)), t, color, k);
  }

  /** Two pieces of text, each fitting its line, with one `new_line` between
      them: the first is drawn from the cursor, the second from the start of
      the next line. */
  lemma {:induction false} TwoSegments(d: Display, s: string, t: string, color: Color)
    requires d.Valid() && d.cursor.line + 1 < Height
    requires NoLineFeed(s) && NoLineFeed(t)
    requires d.cursor.column + |s| <= Width && |t| <= Width
    ensures Run(NewLine(Run(d, s, color)), t, color).cursor == Cursor(d.cursor.line + 1, |t|)
    ensures forall k :: 0 <= k < |s| ==>
      Glyph(Run(NewLine(Run(d, s, color)), t, color).vga, d.cursor.line, d.cursor.column + k) == Sanitize(Truncate(s[k]))
    ensures forall k :: 0 <= k < |t| ==>
      Glyph(Run(NewLine(Run(d, s, color)), t, color).vga, d.cursor.line + 1, k) == Sanitize(Truncate(t[k]))
  {
    RunSegmentCursor(d, s, color);
    RunSegmentCursor(NewLine(Run(d, s, color)), t, color);
    forall k | 0 <= k < |s|
      ensures Glyph(Run(NewLine(Run(d, s, color)), t, color).vga, d.cursor.line, d.cursor.column + k) == Sanitize(Truncate(s[k]))
    {
      FirstSegmentSurvives(d, s, t, color, k);
    }
    forall k | 0 <= k < |t|
      ensures Glyph(Run(NewLine(Run(d, s, color)), t, color).vga, d.cursor.line + 1, k) == Sanitize(Truncate(t[k]))
    {
      SecondSegmentDrawn(d, s, t, color, k);
    }
  }

  /** After a `new_line` and more text on the next line, a character drawn on
      the earlier line keeps the colour it was drawn in. */
  lemma {:induction false} FirstSegmentKeepsColor(d: Display, s: string, t: string, color: Color, column: nat)
    requires d.Valid() && d.cursor.line + 1 < Height
    requires NoLineFeed(s) && NoLineFeed(t)
    requires d.cursor.column + |s| <= Width && |t| <= Width
    requires d.cursor.column <= column < d.cursor.column + |s|
    ensures Attribute(Run(NewLine(Run(d, s, color)), t, color).vga, d.cursor.line, column) == Code(color)
  {
    RunSegmentCursor(d, s, color);
    NewLineKeepsCell(Run(d, s, color), t, color, column);
    RunSegmentCell(d, s, color, column - d.cursor.column);
  }

  /** After a `new_line`, the text that follows is drawn in the given colour
      from the start of the next line. */
  lemma {:induction false} SecondSegmentColor(d: Display, s: string, t: string, color: Color, column: nat)
    requires d.Valid() && d.cursor.line + 1 < Height
    requires NoLineFeed(s) && NoLineFeed(t)
    requires d.cursor.column + |s| <= Width && |t| <= Width
    requires column < |t|
    ensures Attribute(Run(NewLine(Run(d, s, color)), t, color).vga, d.cursor.line + 1, column) == Code(color)
  {
    RunSegmentCursor(d, s, color);
    RunSegmentCell(NewLine(Run(d, s, color)), t, color, column);
  }

  /** In the setting of `TwoSegments`, both texts are drawn in the given
      colour. */
  lemma {:induction false} TwoSegmentsColor(d: Display, s: string, t: string, color: Color)
    requires d.Valid() && d.cursor.line + 1 < Height
    requires NoLineFeed(s) && NoLineFeed(t)
    requires d.cursor.column + |s| <= Width && |t| <= Width
    ensures forall column: nat :: d.cursor.column <= column < d.cursor.column + |s| ==>
      Attribute(Run(NewLine(Run(d, s, color)), t, color).vga, d.cursor.line, column) == Code(color)
    ensures forall line: nat, column: nat :: line == d.cursor.line + 1 && column < |t| ==>
      Attribute(Run(NewLine(Run(d, s, color)), t, color).vga, line, column) == Code(color)
  {
    forall column: nat | d.cursor.column <= column < d.cursor.column + |s|
      ensures Attribute(Run(NewLine(Run(d, s, color)), t, color).vga, d.cursor.line, column) == Code(color)
    {
      FirstSegmentKeepsColor(d, s, t, color, column);
    }
    forall line: nat, column: nat | line == d.cursor.line + 1 && column < |t|
      ensures Attribute(Run(NewLine(Run(d, s, color)), t, color).vga, line, column) == Code(color)
    {
      SecondSegmentColor(d, s, t, color, column);
    }
  }

  /** With one `new_line` between two texts that each fit, no byte outside
      the cells the two texts are drawn in changes. */
  lemma {:induction false} TwoSegmentsFrame(d: Display, s: string, t: string, color: Color)
    requires d.Valid() && d.cursor.line + 1 < Height
    requires NoLineFeed(s) && NoLineFeed(t)
    requires d.cursor.column + |s| <= Width && |t| <= Width
    ensures forall o {:trigger Run(NewLine(Run(d, s, color)), t, color).vga[o]} ::
      (&& 0 <= o < BufferSize
       && !(Offset(d.cursor.line, d.cursor.column) <= o < Offset(d.cursor.line, d.cursor.column) + 2 * |s|)
       && !(Offset(d.cursor.line + 1, 0) <= o < Offset(d.cursor.line + 1, 0) + 2 * |t|)) ==>
      Run(NewLine(Run(d, s, color)), t, color).vga[o] == d.vga[o]
  {
    RunSegmentCursor(d, s, color);
    RunSegment(d, s, color);
    RunSegment(NewLine(Run(d, s, color)), t, color);
  }

  /** A line feed between two pieces of text puts the second at the start of
      the next line. The line feed itself is drawn nowhere: the cell after the
      first text, and every other byte outside the two texts, keeps its old
      contents. */
  lemma {:induction false} LineFeedSplits(d: Display, s: string, t: string, color: Color)
    requires d.Valid() && d.cursor.line + 2 < Height
    requires NoLineFeed(s) && NoLineFeed(t)
    requires d.cursor.column + |s| <= Width && |t| <= Width
    ensures WriteText(d, s + "\n" + t, color).cursor == Cursor(d.cursor.line + 2, 0)
    ensures forall k :: 0 <= k < |s| ==>
      Glyph(WriteText(d, s + "\n" + t, color).vga, d.cursor.line, d.cursor.column + k) == Sanitize(Truncate(s[k]))
    ensures forall k :: 0 <= k < |t| ==>
      Glyph(WriteText(d, s + "\n" + t, color).vga, d.cursor.line + 1, k) == Sanitize(Truncate(t[k]))
    ensures forall column: nat :: d.cursor.column <= column < d.cursor.column + |s| ==>
      Attribute(WriteText(d, s + "\n" + t, color).vga, d.cursor.line, column) == Code(color)
    ensures forall line: nat, column: nat :: line == d.cursor.line + 1 && column < |t| ==>
      Attribute(WriteText(d, s + "\n" + t, color).vga, line, column) == Code(color)
    ensures d.cursor.column + |s| < Width ==>
      && Glyph(WriteText(d, s + "\n" + t, color).vga, d.cursor.line, d.cursor.column + |s|) == Glyph(d.vga, d.cursor.line, d.cursor.column + |s|)
      && Attribute(WriteText(d, s + "\n" + t, color).vga, d.cursor.line, d.cursor.column + |s|) == Attribute(d.vga, d.cursor.line, d.cursor.column + |s|)
    ensures forall o {:trigger WriteText(d, s + "\n" + t, color).vga[o]} ::
      (&& 0 <= o < BufferSize
       && !(Offset(d.cursor.line, d.cursor.column) <= o < Offset(d.cursor.line, d.cursor.column) + 2 * |s|)
       && !(Offset(d.cursor.line + 1, 0) <= o < Offset(d.cursor.line + 1, 0) + 2 * |t|)) ==>
      WriteText(d, s + "\n" + t, color).vga[o] == d.vga[o]
  {
    RunAcrossLineFeed(d, s, t, color);
    TwoSegments(d, s, t, color);
    TwoSegmentsColor(d, s, t, color);
    TwoSegmentsFrame(d, s, t, color);
  }

  /** When the cursor starts on the second-to-last line, the text after the
      line feed lands on the last line, and the trailing `new_line` then
      clears the screen: the call leaves the cleared state. */
  lemma {:induction false} LineFeedSplitsOnLastLines(d: Display, s: string, t: string, color: Color)
    requires d.Valid() && d.cursor.line + 2 == Height
    requires NoLineFeed(s) && NoLineFeed(t)
    requires d.cursor.column + |s| <= Width && |t| <= Width
    ensures WriteText(d, s + "\n" + t, color) == Cleared
  {
    RunAcrossLineFeed(d, s, t, color);
    RunSegmentCursor(d, s, color);
    RunSegmentCursor(NewLine(Run(d, s, color)), t, color);
  }

  /** A step sees only the low byte of the character's code point: two
      characters whose code points agree modulo 256 have the same effect. */
  lemma StepSeesLowByteOnly(d: Display, c: char, e: char, color: Color)
    requires d.Valid() && (c as int) % 256 == (e as int) % 256
    ensures Step(d, c, color) == Step(d, e, color)
  {
  }

  /** `c as u8` keeps only the low byte of the code point, so characters
      outside ASCII alias ASCII bytes: U+0141 is drawn as the letter `A`,
      and U+010A acts as a line feed and moves to the next line. */
  lemma TruncationAliases(d: Display, color: Color)
    requires d.Valid() && d.cursor.column < Width
    ensures Glyph(Step(d, '\U{0141}', color).vga, d.cursor.line, d.cursor.column) == 'A' as int
    ensures Step(d, '\U{010A}', color) == NewLine(d)
  {
  }
}
