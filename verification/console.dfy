/** The `Console` cursor state machine and its per-character write loops.

    The struct's two private fields are the cursor; the text buffer it draws on
    is global hardware, so the model threads both through every operation as
    one `Display` value. */
module Console {
  import opened Vga

  /** The fields of `Console`: the line and column the next character goes to. */
  datatype Cursor = Cursor(line: nat, column: nat) {
    /** Kept by every operation: the line is on the screen and the column has
        gone at most one past the last cell. */
    predicate Valid() {
      line < Height && column <= Width
    }
  }

  /** A console together with the text buffer it writes to. */
  datatype Display = Display(cursor: Cursor, vga: Screen) {
    predicate Valid() {
      cursor.Valid()
    }
  }

  /** The line feed byte, which moves to the next line instead of being drawn. */
  const LineFeed: Byte := 0x0A

  /** The state `clear` and `new` leave: blank screen, cursor at the top left. */
  const Cleared: Display := Display(Cursor(0, 0), BlankScreen())

  /** `c as u8`: keep the low eight bits of the code point. */
  function Truncate(c: char): (b: Byte)
    ensures (c as int) < 256 ==> b == c as int
  {
    (c as int) % 256
  }

  /** `new_line`: reset the column and advance the line, clearing the whole
      screen (not scrolling it) when the line would fall off the bottom. */
  function NewLine(d: Display): (r: Display)
    ensures r.Valid() && r.cursor.column == 0
    ensures d.cursor.line + 1 < Height ==> r.cursor.line == d.cursor.line + 1 && r.vga == d.vga
    ensures d.cursor.line + 1 >= Height ==> r == Cleared
  {
    var moved := Cursor(d.cursor.line + 1, 0);
    if moved.line >= Height then Cleared else Display(moved, d.vga)
  }

  /** One iteration of the loop of `write_line_colored`: a line feed, or any
      character met once the line is full, runs `new_line` and is not drawn;
      any other character is drawn at the cursor, which moves one column on. */
  function Step(d: Display, c: char, color: Color): (r: Display)
    requires d.Valid()
    ensures r.Valid()
  {
    var byte := Truncate(c);
    if byte == LineFeed || d.cursor.column >= Width then
      NewLine(d)
    else
      Display(Cursor(d.cursor.line, d.cursor.column + 1),
              WriteToScreen(d.vga, byte, d.cursor.line, d.cursor.column, color))
  }

  /** A line feed, or any character met once the column has reached 80, is
      dropped: the step is exactly one `new_line` and draws no cell. */
  lemma StepDrops(d: Display, c: char, color: Color)
    requires d.Valid() && (Truncate(c) == LineFeed || d.cursor.column >= Width)
    ensures Step(d, c, color) == NewLine(d)
  {
  }

  /** Any other character is drawn, sanitised and in the given colour, in the
      cell under the cursor; the cursor moves one column right and no other
      cell changes. */
  lemma StepDraws(d: Display, c: char, color: Color)
    requires d.Valid() && Truncate(c) != LineFeed && d.cursor.column < Width
    ensures Step(d, c, color).cursor == Cursor(d.cursor.line, d.cursor.column + 1)
    ensures Glyph(Step(d, c, color).vga, d.cursor.line, d.cursor.column) == Sanitize(Truncate(c))
    ensures Attribute(Step(d, c, color).vga, d.cursor.line, d.cursor.column) == Code(color)
    ensures forall k {:trigger Step(d, c, color).vga[k]} :: 0 <= k < BufferSize && k != Offset(d.cursor.line, d.cursor.column) && k != Offset(d.cursor.line, d.cursor.column) + 1 ==>
      Step(d, c, color).vga[k] == d.vga[k]
  {
  }

  /** The loop of `write_line_colored` over the characters of `s`, before the
      final `new_line`; every prefix leaves a valid cursor behind. */
  function Run(d: Display, s: string, color: Color): (r: Display)
    requires d.Valid()
    ensures r.Valid()
    decreases |s|
  {
    if |s| == 0 then d else Step(Run(d, s[..|s| - 1], color), s[|s| - 1], color)
  }

  /** Extending the text by one character adds one step to the loop. */
  lemma RunSnoc(d: Display, s: string, i: nat, color: Color)
    requires d.Valid() && i < |s|
    ensures Run(d, s[..i + 1], color) == Step(Run(d, s[..i], color), s[i], color)
  {
    assert s[..i + 1][..i] == s[..i];
  }

  /** The whole of `write_line_colored`: the loop, then one `new_line`. */
  function WriteText(d: Display, s: string, color: Color): (r: Display)
    requires d.Valid()
    ensures r.Valid() && r.cursor.column == 0
  {
    NewLine(Run(d, s, color))
  }

  /** `Console::new`: blank the screen and start at the top left. */
  method New(vga: Screen) returns (r: Display)
    ensures r.Valid()
    ensures r == Cleared
  {
    var blank := ClearScreen(vga);
    r := Display(Cursor(0, 0), blank);
  }

  /** `Console::clear`: whatever the state, the result is the cleared state, so
      clearing twice is the same as clearing once. */
  method Clear(d: Display) returns (r: Display)
    ensures r.Valid()
    ensures r == Cleared
  {
    var blank := ClearScreen(d.vga);
    r := Display(Cursor(0, 0), blank);
  }

  /** `write_line_colored`. The cursor is valid throughout, the column is below
      the width at every drawn character, and the call ends at column 0. */
  method WriteLineColored(d: Display, s: string, color: Color) returns (r: Display)
    requires d.Valid()
    ensures r == WriteText(d, s, color)
    ensures r.cursor.line < Height && r.cursor.column == 0
  {
    r := d;
    for i := 0 to |s|
      invariant r == Run(d, s[..i], color)
    {
      RunSnoc(d, s, i, color);
      var byte := Truncate(s[i]);
      if byte == LineFeed || r.cursor.column >= Width {
        r := NewLine(r);
        continue;
      }
      r := Display(Cursor(r.cursor.line, r.cursor.column + 1),
                   WriteToScreen(r.vga, byte, r.cursor.line, r.cursor.column, color));
    }
    assert s[..|s|] == s;
    r := NewLine(r);
  }

  /** On a valid cursor below the last column, the reductions `write_line`
      applies change nothing. */
  lemma ReductionsAreIdentities(c: Cursor)
    requires c.Valid() && c.column < Width
    ensures c.line % 25 == c.line && c.column % 80 == c.column
  {
  }

  /** `write_line`: the same loop in White, reducing the line modulo 25 and the
      column modulo 80 before each write. Because the cursor is valid and the
      column is below 80 at every write, both reductions are identities, and
      the result is exactly that of `write_line_colored` in White. */
  method WriteLine(d: Display, s: string) returns (r: Display)
    requires d.Valid()
    ensures r == WriteText(d, s, White)
    ensures r.cursor.line < Height && r.cursor.column == 0
  {
    r := d;
    for i := 0 to |s|
      invariant r == Run(d, s[..i], White)
    {
      RunSnoc(d, s, i, White);
      var byte := Truncate(s[i]);
      if byte == LineFeed || r.cursor.column >= Width {
        r := NewLine(r);
        continue;
      }
      ReductionsAreIdentities(r.cursor);
      r := Display(Cursor(r.cursor.line, r.cursor.column + 1),
                   WriteToScreen(r.vga, byte, r.cursor.line % 25, r.cursor.column % 80, White));
    }
    assert s[..|s|] == s;
    r := NewLine(r);
  }
}
