/** The VGA text-mode buffer and the free functions of the console driver that
    touch it: the colour palette, the byte sanitiser, the cell offset
    computation, the single-cell write and the whole-screen blanking loop.

    The memory-mapped region at physical address 0xb8000 is modelled as a
    value: a sequence of exactly 4000 bytes, 80 columns by 25 lines, two bytes
    per cell (the character byte, then the attribute byte). */
module Vga {

  /** An unsigned 8-bit value. */
  type Byte = b: int | 0 <= b < 256

  /** Columns per line. */
  const Width: nat := 80
  /** Lines on the screen. */
  const Height: nat := 25
  /** Bytes in the whole text buffer. */
  const BufferSize: nat := 4000

  /** Character stored in a blank cell. */
  const Space: Byte := 0x20
  /** Glyph stored in place of any byte outside printable ASCII. */
  const Placeholder: Byte := 0xfe

  /** The contents of the text buffer. */
  type Screen = s: seq<Byte> | |s| == BufferSize witness seq(BufferSize, _ => 0)

  /** The 16 text colours, in discriminant order. */
  datatype Color =
    | Black | Blue | Green | Cyan | Red | Magenta | Brown | LightGray
    | DarkGray | LightBlue | LightGreen | LightCyan | LightRed | Pink | Yellow | White

  /** The discriminant of a colour, which is the byte stored as a cell's attribute. */
  function Code(c: Color): (d: Byte)
    ensures d < 16
  {
    match c
    case Black => 0
    case Blue => 1
    case Green => 2
    case Cyan => 3
    case Red => 4
    case Magenta => 5
    case Brown => 6
    case LightGray => 7
    case DarkGray => 8
    case LightBlue => 9
    case LightGreen => 10
    case LightCyan => 11
    case LightRed => 12
    case Pink => 13
    case Yellow => 14
    case White => 15
  }

  /** The colour whose discriminant is `d`. */
  function FromCode(d: Byte): Color
    requires d < 16
  {
    [Black, Blue, Green, Cyan, Red, Magenta, Brown, LightGray,
     DarkGray, LightBlue, LightGreen, LightCyan, LightRed, Pink, Yellow, White][d]
  }

  /** Distinct colours have distinct discriminants: the attribute byte names the colour. */
  lemma CodeRoundTrip(c: Color)
    ensures FromCode(Code(c)) == c
  {
  }

  /** Every value 0..15 is the discriminant of some colour. */
  lemma FromCodeRoundTrip(d: Byte)
    requires d < 16
    ensures Code(FromCode(d)) == d
  {
  }

  predicate Printable(b: Byte) {
    0x20 <= b <= 0x7e
  }

  /** The substitution `write_to_screen` applies before storing a character byte. */
  function Sanitize(b: Byte): (r: Byte)
    ensures Printable(b) ==> r == b
    ensures !Printable(b) ==> r == Placeholder
  {
    if Printable(b) then b else Placeholder
  }

  /** What `write_to_screen` stores is either printable or the placeholder, and
      sanitising it again changes nothing. */
  lemma SanitizeIdempotent(b: Byte)
    ensures Printable(Sanitize(b)) || Sanitize(b) == Placeholder
    ensures Sanitize(Sanitize(b)) == Sanitize(b)
  {
  }

  /** Byte offset of the character byte of cell (`line`, `column`): each line
      takes 160 bytes, a character byte and an attribute byte per column. The
      factor is written as a literal so that the solver sees linear arithmetic. */
  function Offset(line: nat, column: nat): (o: nat)
    ensures o % 2 == 0
    ensures line < Height && column < Width ==> o + 1 < BufferSize
  {
    line * 160 + column * 2
  }

  /** The line holding byte `k` of the buffer. */
  function LineOf(k: nat): nat {
    k / 160
  }

  /** The column holding byte `k` of the buffer. */
  function ColumnOf(k: nat): nat {
    k % 160 / 2
  }

  /** `Offset` is injective on the screen: a cell's bytes belong to that cell only. */
  lemma OffsetRoundTrip(line: nat, column: nat)
    requires line < Height && column < Width
    ensures LineOf(Offset(line, column)) == line && ColumnOf(Offset(line, column)) == column
    ensures LineOf(Offset(line, column) + 1) == line && ColumnOf(Offset(line, column) + 1) == column
  {
    var o := Offset(line, column);
    assert o == line * 160 + column * 2;
    assert 0 <= column * 2 + 1 < 160;
  }

  /** `Offset` is onto the buffer: every byte is the character or the attribute
      byte of exactly the cell `LineOf`/`ColumnOf` name. */
  lemma CellRoundTrip(k: nat)
    requires k < BufferSize
    ensures LineOf(k) < Height && ColumnOf(k) < Width
    ensures k == Offset(LineOf(k), ColumnOf(k)) + k % 2
  {
    var q, r := k / 160, k % 160;
    assert k == q * 160 + r;
    assert r == 2 * (r / 2) + r % 2;
    assert r % 2 == k % 2;
  }

  /** The character byte of cell (`line`, `column`). */
  function Glyph(vga: Screen, line: nat, column: nat): Byte
    requires line < Height && column < Width
  {
    vga[Offset(line, column)]
  }

  /** The attribute byte of cell (`line`, `column`). */
  function Attribute(vga: Screen, line: nat, column: nat): Byte
    requires line < Height && column < Width
  {
    vga[Offset(line, column) + 1]
  }

  /** `write_to_screen`: store the sanitised byte and the colour in one cell.
      The source performs no bounds check, so the cell must be on the screen. */
  function WriteToScreen(vga: Screen, byte: Byte, line: nat, column: nat, color: Color): (r: Screen)
    requires line < Height && column < Width
    ensures Glyph(r, line, column) == Sanitize(byte)
    ensures Attribute(r, line, column) == Code(color)
    ensures forall k {:trigger r[k]} :: 0 <= k < BufferSize && k != Offset(line, column) && k != Offset(line, column) + 1 ==> r[k] == vga[k]
  {
    var o := Offset(line, column);
    vga[o := Sanitize(byte)][o + 1 := Code(color)]
  }

  /** The screen with a space in White in every cell. */
  function BlankScreen(): Screen {
    seq(BufferSize, k => if k % 2 == 0 then Space else Code(White))
  }

  /** Cell (`line`, `column`) holds a space in White. */
  predicate BlankCell(vga: Screen, line: nat, column: nat)
    requires line < Height && column < Width
  {
    Glyph(vga, line, column) == Space && Attribute(vga, line, column) == Code(White)
  }

  /** `clear_screen`: the column-major double loop writing a White space to every
      cell. Whatever the screen held before, the result is the blank screen. */
  method ClearScreen(vga: Screen) returns (r: Screen)
    ensures forall line: nat, column: nat :: line < Height && column < Width ==> BlankCell(r, line, column)
    ensures r == BlankScreen()
  {
    r := vga;
    for i := 0 to Width
      invariant forall line: nat, column: nat :: line < Height && column < i ==> BlankCell(r, line, column)
    {
      for j := 0 to Height
        invariant forall line: nat, column: nat ::
          line < Height && column < Width && (column < i || (column == i && line < j)) ==> BlankCell(r, line, column)
      {
        var before := r;
        r := WriteToScreen(r, Space, j, i, White);
        forall line: nat, column: nat | line < Height && column < Width && (column < i || (column == i && line < j + 1))
          ensures BlankCell(r, line, column)
        {
          if line != j || column != i {
            OffsetRoundTrip(line, column);
            OffsetRoundTrip(j, i);
            assert BlankCell(before, line, column);
          }
        }
      }
    }
    forall k | 0 <= k < BufferSize
      ensures r[k] == BlankScreen()[k]
    {
      var line, column := LineOf(k), ColumnOf(k);
      CellRoundTrip(k);
      assert BlankCell(r, line, column);
      if k % 2 == 0 {
        assert r[k] == Glyph(r, line, column) == Space;
      } else {
        assert r[k] == Attribute(r, line, column) == Code(White);
      }
    }
  }
}
