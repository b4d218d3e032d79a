# VGA text-mode console, modelled in Dafny

This project models the console driver of a small bare-metal Rust kernel
(`src/console.rs`). The driver writes text straight into the VGA text buffer:
80 columns by 25 lines, two bytes per cell (the character byte, then the
colour byte). It has four parts, and the model follows them:

- `write_to_screen` computes the offset `line * 160 + column * 2`. It stores
  the character byte there, replacing anything outside printable ASCII
  (0x20..=0x7e) with 0xfe, and stores the colour's discriminant one byte
  further on. It performs no bounds check.
- `clear_screen` runs a column-major double loop that writes a White space
  to every cell.
- `Console { line, column }` is a cursor. `new_line` moves it to the start of
  the next line. When that would be line 25, it clears the whole screen and
  goes back to the top left instead. `clear` and `new` blank the screen and
  reset the cursor.
- `write_line_colored` and `write_line` truncate every `char` to a `u8`.
  A line feed byte, or any character met once the column has reached 80, runs
  `new_line` and is not drawn. Every other character is drawn at the cursor,
  which moves one column on. Each call ends with one more `new_line`.
  `write_line` is the same loop in White. It reduces the line modulo 25 and the
  column modulo 80 before each write.

Modules:

- `Vga` (`vga.dfy`): the buffer as a 4000-byte sequence, the palette, the
  sanitiser, the cell offset with its inverse, `write_to_screen` and
  `clear_screen`.
- `Console` (`console.dfy`): the cursor, `new_line`, one iteration of the write
  loop (`Step`), and the loop as a left fold (`Run`). It also has the two write
  methods, whose loop invariant ties them to that fold, plus `new` and `clear`.
- `WriteProperties` (`properties.dfy`): what whole writes do. This covers text
  that fits a line, a full line, a line feed between two texts, and the effect
  of truncating code points to bytes.

The hardware buffer is global memory in the source. The model threads it
through every operation as a value, together with the cursor (`Display`).
`Display.Valid()` (line below 25, column at most 80) is the invariant that
every public operation keeps. Operations that need it take it as a
precondition.

Behaviours of the driver worth knowing, each stated by the model:

- When `new_line` reaches line 25 it clears the screen; it does not scroll.
- The colour byte holds the colour's discriminant alone (0..15).
- The cursor is a (line, column) pair.
- A `char` is truncated to its low byte before it is sanitised, so a
  non-ASCII character is not always stored as 0xfe: U+0141 is drawn as `A`
  and U+010A acts as a line feed (`WriteProperties.TruncationAliases`).
- Eighty characters fill a line and the trailing `new_line` moves to the
  next one. An 81st character on a full line is not drawn: it is consumed by
  the `new_line` it triggers (`WriteProperties.FullLineDropsNext`).

## Model

| member | source | states |
|---|---|---|
| Vga.Code | src/console.rs:6-23 | the attribute byte of a colour is its discriminant, always below 16 |
| Vga.CodeRoundTrip | src/console.rs:6-23 | distinct colours have distinct discriminants: the colour can be recovered from the attribute byte |
| Vga.FromCodeRoundTrip | src/console.rs:6-23 | every value 0..15 is the discriminant of some colour |
| Vga.Sanitize | src/console.rs:86-89 | a byte in 0x20..=0x7e is kept, and any other byte becomes 0xfe |
| Vga.SanitizeIdempotent | src/console.rs:86-89 | the stored character byte is always printable or 0xfe, and sanitising it again changes nothing |
| Vga.Offset | src/console.rs:84 | a cell's offset is even, and for line < 25 and column < 80 both of its bytes lie below 4000 |
| Vga.OffsetRoundTrip | src/console.rs:84 | line and column can be recovered from both bytes of a cell, so distinct cells never share a byte |
| Vga.CellRoundTrip | src/console.rs:84 | every byte of the buffer is the character or the attribute byte of some on-screen cell |
| Vga.WriteToScreen | src/console.rs:82-94 | the cell gets the sanitised byte and the colour's discriminant, and every other byte of the buffer is unchanged; the cell must be on the screen |
| Vga.ClearScreen | src/console.rs:96-101 | whatever the buffer held, every cell ends as a White space, so even offsets hold 0x20 and odd ones 15 |
| Console.Truncate | src/console.rs:37 | `c as u8` leaves code points below 256 unchanged |
| Console.NewLine | src/console.rs:65-72 | column becomes 0; below the last line the line advances and the buffer is untouched, otherwise the result is the cleared state; the cursor stays valid |
| Console.Step | src/console.rs:52-60 | one loop iteration keeps line < 25 and column <= 80 |
| Console.StepDrops | src/console.rs:53-56 | a line feed byte, or any character at column >= 80, is exactly one `new_line` and draws nothing |
| Console.StepDraws | src/console.rs:58-59 | any other character is drawn sanitised and in the given colour under the cursor, the column advances by one, and no other byte changes |
| Console.Run | src/console.rs:52-60 | the loop keeps the cursor valid after every character |
| Console.WriteText | src/console.rs:51-63 | every call ends at column 0 on an on-screen line |
| Console.New | src/console.rs:31-34 | `new` yields the blank screen with the cursor at the top left |
| Console.Clear | src/console.rs:74-79 | `clear` yields the same state from any state, so clearing twice equals clearing once |
| Console.WriteLineColored | src/console.rs:51-63 | the imperative loop computes the fold of `Step` followed by one `new_line`, and ends at column 0 with line < 25 |
| Console.ReductionsAreIdentities | src/console.rs:44 | on a valid cursor below column 80, `% 25` and `% 80` change nothing |
| Console.WriteLine | src/console.rs:36-49 | `write_line(s)` leaves exactly the cursor and buffer of `write_line_colored(s, White)` |
| WriteProperties.RunAppend | src/console.rs:52-60 | the loop over `s + t` is the loop over `s` followed by the loop over `t` |
| WriteProperties.RunSegmentCursor | src/console.rs:52-60 | text without line feeds that fits the rest of the line leaves the cursor just after it on the same line |
| WriteProperties.RunSegment | src/console.rs:52-60 | such text changes no byte outside the cells from the cursor to its end |
| WriteProperties.RunSegmentCell | src/console.rs:58-59 | the k-th character of such text is drawn, sanitised and in the colour, k cells right of the cursor |
| WriteProperties.FullLineDropsNext | src/console.rs:53-56 | of 81 characters written from column 0, the first 80 fill the line and the 81st, whatever it is, is lost to the `new_line` it triggers |
| WriteProperties.WriteShortLine | src/console.rs:51-72 | one call with text that fits the line draws it there and ends at the next line; on the last line the trailing `new_line` wipes it |
| WriteProperties.RunLineFeed | src/console.rs:53-55 | a lone line feed is exactly one `new_line` |
| WriteProperties.RunAcrossLineFeed | src/console.rs:52-56 | the loop over `s + "\n" + t` is the loop over `s`, one `new_line`, then the loop over `t` |
| WriteProperties.SegmentKeepsEarlierLines | src/console.rs:58 | drawing text leaves every cell of the lines above the cursor unchanged |
| WriteProperties.NewLineKeepsCell | src/console.rs:65-72 | a `new_line` followed by text on the next line leaves both bytes of every cell of the previous line unchanged |
| WriteProperties.FirstSegmentSurvives | src/console.rs:51-60 | a character drawn before a line feed is still on its line after the text that follows it |
| WriteProperties.FirstSegmentKeepsColor | src/console.rs:51-60 | a cell drawn before a line feed still holds the colour after the text that follows it |
| WriteProperties.SecondSegmentDrawn | src/console.rs:52-69 | after a `new_line`, the k-th character of the following text is drawn k cells from the start of the next line |
| WriteProperties.SecondSegmentColor | src/console.rs:52-69 | after a `new_line`, the following text is drawn in the given colour from the start of the next line |
| WriteProperties.TwoSegments | src/console.rs:52-60 | with one `new_line` between two texts that each fit, below the last line, the first is drawn from the cursor and the second from the start of the next line, where the cursor ends just after it |
| WriteProperties.TwoSegmentsColor | src/console.rs:52-60 | in the same setting, every cell of both texts holds the given colour |
| WriteProperties.TwoSegmentsFrame | src/console.rs:52-60 | with one `new_line` between two texts that each fit, no byte outside the cells the two texts occupy changes |
| WriteProperties.LineFeedSplits | src/console.rs:51-63 | written from a line above the second-to-last, `s + "\n" + t` puts `s` on the cursor's line and `t` at the start of the next, both in the given colour, and ends two lines down; the line feed is drawn nowhere: the cell after `s` keeps both its bytes, and no byte outside the two texts changes |
| WriteProperties.LineFeedSplitsOnLastLines | src/console.rs:51-72 | when `s + "\n" + t` is written from the second-to-last line, `t` lands on the last line and the trailing `new_line` clears the screen, leaving the cleared state |
| WriteProperties.StepSeesLowByteOnly | src/console.rs:52 | characters whose code points agree modulo 256 have the same effect |
| WriteProperties.TruncationAliases | src/console.rs:52 | U+0141 is drawn as `A` and U+010A moves to the next line like a line feed |

## Left out

- `src/main.rs` is not part of this model. It holds the entry point, the
  panic handler, a banner and formatted output of a floating-point value.
  It also calls a lock, `write_str` and `write_char`, which the console
  source does not define.
- The raw pointer to 0xb8000, `unsafe` and the volatility of memory-mapped
  I/O are left out. The buffer is a plain 4000-byte value.
- `usize` overflow of `line * 160 + column * 2` and of the cursor fields is
  left out. Every modelled call keeps them far below any machine limit.
- The `isize` cast of the offset is left out for the same reason.
- The `Debug`, `Clone`, `Copy`, `PartialEq` and `Eq` derives on `Color`
  are left out.
- Vga.WriteToScreen: requires an on-screen cell (line < 25, column < 80).
  The source performs no bounds check: a column of 80 or more lands on a cell
  of a later line, and an offset past 3999 leaves the text buffer. Every
  caller in the source passes an on-screen cell: `clear_screen`, the `% 25`
  and `% 80` in `write_line`, and the `column >= 80` test in
  `write_line_colored`.
- Console.Truncate: the contract states only the case below 256. The general
  modulo-256 behaviour is stated about whole steps by
  `WriteProperties.StepSeesLowByteOnly`.
- Console.Step, Console.Run: their contracts state only that the cursor stays
  valid. What a step draws and drops is stated by `Console.StepDraws` and
  `Console.StepDrops`, and what runs of steps do by the `WriteProperties`
  lemmas.
