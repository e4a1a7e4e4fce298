/**
  The screen model: an 80x24 grid of character bytes and colour bytes plus a
  cursor, kept up to date from the terminal emulator's notifications.

  The terminal emulator itself is not part of this model; its cells arrive as
  `TmtChar` values, and its colour constants are those of the libtmt header
  (default -1, black 1, red 2, and 9 for the first out-of-range value).
 */
module Screen {
  import opened NhBot

  const TMT_COLOR_DEFAULT: int := -1
  const TMT_COLOR_BLACK: int := 1
  const TMT_COLOR_RED: int := 2
  const TMT_COLOR_MAX: int := 9

  const VGA_BRIGHT: int := 8
  const VGA_NUM_COLORS: int := 16

  /** The colour recorded when the emulator reports an out-of-range foreground. */
  const SENTINEL_COLOR: byte := 10

  /** A foreground code as the emulator's colour enum can hold it. */
  type ColorCode = x: int | TMT_COLOR_DEFAULT <= x witness -1

  /** One cell as the emulator reports it: a wide character and its attributes. */
  datatype TmtChar = TmtChar(c: nat, fg: ColorCode, bold: bool, reverse: bool)

  /** One line of the emulator's screen with its dirty mark. */
  datatype TmtLine = TmtLine(dirty: bool, chars: seq<TmtChar>)

  /** The grid the bot keeps: characters and colours, row-major, and the cursor. */
  datatype ScreenState = ScreenState(chars: seq<byte>, colors: seq<byte>, cursorRow: int, cursorCol: int)

  predicate Valid(s: ScreenState) {
    |s.chars| == W * H && |s.colors| == W * H
  }

  /** The emulator's screen has the bot's dimensions. */
  predicate WellFormedUpdate(lines: seq<TmtLine>) {
    |lines| == H && forall r :: 0 <= r < H ==> |lines[r].chars| == W
  }

  function CharAt(s: ScreenState, r: int, c: int): byte
    requires Valid(s) && 0 <= r < H && 0 <= c < W
  {
    s.chars[r * W + c]
  }

  function ColorAt(s: ScreenState, r: int, c: int): byte
    requires Valid(s) && 0 <= r < H && 0 <= c < W
  {
    s.colors[r * W + c]
  }

  /** `x | VGA_BRIGHT` for a four-bit colour. */
  function OrBright(x: int): int
    requires 0 <= x < 16
  {
    if (x / 8) % 2 == 1 then x else x + VGA_BRIGHT
  }

  lemma OrBrightIsBitwiseOr(x: int)
    requires 0 <= x < 16
    ensures OrBright(x) == ((x as bv8) | 8) as int
  {
  }

  /** `color & 0x08`: the bright bit of a colour byte. */
  predicate IsBright(color: byte) {
    (color / 8) % 2 == 1
  }

  /** The stored byte of a wide character: `c & 0xff`. */
  function CellByte(c: nat): (b: byte)
    ensures b as int == c % 256
  {
    (c % 256) as byte
  }

  /** `tmt_char_color`: fold foreground, bold and reverse into one colour byte. */
  function CharColor(t: TmtChar): (color: byte)
    ensures TMT_COLOR_MAX <= t.fg ==> color == SENTINEL_COLOR
    ensures t.fg < TMT_COLOR_MAX ==> color < 32
  {
    if TMT_COLOR_MAX <= t.fg then
      SENTINEL_COLOR
    else
      var base :=
        if t.fg == TMT_COLOR_DEFAULT then
          (if t.c == 32 then TMT_COLOR_BLACK else OrBright(TMT_COLOR_BLACK))
        else if t.bold then OrBright(t.fg)
        else t.fg;
      (if t.reverse then base + VGA_NUM_COLORS else base) as byte
  }

  /** The three things a colour byte records: base colour, bright bit, reverse video. */
  datatype ColorClass = ColorClass(base: int, bright: bool, reverse: bool)

  function Classify(color: byte): ColorClass {
    ColorClass(color as int % 8, IsBright(color), color >= 16)
  }

  /**
    What a cell's colour is meant to say: the default foreground reads as black,
    bright unless the cell is blank; an explicit foreground keeps its low three
    bits and is bright when bold (white, code 8, already carries the bit).
   */
  function IntendedClass(t: TmtChar): ColorClass
    requires t.fg < TMT_COLOR_MAX
  {
    if t.fg == TMT_COLOR_DEFAULT then
      ColorClass(TMT_COLOR_BLACK, t.c != 32, t.reverse)
    else
      ColorClass(t.fg % 8, t.bold || t.fg == 8, t.reverse)
  }

  /** Decoding the colour byte of an in-range cell recovers its intended class. */
  lemma ColorRoundTrip(t: TmtChar)
    requires t.fg < TMT_COLOR_MAX
    ensures Classify(CharColor(t)) == IntendedClass(t)
  {
  }

  /** An out-of-range foreground always reads as bright red without reverse video. */
  lemma SentinelClass(t: TmtChar)
    requires TMT_COLOR_MAX <= t.fg
    ensures Classify(CharColor(t)) == ColorClass(TMT_COLOR_RED, true, false)
  {
  }

  lemma RowColumnOfIndex(r: int, c: int)
    requires 0 <= r < H && 0 <= c < W
    ensures 0 <= r * W + c < W * H
    ensures (r * W + c) / W == r && (r * W + c) % W == c
  {
  }

  /**
    The update notification: every cell of every dirty row is overwritten with
    the emulator's character byte and derived colour; the cursor is untouched.
   */
  function ApplyUpdate(s: ScreenState, lines: seq<TmtLine>): (s': ScreenState)
    requires Valid(s) && WellFormedUpdate(lines)
    ensures Valid(s')
    ensures s'.cursorRow == s.cursorRow && s'.cursorCol == s.cursorCol
    ensures forall r, c :: 0 <= r < H && 0 <= c < W && lines[r].dirty ==>
              CharAt(s', r, c) == CellByte(lines[r].chars[c].c) &&
              ColorAt(s', r, c) == CharColor(lines[r].chars[c])
    ensures forall r, c :: 0 <= r < H && 0 <= c < W && !lines[r].dirty ==>
              CharAt(s', r, c) == CharAt(s, r, c) && ColorAt(s', r, c) == ColorAt(s, r, c)
  {
    var chars := seq(W * H, i requires 0 <= i < W * H =>
      if lines[i / W].dirty then CellByte(lines[i / W].chars[i % W].c) else s.chars[i]);
    var colors := seq(W * H, i requires 0 <= i < W * H =>
      if lines[i / W].dirty then CharColor(lines[i / W].chars[i % W]) else s.colors[i]);
    ScreenState(chars, colors, s.cursorRow, s.cursorCol)
  }

  /** Two valid screens with the same cells and cursor are equal. */
  lemma CellwiseEqual(a: ScreenState, b: ScreenState)
    requires Valid(a) && Valid(b)
    requires a.cursorRow == b.cursorRow && a.cursorCol == b.cursorCol
    requires forall r, c :: 0 <= r < H && 0 <= c < W ==>
               CharAt(a, r, c) == CharAt(b, r, c) && ColorAt(a, r, c) == ColorAt(b, r, c)
    ensures a == b
  {
    forall i | 0 <= i < W * H
      ensures a.chars[i] == b.chars[i] && a.colors[i] == b.colors[i]
    {
      var r, c := i / W, i % W;
      assert i == r * W + c;
      assert CharAt(a, r, c) == CharAt(b, r, c) && ColorAt(a, r, c) == ColorAt(b, r, c);
    }
  }

  /** Applying the same update twice leaves the grid as after the first time. */
  lemma UpdateIdempotent(s: ScreenState, lines: seq<TmtLine>)
    requires Valid(s) && WellFormedUpdate(lines)
    ensures ApplyUpdate(ApplyUpdate(s, lines), lines) == ApplyUpdate(s, lines)
  {
    CellwiseEqual(ApplyUpdate(ApplyUpdate(s, lines), lines), ApplyUpdate(s, lines));
  }

  /** `tmt_clean`: the emulator clears every dirty mark once the bot has read them. */
  function Clean(lines: seq<TmtLine>): (lines': seq<TmtLine>)
    ensures |lines'| == |lines|
    ensures forall r :: 0 <= r < |lines| ==>
              !lines'[r].dirty && lines'[r].chars == lines[r].chars
  {
    seq(|lines|, r requires 0 <= r < |lines| => lines[r].(dirty := false))
  }

  /** Once the marks are cleared, a repeated notification changes nothing. */
  lemma CleanUpdateIsIdentity(s: ScreenState, lines: seq<TmtLine>)
    requires Valid(s) && WellFormedUpdate(lines)
    ensures WellFormedUpdate(Clean(lines))
    ensures ApplyUpdate(s, Clean(lines)) == s
  {
    CellwiseEqual(ApplyUpdate(s, Clean(lines)), s);
  }

  /** The cursor-moved notification records the new position and nothing else. */
  function MoveCursor(s: ScreenState, row: int, col: int): (s': ScreenState)
    ensures s'.chars == s.chars && s'.colors == s.colors
    ensures s'.cursorRow == row && s'.cursorCol == col
  {
    s.(cursorRow := row, cursorCol := col)
  }
}
