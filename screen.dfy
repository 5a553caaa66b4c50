/** The 24x80 framebuffer of the game: cells, display attributes, and the
    per-cell effect of the drawing primitives that do not involve sprites
    (clearing, printing text, stars and the roof band).

    Every drawing primitive is described here as a pure function
    `...Over(params, R, C, cell)` giving the new content of the cell at
    0-based row R and column C when its old content is `cell`. The methods
    of `Game.HoHoHop` that rewrite the array in place are proved against
    these functions. */
module Screen {

  const H: int := 24  // SCREEN_H
  const W: int := 80  // SCREEN_W

  /** The colour-space kind stored in the flags of the host's attribute value. */
  datatype ColorKind = KindNone | Kind16 | Kind256 | KindRgb

  /** The host's display attributes, reduced to the two colours and their kinds. */
  datatype Attrs = Attrs(fg: int, bg: int, fgKind: ColorKind, bgKind: ColorKind)

  datatype Cell = Cell(glyph: char, attrs: Attrs)

  /** A zero-initialised cell: the state of the static array before any drawing. */
  const ZeroCell: Cell := Cell('\0', Attrs(0, 0, KindNone, KindNone))

  /** "fg @231 bg @16": the night sky that clearing paints. */
  const SkyAttrs: Attrs := Attrs(231, 16, Kind256, Kind256)
  /** "fg @228 bg @16": the stars. */
  const StarAttrs: Attrs := Attrs(228, 16, Kind256, Kind256)
  /** "fg @16 bg @235": the roof band. */
  const RoofAttrs: Attrs := Attrs(16, 235, Kind256, Kind256)

  predicate InScreen(R: int, C: int) {
    0 <= R < H && 0 <= C < W
  }

  // ---------------------------------------------------------------- clear

  const Blank: Cell := Cell(' ', SkyAttrs)

  // ---------------------------------------------------------------- print

  /** The C library's `iscntrl` on the ASCII range: codes 0..31 and 127. NUL is one of them. */
  predicate IsCntrl(ch: char) {
    ch < ' ' || ch as int == 127
  }

  /** The number of characters `print` takes from `msg`: those before the first
      control character (or the end of the string, where C has its NUL). */
  function PrintableLen(msg: string): (n: nat)
    ensures n <= |msg|
    ensures forall k :: 0 <= k < n ==> !IsCntrl(msg[k])
    ensures n < |msg| ==> IsCntrl(msg[n])
  {
    if msg == [] || IsCntrl(msg[0]) then 0 else 1 + PrintableLen(msg[1..])
  }

  /** A printed character's attributes: foreground 231 in the 256-colour space,
      background left as it was. */
  function TextAttrs(a: Attrs): Attrs {
    a.(fg := 231, fgKind := Kind256)
  }

  /** `print` reaches character k of `msg`: it exists and neither it nor any
      character before it is a control character. */
  predicate Printed(msg: string, k: int) {
    0 <= k < |msg| && forall j :: 0 <= j <= k ==> !IsCntrl(msg[j])
  }

  /** The characters `print` reaches are exactly the first PrintableLen. */
  lemma PrintedIff(msg: string, k: int)
    ensures Printed(msg, k) <==> 0 <= k < PrintableLen(msg)
  {
  }

  /** The effect of `print(r, c, msg)` (1-based `r`, `c`) on the cell at 0-based (R, C). */
  function PrintOver(r: int, c: int, msg: string, R: int, C: int, cell: Cell): Cell {
    if r <= H && R == r - 1 && c - 1 <= C && Printed(msg, C - (c - 1))
    then Cell(msg[C - (c - 1)], TextAttrs(cell.attrs))
    else cell
  }

  /** `print` off the bottom edge changes nothing. */
  lemma PrintBelowScreen(r: int, c: int, msg: string, R: int, C: int, cell: Cell)
    requires r > H
    ensures PrintOver(r, c, msg, R, C, cell) == cell
  {
  }

  /** `print` writes a cell exactly when it lies on row r between column c and the
      last printable character; there it sets the glyph and the foreground and
      keeps the background. */
  lemma PrintFootprint(r: int, c: int, msg: string, R: int, C: int, cell: Cell)
    requires 1 <= r <= H && 1 <= c && InScreen(R, C)
    ensures var n := PrintableLen(msg);
            var out := PrintOver(r, c, msg, R, C, cell);
            if R == r - 1 && c <= C + 1 <= c + n - 1
            then out.glyph == msg[C + 1 - c] && !IsCntrl(out.glyph)
              && out.attrs.fg == 231 && out.attrs.fgKind == Kind256
              && out.attrs.bg == cell.attrs.bg && out.attrs.bgKind == cell.attrs.bgKind
            else out == cell
  {
    PrintedIff(msg, C + 1 - c);
  }

  /** A string without control characters is printed in full. */
  lemma PrintableLenAll(msg: string)
    requires forall k :: 0 <= k < |msg| ==> !IsCntrl(msg[k])
    ensures PrintableLen(msg) == |msg|
  {
  }

  /** A control character cuts the string: nothing from it on is printed. */
  lemma PrintStopsAtCntrl(msg: string, k: nat)
    requires k < |msg| && IsCntrl(msg[k])
    ensures PrintableLen(msg) <= k
  {
  }

  // ---------------------------------------------------------------- stars

  /** The eight fixed star positions, 1-based (row, column). */
  const Stars: seq<(int, int)> :=
    [(5, 5), (5, 19), (12, 5), (2, 35), (8, 41), (10, 47), (16, 56), (4, 78)]

  /** The effect of `draw_stars`: a star prints '*' and then replaces the
      cell's attributes entirely. */
  function StarsOver(R: int, C: int, cell: Cell): Cell {
    if (R + 1, C + 1) in Stars then Cell('*', StarAttrs) else cell
  }

  // ---------------------------------------------------------------- roof

  const RoofRow: int := 15  // roof_start, 1-based

  /** The roof line: 80 '=' characters. */
  const RoofLine: string := seq(80, _ => '=')

  /** The texture glyph at 1-based row i, 0-based column j. */
  function RoofGlyph(frame: nat, i: int, j: int): char {
    if 7 - frame % 8 == (j + i) % 8 then '/' else '_'
  }

  /** The effect of `draw_roof`: row 15 becomes a line of '=' in roof colours
      (with the foreground that `print` sets), rows 16..24 the diagonal texture. */
  function RoofOver(frame: nat, R: int, C: int, cell: Cell): Cell {
    if R == RoofRow - 1 then Cell('=', TextAttrs(RoofAttrs))
    else if RoofRow <= R < H then Cell(RoofGlyph(frame, R + 1, C), RoofAttrs)
    else cell
  }

  /** The roof band is opaque: rows 15..24 do not depend on what was there
      (so the star at row 16, column 56 never shows), and rows above it are untouched. */
  lemma RoofOpaque(frame: nat, R: int, C: int, cell1: Cell, cell2: Cell)
    requires InScreen(R, C)
    ensures RoofRow - 1 <= R ==> RoofOver(frame, R, C, cell1) == RoofOver(frame, R, C, cell2)
    ensures R < RoofRow - 1 ==> RoofOver(frame, R, C, cell1) == cell1
  {
  }

  /** The texture has period 8 in the frame counter. */
  lemma {:induction false} RoofPeriodic(frame: nat, i: int, j: int)
    ensures RoofGlyph(frame + 8, i, j) == RoofGlyph(frame, i, j)
  {
    assert (frame + 8) % 8 == frame % 8;
  }

  /** One frame later the texture has moved one column to the left. */
  lemma {:induction false} RoofScrollsLeft(frame: nat, i: int, j: int)
    ensures RoofGlyph(frame + 1, i, j) == RoofGlyph(frame, i, j + 1)
  {
    var f := frame % 8;
    if f == 7 {
      assert (frame + 1) % 8 == 0;
    } else {
      assert (frame + 1) % 8 == f + 1;
    }
    var m := (j + i) % 8;
    assert (j + 1 + i) % 8 == if m == 7 then 0 else m + 1;
  }

  /** Along a row, the slashes sit exactly eight columns apart: once column j
      carries a '/', column j' carries one exactly when j' - j is a multiple of 8. */
  lemma {:induction false} RoofSlashSpacing(frame: nat, i: int, j: int, j': int)
    requires RoofGlyph(frame, i, j) == '/'
    ensures RoofGlyph(frame, i, j') == '/' <==> (j' - j) % 8 == 0
  {
    var d := j' - j;
    assert j' + i == (j + i) + d;
    assert ((j + i) + d) % 8 == ((j + i) % 8 + d % 8) % 8;
  }
}
