/** Sprites and the compositor `draw_sprite`: per-cell clipping, the transparent
    glyph 'X', and the colour keys resolved one channel at a time. */
module Sprites {
  import opened Wrappers
  import opened Screen

  /** A sprite asset: three parallel character matrices (background key,
      foreground key, glyph), `height` rows of `width` columns each. The asset
      files themselves are not part of this model, so sprites are parameters. */
  datatype Sprite = Sprite(bg: seq<seq<char>>, fg: seq<seq<char>>, ch: seq<seq<char>>,
                           width: nat, height: nat)
  {
    ghost predicate WellFormed() {
      && |bg| == height && |fg| == height && |ch| == height
      && (forall r :: 0 <= r < height ==> |bg[r]| == width)
      && (forall r :: 0 <= r < height ==> |fg[r]| == width)
      && (forall r :: 0 <= r < height ==> |ch[r]| == width)
    }
  }

  /** The sprites the game refers to by address. */
  datatype SpriteId = Santa1 | Santa2 | Cloud1 | Moon | Chimney | GameOver

  /** The catalog of assets, one per `#include`d sprite file. */
  datatype Catalog = Catalog(santa1: Sprite, santa2: Sprite, cloud1: Sprite,
                             moon: Sprite, chimney: Sprite, gameOver: Sprite)
  {
    ghost predicate Valid() {
      && santa1.WellFormed() && santa2.WellFormed() && cloud1.WellFormed()
      && moon.WellFormed() && chimney.WellFormed() && gameOver.WellFormed()
    }

    function Get(id: SpriteId): (s: Sprite)
      ensures Valid() ==> s.WellFormed()
    {
      match id
      case Santa1 => santa1
      case Santa2 => santa2
      case Cloud1 => cloud1
      case Moon => moon
      case Chimney => chimney
      case GameOver => gameOver
    }
  }

  /** The palette of `draw_sprite`: each known key parses to attributes whose
      foreground and background are the same 256-colour index. Any other key
      has no entry (the C code's zero attributes, whose flags are 0). */
  function Palette(key: char): Option<Attrs> {
    match key
    case 'k' => Some(Attrs(16, 16, Kind256, Kind256))     // black
    case 'w' => Some(Attrs(231, 231, Kind256, Kind256))   // white
    case 'G' => Some(Attrs(250, 250, Kind256, Kind256))   // grey
    case 'r' => Some(Attrs(124, 124, Kind256, Kind256))   // red
    case 'y' => Some(Attrs(178, 178, Kind256, Kind256))   // yellow
    case 'Y' => Some(Attrs(228, 228, Kind256, Kind256))   // light yellow
    case 't' => Some(Attrs(180, 180, Kind256, Kind256))   // tan
    case 'B' => Some(Attrs(17, 17, Kind256, Kind256))     // dark blue
    case _ => None
  }

  /** The colour keys as a table from key to 256-colour index. */
  const ColorTable: map<char, int> :=
    map['k' := 16, 'w' := 231, 'G' := 250, 'r' := 124, 'y' := 178, 'Y' := 228, 't' := 180, 'B' := 17]

  /** One sprite cell painted over a screen cell: the glyph is copied, then the
      background and the foreground are each replaced only when their key is in
      the palette. The foreground kind is taken from the palette entry's
      BACKGROUND kind, as the C code does. */
  function Paint(glyph: char, fgKey: char, bgKey: char, cell: Cell): Cell {
    var a := cell.attrs;
    var a1 := match Palette(bgKey)
              case Some(p) => a.(bg := p.bg, bgKind := p.bgKind)
              case None => a;
    var a2 := match Palette(fgKey)
              case Some(p) => a1.(fg := p.fg, fgKind := p.bgKind)
              case None => a1;
    Cell(glyph, a2)
  }

  /** Whether screen cell (R, C) lies under sprite cell (R - y, C - x). */
  predicate InFootprint(s: Sprite, y: int, x: int, R: int, C: int) {
    y <= R < y + s.height && x <= C < x + s.width
  }

  /** The effect of `draw_sprite(s, y, x)` (0-based y, x) on the screen cell at (R, C). */
  function SpriteOver(s: Sprite, y: int, x: int, R: int, C: int, cell: Cell): Cell
    requires s.WellFormed()
  {
    if InFootprint(s, y, x, R, C) && s.ch[R - y][C - x] != 'X'
    then Paint(s.ch[R - y][C - x], s.fg[R - y][C - x], s.bg[R - y][C - x], cell)
    else cell
  }

  /** The palette and the table agree, channel by channel: a key in the table
      sets that channel to the table's colour in the 256-colour space, any other
      key leaves the channel as it was, and neither key affects the other channel. */
  lemma PaintChannels(glyph: char, fgKey: char, bgKey: char, cell: Cell)
    ensures var out := Paint(glyph, fgKey, bgKey, cell);
      && out.glyph == glyph
      && (if bgKey in ColorTable
          then out.attrs.bg == ColorTable[bgKey] && out.attrs.bgKind == Kind256
          else out.attrs.bg == cell.attrs.bg && out.attrs.bgKind == cell.attrs.bgKind)
      && (if fgKey in ColorTable
          then out.attrs.fg == ColorTable[fgKey] && out.attrs.fgKind == Kind256
          else out.attrs.fg == cell.attrs.fg && out.attrs.fgKind == cell.attrs.fgKind)
  {
  }

  /** The cells `draw_sprite` leaves alone: those outside the sprite's footprint
      and those under a transparent 'X'. Every other cell shows the sprite's glyph. */
  lemma SpriteOverCells(s: Sprite, y: int, x: int, R: int, C: int, cell: Cell)
    requires s.WellFormed()
    ensures !InFootprint(s, y, x, R, C) ==> SpriteOver(s, y, x, R, C, cell) == cell
    ensures InFootprint(s, y, x, R, C) && s.ch[R - y][C - x] == 'X' ==>
              SpriteOver(s, y, x, R, C, cell) == cell
    ensures InFootprint(s, y, x, R, C) && s.ch[R - y][C - x] != 'X' ==>
              SpriteOver(s, y, x, R, C, cell).glyph == s.ch[R - y][C - x]
  {
  }

  /** A sprite made only of 'X' glyphs draws nothing. */
  lemma TransparentSpriteDrawsNothing(s: Sprite, y: int, x: int, R: int, C: int, cell: Cell)
    requires s.WellFormed()
    requires forall r, c :: 0 <= r < s.height && 0 <= c < s.width ==> s.ch[r][c] == 'X'
    ensures SpriteOver(s, y, x, R, C, cell) == cell
  {
  }

  /** C's `/` on int, which truncates toward zero (Dafny's rounds down). */
  function CDiv(a: int, b: int): (q: int)
    requires b > 0
    ensures -b < a - q * b < b
    ensures a >= 0 ==> q * b <= a
    ensures a < 0 ==> a <= q * b
  {
    if a >= 0 then a / b else -((-a) / b)
  }

  /** The column of a cloud: `SCREEN_W - ((k + phase) % (SCREEN_W + width))`
      for a step count k. It always lies in [1 - width, SCREEN_W]. */
  function CloudX(k: nat, phase: nat, width: nat): (x: int)
    ensures 1 - width <= x <= W
  {
    W - (k + phase) % (W + width)
  }

  /** Euclidean division is determined by its quotient-remainder equation. */
  lemma {:induction false} DivModUnique(n: int, m: int, q: int, r: int)
    requires m > 0 && 0 <= r < m && n == q * m + r
    ensures n % m == r && n / m == q
  {
    var q0, r0 := n / m, n % m;
    assert n == q0 * m + r0;
    var d := q - q0;
    assert d * m == r0 - r by {
      assert q * m - q0 * m == (q - q0) * m;
    }
  }

  /** A cloud moves one column left per step and, once off the left edge,
      comes back at column SCREEN_W. */
  lemma {:induction false} CloudDrifts(k: nat, phase: nat, width: nat)
    ensures CloudX(k + 1, phase, width) == CloudX(k, phase, width) - 1
         || (CloudX(k, phase, width) == 1 - width && CloudX(k + 1, phase, width) == W)
  {
    var m := W + width;
    var q, v := (k + phase) / m, (k + phase) % m;
    assert k + phase == q * m + v;
    if v + 1 < m {
      DivModUnique(k + 1 + phase, m, q, v + 1);
    } else {
      DivModUnique(k + 1 + phase, m, q + 1, 0);
    }
  }

  /** The cloud positions repeat every SCREEN_W + width steps. */
  lemma {:induction false} CloudPeriodic(k: nat, phase: nat, width: nat)
    ensures CloudX(k + W + width, phase, width) == CloudX(k, phase, width)
  {
    var m := W + width;
    var q, v := (k + phase) / m, (k + phase) % m;
    assert k + phase == q * m + v;
    DivModUnique(k + m + phase, m, q + 1, v);
  }
}
