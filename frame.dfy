/** One `game_frame`, as pure functions: the new game variables, and the new
    content of every screen cell as the composition, in drawing order, of the
    per-cell effects of the drawing primitives. */
module Frame {
  import opened Screen
  import opened Sprites
  import opened Chimneys
  import opened Jump
  import opened Hud

  const SANTA_X: int := 5
  const SANTA_BASE_Y: int := 7
  const U64: int := 0x1_0000_0000_0000_0000  // the frame counter is a u64

  /** The game variables a frame reads and writes. */
  datatype Play = Play(gameIsOver: bool, frame: nat, jump: JumpState, points: nat, slots: seq<Moving>)

  predicate PlayOk(p: Play) {
    p.frame < U64 && JumpInv(p.jump) && |p.slots| == MAX_CHIMNIES
  }

  /** Santa's row: a higher jump draws him higher on the screen. */
  function SantaY(jump: int): int {
    SANTA_BASE_Y - jump
  }

  /** Santa's legs alternate on odd and even frames, except in the air. */
  function SantaSprite(frame: nat, jump: int): SpriteId {
    if frame % 2 == 1 || jump != 0 then Santa1 else Santa2
  }

  /** The centred game-over sprite, with C's truncating division. */
  function GameOverY(cat: Catalog): int { CDiv(H - cat.gameOver.height, 2) }
  function GameOverX(cat: Catalog): int { CDiv(W - cat.gameOver.width, 2) }

  /** The chimney pass of the frame that starts in p. */
  function FramePass(cat: Catalog, p: Play, spawn: seq<bool>): PassResult
    requires |p.slots| == |spawn|
  {
    ChimneyPass(cat, p.slots, spawn, SantaY(p.jump.jump), SANTA_X, 0)
  }

  /** The game variables after one frame. */
  function NextPlay(cat: Catalog, p: Play, spawn: seq<bool>): (q: Play)
    requires PlayOk(p) && |spawn| == MAX_CHIMNIES
    ensures PlayOk(q)
  {
    if p.gameIsOver then p
    else
      var pass := FramePass(cat, p, spawn);
      Play(pass.hit, (p.frame + 1) % U64, JumpStep(p.jump), p.points + pass.retired, pass.slots)
  }

  /** The three clouds, each drifting left at its own pace. */
  function CloudsOver(cat: Catalog, frame: nat, R: int, C: int, cell: Cell): Cell
    requires cat.Valid()
  {
    var w := cat.cloud1.width;
    var c0 := SpriteOver(cat.cloud1, 0, CloudX(frame / 3, 48, w), R, C, cell);
    var c1 := SpriteOver(cat.cloud1, 3, CloudX(frame, 3, w), R, C, c0);
    SpriteOver(cat.cloud1, 10, CloudX(frame / 2, 15, w), R, C, c1)
  }

  /** Clear, stars, roof, moon and the three clouds. */
  function BackgroundCell(cat: Catalog, frame: nat, R: int, C: int): Cell
    requires cat.Valid()
  {
    var c0 := StarsOver(R, C, Blank);
    var c1 := RoofOver(frame, R, C, c0);
    var c2 := SpriteOver(cat.moon, 1, 70, R, C, c1);
    CloudsOver(cat, frame, R, C, c2)
  }

  /** The chimneys a running frame draws, over the background. */
  function ChimneyLayer(cat: Catalog, p: Play, spawn: seq<bool>, R: int, C: int): Cell
    requires cat.Valid() && PlayOk(p) && |spawn| == MAX_CHIMNIES
  {
    ChimneysOver(cat, FramePass(cat, p, spawn).drawn, R, C, BackgroundCell(cat, p.frame, R, C))
  }

  /** Santa, drawn over the chimneys at his height. */
  function SantaLayer(cat: Catalog, p: Play, spawn: seq<bool>, R: int, C: int): Cell
    requires cat.Valid() && PlayOk(p) && |spawn| == MAX_CHIMNIES
  {
    SpriteOver(cat.Get(SantaSprite(p.frame, p.jump.jump)), SantaY(p.jump.jump), SANTA_X, R, C,
               ChimneyLayer(cat, p, spawn, R, C))
  }

  /** The score printed by a running frame: the one after its chimney pass. */
  function FrameScore(cat: Catalog, p: Play, spawn: seq<bool>): nat
    requires PlayOk(p) && |spawn| == MAX_CHIMNIES
  {
    p.points + FramePass(cat, p, spawn).retired
  }

  /** A frame of the running game: background, chimneys, Santa, then the help
      line and the score on row 1. */
  function SceneCell(cat: Catalog, p: Play, spawn: seq<bool>, R: int, C: int): Cell
    requires cat.Valid() && PlayOk(p) && |spawn| == MAX_CHIMNIES
  {
    HudOver(FrameScore(cat, p, spawn), R, C, SantaLayer(cat, p, spawn, R, C))
  }

  /** The new content of screen cell (R, C), whose old content is `cell`. */
  function FrameCell(cat: Catalog, p: Play, spawn: seq<bool>, R: int, C: int, cell: Cell): Cell
    requires cat.Valid() && PlayOk(p) && |spawn| == MAX_CHIMNIES
  {
    if p.gameIsOver then SpriteOver(cat.gameOver, GameOverY(cat), GameOverX(cat), R, C, cell)
    else SceneCell(cat, p, spawn, R, C)
  }

  // ---------------------------------------------------------------- properties

  /** Once over, a frame freezes the game: no variable changes and only the
      game-over sprite's footprint is drawn. */
  lemma GameOverFreezes(cat: Catalog, p: Play, spawn: seq<bool>, R: int, C: int, cell: Cell)
    requires cat.Valid() && PlayOk(p) && |spawn| == MAX_CHIMNIES && p.gameIsOver
    ensures NextPlay(cat, p, spawn) == p
    ensures !InFootprint(cat.gameOver, GameOverY(cat), GameOverX(cat), R, C) ==>
              FrameCell(cat, p, spawn, R, C, cell) == cell
  {
  }

  /** A running frame advances the frame counter by exactly one (modulo 2^64),
      takes one jump step, and raises the score by the slots it retired; the
      game becomes over exactly when a chimney hits Santa's hitbox. */
  lemma RunningFrame(cat: Catalog, p: Play, spawn: seq<bool>)
    requires PlayOk(p) && |spawn| == MAX_CHIMNIES && !p.gameIsOver
    ensures var q := NextPlay(cat, p, spawn);
            var k := FirstSpawn(p.slots, spawn, 0);
      && q.frame == (p.frame + 1) % U64
      && (p.frame + 1 < U64 ==> q.frame == p.frame + 1)
      && (p.frame == U64 - 1 ==> q.frame == 0)
      && q.jump == JumpStep(p.jump)
      && p.points <= q.points <= p.points + MAX_CHIMNIES
      && (q.gameIsOver <==> exists j :: 0 <= j < k && p.slots[j].sprite.Some?
                                      && HitsSanta(cat, SantaY(p.jump.jump), SANTA_X, p.slots[j]))
  {
    PassHit(cat, p.slots, spawn, SantaY(p.jump.jump), SANTA_X, 0);
  }

  /** A running frame is drawn from scratch: it does not depend on the old screen. */
  lemma SceneRedrawn(cat: Catalog, p: Play, spawn: seq<bool>, R: int, C: int, cell1: Cell, cell2: Cell)
    requires cat.Valid() && PlayOk(p) && |spawn| == MAX_CHIMNIES && !p.gameIsOver
    ensures FrameCell(cat, p, spawn, R, C, cell1) == FrameCell(cat, p, spawn, R, C, cell2)
  {
  }

  /** Below row 1, Santa is drawn over everything else: every cell under a
      non-transparent glyph of his sprite shows that glyph. */
  lemma SantaOnTop(cat: Catalog, p: Play, spawn: seq<bool>, R: int, C: int)
    requires cat.Valid() && PlayOk(p) && |spawn| == MAX_CHIMNIES && !p.gameIsOver
    requires 1 <= R < H && 0 <= C < W
    requires var s := cat.Get(SantaSprite(p.frame, p.jump.jump));
             InFootprint(s, SantaY(p.jump.jump), SANTA_X, R, C)
             && s.ch[R - SantaY(p.jump.jump)][C - SANTA_X] != 'X'
    ensures var s := cat.Get(SantaSprite(p.frame, p.jump.jump));
            SceneCell(cat, p, spawn, R, C).glyph == s.ch[R - SantaY(p.jump.jump)][C - SANTA_X]
  {
    SceneOffRow1(cat, p, spawn, R, C);
    SantaGlyph(cat, p, spawn, R, C);
  }

  /** Santa's layer shows his glyph wherever it is not transparent. */
  lemma SantaGlyph(cat: Catalog, p: Play, spawn: seq<bool>, R: int, C: int)
    requires cat.Valid() && PlayOk(p) && |spawn| == MAX_CHIMNIES
    requires var s := cat.Get(SantaSprite(p.frame, p.jump.jump));
             InFootprint(s, SantaY(p.jump.jump), SANTA_X, R, C)
             && s.ch[R - SantaY(p.jump.jump)][C - SANTA_X] != 'X'
    ensures var s := cat.Get(SantaSprite(p.frame, p.jump.jump));
            SantaLayer(cat, p, spawn, R, C).glyph == s.ch[R - SantaY(p.jump.jump)][C - SANTA_X]
  {
    var s := cat.Get(SantaSprite(p.frame, p.jump.jump));
    var below := ChimneyLayer(cat, p, spawn, R, C);
    SpriteOverCells(s, SantaY(p.jump.jump), SANTA_X, R, C, below);
  }

  /** Below row 1 a running frame shows its Santa layer. */
  lemma SceneOffRow1(cat: Catalog, p: Play, spawn: seq<bool>, R: int, C: int)
    requires cat.Valid() && PlayOk(p) && |spawn| == MAX_CHIMNIES && R != 0
    ensures SceneCell(cat, p, spawn, R, C) == SantaLayer(cat, p, spawn, R, C)
  {
    HudOffRow1(FrameScore(cat, p, spawn), R, C, SantaLayer(cat, p, spawn, R, C));
  }

  /** The score readout ends in the top-right corner: while the score fits the
      C code's `int`, cell (1, 80) of a running frame shows its units digit. */
  lemma ScoreReadout(cat: Catalog, p: Play, spawn: seq<bool>)
    requires cat.Valid() && PlayOk(p) && |spawn| == MAX_CHIMNIES && !p.gameIsOver
    requires NextPlay(cat, p, spawn).points <= INT_MAX
    ensures SceneCell(cat, p, spawn, 0, W - 1).glyph == DigitChar(NextPlay(cat, p, spawn).points % 10)
  {
    ScoreInCorner(FrameScore(cat, p, spawn), SantaLayer(cat, p, spawn, 0, W - 1));
  }
}
