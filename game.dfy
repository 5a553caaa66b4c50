/** The plugin's state and its operations: the framebuffer and the drawing
    loops that rewrite it in place, the chimney pool, the jump state, one
    frame, and the session controller (start, end, the command, the key and
    redraw handlers). The host's update-rate setting is passed in and the new
    setting returned; the terminal size, the time and the random draws are
    parameters. */
module Game {
  import opened Wrappers
  import opened Screen
  import opened Sprites
  import opened Chimneys
  import opened Jump
  import opened Hud
  import opened Frame

  const MIN_UPDT_HZ: int := 30
  const FRAME_HZ: int := 10
  const FRAME_MS: int := 1000 / FRAME_HZ   // milliseconds between frames

  /** The host's code for the Enter key. */
  const ENTER: int := 13

  /** A key event: a mouse event, or a key with its code. */
  datatype Key = Mouse | Press(code: int)

  /** Why the start command was refused. */
  datatype StartError = AlreadyPlaying | ScreenTooSmall

  /** The rate `start_game` sets: the saved rate, raised to at least MIN_UPDT_HZ. */
  function GameHz(hz: int): (r: int)
    ensures r >= MIN_UPDT_HZ && r >= hz
    ensures r == hz || r == MIN_UPDT_HZ
  {
    if hz < MIN_UPDT_HZ then MIN_UPDT_HZ else hz
  }

  class HoHoHop {
    const sprites: Catalog
    const screen: array2<Cell>
    const chimnies: array<Moving>
    var gameOn: bool
    var gameIsOver: bool
    var saveHz: int
    var frame: nat
    var t: nat
    var santaJumping: int
    var santaJump: int
    var points: nat

    /** The fixed part of the state: well-formed sprites and the buffers' sizes. */
    ghost predicate Shape() {
      && sprites.Valid()
      && screen.Length0 == H && screen.Length1 == W
      && chimnies.Length == MAX_CHIMNIES
    }

    ghost predicate Valid()
      reads this
    {
      && Shape()
      && frame < U64 && t < U64
      && JumpInv(JumpState(santaJumping, santaJump))
    }

    /** The variables a frame reads and writes. */
    ghost function Vars(): (p: Play)
      requires Valid()
      reads this, chimnies
      ensures PlayOk(p)
    {
      Play(gameIsOver, frame, JumpState(santaJumping, santaJump), points, chimnies[..])
    }

    /** The state at plugin load: every static zero. */
    constructor (cat: Catalog)
      requires cat.Valid()
      ensures Valid() && sprites == cat && fresh(screen) && fresh(chimnies)
      ensures !gameOn && !gameIsOver && saveHz == 0 && frame == 0 && t == 0
      ensures santaJumping == 0 && santaJump == 0 && points == 0
      ensures forall R, C :: InScreen(R, C) ==> screen[R, C] == ZeroCell
      ensures forall i :: 0 <= i < MAX_CHIMNIES ==> chimnies[i] == Moving(None, 0, 0)
    {
      sprites := cat;
      screen := new Cell[H, W]((_, _) => ZeroCell);
      chimnies := new Moving[MAX_CHIMNIES](_ => Moving(None, 0, 0));
      gameOn, gameIsOver, saveHz, frame, t := false, false, 0, 0, 0;
      santaJumping, santaJump, points := 0, 0, 0;
    }

    // ------------------------------------------------------------ drawing

    /** `clear_screen`: every cell becomes a blank in the night-sky colours. */
    method ClearScreen()
      requires Shape()
      modifies screen
      ensures forall R, C :: InScreen(R, C) ==> screen[R, C] == Blank
    {
      var r := 1;
      while r <= H
        invariant 1 <= r <= H + 1
        invariant forall R, C :: 0 <= R < r - 1 && 0 <= C < W ==> screen[R, C] == Blank
      {
        var c := 1;
        while c <= W
          invariant 1 <= c <= W + 1
          invariant forall R, C :: InScreen(R, C) && (R < r - 1 || (R == r - 1 && C < c - 1)) ==> screen[R, C] == Blank
        {
          screen[r - 1, c - 1] := Blank;
          c := c + 1;
        }
        r := r + 1;
      }
    }

    /** `print(r, c, msg)`, 1-based, clipped at the right edge and ignored below the bottom. */
    method Print(r: int, c: int, msg: string)
      requires Shape() && 1 <= r && 1 <= c
      modifies screen
      ensures forall R, C :: InScreen(R, C) ==> screen[R, C] == PrintOver(r, c, msg, R, C, old(screen[R, C]))
    {
      if r > H { return; }
      var col := c;
      var k := 0;  // the index into msg that the C code's advancing pointer reaches
      while col <= W
        invariant c <= col && k == col - c
        invariant k <= |msg| && forall j :: 0 <= j < k ==> !IsCntrl(msg[j])
        invariant col <= W + 1 || k == 0
        invariant forall R, C :: InScreen(R, C) ==>
          screen[R, C] == if R == r - 1 && c - 1 <= C < col - 1
                          then Cell(msg[C - (c - 1)], TextAttrs(old(screen[R, C]).attrs))
                          else old(screen[R, C])
      {
        if k >= |msg| || IsCntrl(msg[k]) { break; }
        screen[r - 1, col - 1] := Cell(msg[k], TextAttrs(screen[r - 1, col - 1].attrs));
        k := k + 1;
        col := col + 1;
      }
    }

    /** The STAR macro: print '*' and then overwrite the cell's attributes. */
    method Star(r: int, c: int)
      requires Shape() && 1 <= r <= H && 1 <= c <= W
      modifies screen
      ensures forall R, C :: InScreen(R, C) ==>
        screen[R, C] == if R == r - 1 && C == c - 1 then Cell('*', StarAttrs) else old(screen[R, C])
    {
      Print(r, c, "*");
      screen[r - 1, c - 1] := screen[r - 1, c - 1].(attrs := StarAttrs);
    }

    /** `draw_stars`. */
    method DrawStars()
      requires Shape()
      modifies screen
      ensures forall R, C :: InScreen(R, C) ==> screen[R, C] == StarsOver(R, C, old(screen[R, C]))
    {
      Star(5, 5);
      Star(5, 19);
      Star(12, 5);
      Star(2, 35);
      Star(8, 41);
      Star(10, 47);
      Star(16, 56);
      Star(4, 78);
    }

    /** `draw_roof`: the '=' line on row 15 and the texture of phase `frame` below it. */
    method DrawRoof()
      requires Shape()
      modifies screen
      ensures forall R, C :: InScreen(R, C) ==> screen[R, C] == RoofOver(frame, R, C, old(screen[R, C]))
    {
      var j := 0;
      while j < W
        invariant 0 <= j <= W
        invariant forall R, C :: InScreen(R, C) ==>
          screen[R, C] == if R == RoofRow - 1 && C < j then old(screen[R, C]).(attrs := RoofAttrs)
                          else old(screen[R, C])
      {
        screen[RoofRow - 1, j] := screen[RoofRow - 1, j].(attrs := RoofAttrs);
        j := j + 1;
      }
      PrintableLenAll(RoofLine);
      Print(RoofRow, 1, RoofLine);
      var i := RoofRow + 1;
      while i <= H
        invariant RoofRow + 1 <= i <= H + 1
        invariant forall R, C :: InScreen(R, C) ==>
          screen[R, C] == if R < i - 1 then RoofOver(frame, R, C, old(screen[R, C])) else old(screen[R, C])
      {
        j := 0;
        while j < W
          invariant 0 <= j <= W
          invariant forall R, C :: InScreen(R, C) ==>
            screen[R, C] == if R < i - 1 || (R == i - 1 && C < j) then RoofOver(frame, R, C, old(screen[R, C]))
                            else old(screen[R, C])
        {
          screen[i - 1, j] := Cell(RoofGlyph(frame, i, j), RoofAttrs);
          j := j + 1;
        }
        i := i + 1;
      }
    }

    /** `draw_sprite(s, y, x)`, 0-based: per-cell clipping, transparent 'X',
        and the colour keys resolved one channel at a time. */
    method DrawSprite(s: Sprite, y: int, x: int)
      requires Shape() && s.WellFormed()
      modifies screen
      ensures forall R, C :: InScreen(R, C) ==> screen[R, C] == SpriteOver(s, y, x, R, C, old(screen[R, C]))
    {
      var r := 0;
      while r < s.height
        invariant 0 <= r <= s.height
        invariant forall R, C :: InScreen(R, C) ==>
          screen[R, C] == if R < y + r then SpriteOver(s, y, x, R, C, old(screen[R, C])) else old(screen[R, C])
      {
        if y + r >= H || y + r < 0 { r := r + 1; continue; }
        var c := 0;
        while c < s.width
          invariant 0 <= c <= s.width
          invariant forall R, C :: InScreen(R, C) ==>
            screen[R, C] == if R < y + r || (R == y + r && C < x + c) then SpriteOver(s, y, x, R, C, old(screen[R, C]))
                            else old(screen[R, C])
        {
          if x + c >= W || x + c < 0 || s.ch[r][c] == 'X' { c := c + 1; continue; }
          var cell := screen[y + r, x + c].(glyph := s.ch[r][c]);
          var bga := Palette(s.bg[r][c]);
          var fga := Palette(s.fg[r][c]);
          if bga.Some? {
            cell := cell.(attrs := cell.attrs.(bg := bga.value.bg, bgKind := bga.value.bgKind));
          }
          if fga.Some? {
            cell := cell.(attrs := cell.attrs.(fg := fga.value.fg, fgKind := fga.value.bgKind));
          }
          screen[y + r, x + c] := cell;
          c := c + 1;
        }
        r := r + 1;
      }
    }

    // ------------------------------------------------------------ game logic

    /** `handle_chimnies`: one pass over the pool, with `spawn[i]` the outcome
        of the random draw for empty slot i. */
    method HandleChimnies(santaY: int, santaX: int, spawn: seq<bool>)
      requires Shape() && |spawn| == MAX_CHIMNIES
      modifies screen, chimnies, this`gameIsOver, this`points
      ensures var p := ChimneyPass(sprites, old(chimnies[..]), spawn, santaY, santaX, 0);
        && chimnies[..] == p.slots
        && gameIsOver == (old(gameIsOver) || p.hit)
        && points == old(points) + p.retired
        && forall R, C :: InScreen(R, C) ==> screen[R, C] == ChimneysOver(sprites, p.drawn, R, C, old(screen[R, C]))
    {
      ghost var p0 := ChimneyPass(sprites, chimnies[..], spawn, santaY, santaX, 0);
      ghost var hit := false;
      ghost var retired: nat := 0;
      ghost var drawn: seq<Moving> := [];
      var i := 0;
      while i < MAX_CHIMNIES
        invariant 0 <= i <= MAX_CHIMNIES && Shape()
        invariant var pi := ChimneyPass(sprites, chimnies[..], spawn, santaY, santaX, i);
          && p0.slots == pi.slots && p0.hit == (hit || pi.hit)
          && p0.retired == retired + pi.retired && p0.drawn == drawn + pi.drawn
        invariant gameIsOver == (old(gameIsOver) || hit)
        invariant points == old(points) + retired
        invariant forall R, C :: InScreen(R, C) ==> screen[R, C] == ChimneysOver(sprites, drawn, R, C, old(screen[R, C]))
      {
        ghost var hitHere, retHere, drawnHere;
        var stop;
        label Visit:
        stop, hitHere, retHere, drawnHere := VisitSlot(i, santaY, santaX, spawn);
        ghost var rest := ChimneyPass(sprites, chimnies[..], spawn, santaY, santaX, i + 1);
        AppendAssoc(drawn, drawnHere, rest.drawn);
        forall R, C | InScreen(R, C)
          ensures screen[R, C] == ChimneysOver(sprites, drawn + drawnHere, R, C, old(screen[R, C]))
        {
          ChimneysOverAppend(sprites, drawn, drawnHere, R, C, old(screen[R, C]));
        }
        hit, retired, drawn := hit || hitHere, retired + retHere, drawn + drawnHere;
        if stop {
          assert chimnies[..] == p0.slots && hit == p0.hit && retired == p0.retired && drawn == p0.drawn;
          break;
        }
        i := i + 1;
      }
      assert chimnies[..] == p0.slots && hit == p0.hit && retired == p0.retired && drawn == p0.drawn;
    }

    /** The body of the `handle_chimnies` loop at slot i: an empty slot may get
        a new chimney, which ends the pass (`stop`); an occupied one is tested
        for a collision, drawn and moved. The ghost results say what the step
        contributes to the pass: a hit, a retirement, the chimney drawn. */
    method VisitSlot(i: nat, santaY: int, santaX: int, spawn: seq<bool>)
        returns (stop: bool, ghost hitHere: bool, ghost retHere: nat, ghost drawnHere: seq<Moving>)
      requires Shape() && i < MAX_CHIMNIES && |spawn| == MAX_CHIMNIES
      modifies screen, chimnies, this`gameIsOver, this`points
      ensures stop <==> old(chimnies[i]).sprite.None? && spawn[i]
      ensures gameIsOver == (old(gameIsOver) || hitHere) && points == old(points) + retHere
      ensures forall R, C :: InScreen(R, C) ==>
        screen[R, C] == ChimneysOver(sprites, drawnHere, R, C, old(screen[R, C]))
      ensures var pi := ChimneyPass(sprites, old(chimnies[..]), spawn, santaY, santaX, i);
        if stop then pi == PassResult(chimnies[..], hitHere, retHere, drawnHere)
        else var rest := ChimneyPass(sprites, chimnies[..], spawn, santaY, santaX, i + 1);
             pi == PassResult(rest.slots, hitHere || rest.hit, retHere + rest.retired, drawnHere + rest.drawn)
    {
      PassStep(sprites, chimnies[..], spawn, santaY, santaX, i);
      var m := chimnies[i];
      stop, hitHere, retHere, drawnHere := false, false, 0, [];
      if chimnies[i].sprite.None? {
        if spawn[i] {
          chimnies[i] := Moving(Some(Chimney), W + sprites.chimney.width, SPAWN_ROW);
          return true, false, 0, [];
        }
      }
      if chimnies[i].sprite.Some? {
        MoveChimney(i, santaY, santaX);
        hitHere := HitsSanta(sprites, santaY, santaX, m);
        retHere := if Retires(sprites, m) then 1 else 0;
        drawnHere := [m];
        assert drawnHere[..0] == [];
      }
    }

    /** The body of the `handle_chimnies` loop for an occupied slot: the
        collision test, the draw, the move and the retirement. */
    method MoveChimney(i: nat, santaY: int, santaX: int)
      requires Shape() && i < MAX_CHIMNIES && chimnies[i].sprite.Some?
      modifies screen, chimnies, this`gameIsOver, this`points
      ensures var m := old(chimnies[i]);
        && chimnies[..] == old(chimnies[..])[i := Advance(sprites, m)]
        && gameIsOver == (old(gameIsOver) || HitsSanta(sprites, santaY, santaX, m))
        && points == old(points) + (if Retires(sprites, m) then 1 else 0)
        && forall R, C :: InScreen(R, C) ==>
             screen[R, C] == SpriteOver(sprites.Get(m.sprite.value), m.y, m.x, R, C, old(screen[R, C]))
    {
      var m := chimnies[i];
      if Colliding(santaX + 4, santaY, sprites.santa1.width - 8, sprites.santa1.height,
                   m.x + 1, m.y, sprites.chimney.width - 2, sprites.chimney.height) {
        gameIsOver := true;
      }
      DrawSprite(sprites.Get(m.sprite.value), m.y, m.x);
      chimnies[i] := chimnies[i].(x := chimnies[i].x - SCROLL);
      if chimnies[i].x <= -(sprites.chimney.width as int) {
        chimnies[i] := chimnies[i].(sprite := None);
        points := points + 1;
      }
    }

    /** `handle_jumping`: one step of the hop. */
    method HandleJumping()
      requires Valid()
      modifies this`santaJumping, this`santaJump
      ensures Valid()
      ensures JumpState(santaJumping, santaJump) == JumpStep(old(JumpState(santaJumping, santaJump)))
    {
      if santaJumping != 0 {
        santaJump := santaJump + 2 * santaJumping;
        if santaJump >= SANTA_MAX_JUMP {
          santaJumping := -1;
        }
        if santaJump <= 0 {
          santaJumping, santaJump := 0, 0;
        }
      }
    }

    /** `game_frame`. The score is the C code's `int`, which must not overflow. */
    method GameFrame(spawn: seq<bool>)
      requires Valid() && |spawn| == MAX_CHIMNIES && points <= INT_MAX - MAX_CHIMNIES
      modifies this, screen, chimnies
      ensures Valid()
      ensures Vars() == NextPlay(sprites, old(Vars()), spawn)
      ensures forall R, C :: InScreen(R, C) ==> screen[R, C] == FrameCell(sprites, old(Vars()), spawn, R, C, old(screen[R, C]))
      ensures gameOn == old(gameOn) && saveHz == old(saveHz) && t == old(t)
    {
      if gameIsOver {
        DrawSprite(sprites.gameOver, CDiv(H - sprites.gameOver.height, 2), CDiv(W - sprites.gameOver.width, 2));
        return;
      }
      RunFrame(spawn);
    }

    /** The running branch of `game_frame`. */
    method RunFrame(spawn: seq<bool>)
      requires Valid() && |spawn| == MAX_CHIMNIES && points <= INT_MAX - MAX_CHIMNIES && !gameIsOver
      modifies this, screen, chimnies
      ensures Valid()
      ensures Vars() == NextPlay(sprites, old(Vars()), spawn)
      ensures forall R, C :: InScreen(R, C) ==> screen[R, C] == SceneCell(sprites, old(Vars()), spawn, R, C)
      ensures gameOn == old(gameOn) && saveHz == old(saveHz) && t == old(t)
    {
      ghost var p := Vars();
      ghost var pass := FramePass(sprites, p, spawn);
      DrawScene(spawn);
      label Scene:
      HandleJumping();
      assert points == FrameScore(sprites, p, spawn);
      DrawHud();
      frame := (frame + 1) % U64;
      forall R, C | InScreen(R, C)
        ensures screen[R, C] == SceneCell(sprites, p, spawn, R, C)
      {
        assert old@Scene(screen[R, C]) == SantaLayer(sprites, p, spawn, R, C);
      }
    }

    /** The first part of a running frame: the background, the chimney pass
        and Santa. */
    method DrawScene(spawn: seq<bool>)
      requires Valid() && |spawn| == MAX_CHIMNIES && !gameIsOver
      modifies screen, chimnies, this`gameIsOver, this`points
      ensures var p := old(Vars());
              var pass := FramePass(sprites, p, spawn);
        && chimnies[..] == pass.slots && points == p.points + pass.retired && gameIsOver == pass.hit
        && forall R, C :: InScreen(R, C) ==> screen[R, C] == SantaLayer(sprites, p, spawn, R, C)
    {
      ghost var p := Vars();
      ghost var pass := FramePass(sprites, p, spawn);
      DrawBackground();
      label Background:
      assert chimnies[..] == p.slots;
      var santaY := SANTA_BASE_Y - santaJump;
      var santaX := SANTA_X;
      assert santaY == SantaY(p.jump.jump);
      HandleChimnies(santaY, santaX, spawn);
      label Chimneys:
      forall R, C | InScreen(R, C)
        ensures screen[R, C] == ChimneyLayer(sprites, p, spawn, R, C)
      {
        assert old@Background(screen[R, C]) == BackgroundCell(sprites, p.frame, R, C);
      }
      var santa := if frame % 2 == 1 || santaJump != 0 then sprites.santa1 else sprites.santa2;
      assert santa == sprites.Get(SantaSprite(p.frame, p.jump.jump));
      DrawSprite(santa, santaY, santaX);
    }

    /** The three clouds of a frame. */
    method DrawClouds()
      requires Shape()
      modifies screen
      ensures forall R, C :: InScreen(R, C) ==> screen[R, C] == CloudsOver(sprites, frame, R, C, old(screen[R, C]))
    {
      DrawSprite(sprites.cloud1, 0, CloudX(frame / 3, 48, sprites.cloud1.width));
      DrawSprite(sprites.cloud1, 3, CloudX(frame, 3, sprites.cloud1.width));
      DrawSprite(sprites.cloud1, 10, CloudX(frame / 2, 15, sprites.cloud1.width));
    }

    /** The background of a running frame, drawn over a cleared screen. */
    method DrawBackground()
      requires Shape()
      modifies screen
      ensures forall R, C :: InScreen(R, C) ==> screen[R, C] == BackgroundCell(sprites, frame, R, C)
    {
      ClearScreen();
      DrawStars();
      DrawRoof();
      DrawSprite(sprites.moon, 1, 70);
      DrawClouds();
    }

    /** The help line and the score readout on row 1. */
    method DrawHud()
      requires Shape() && points <= INT_MAX
      modifies screen
      ensures forall R, C :: InScreen(R, C) ==> screen[R, C] == HudOver(points, R, C, old(screen[R, C]))
    {
      Print(1, 1, HelpText);
      label Help:
      var buff := ScoreText(points);
      ScoreOnScreen(points);
      assert W - |buff| + 1 == ScoreColumn(points);
      Print(1, W - |buff| + 1, buff);
      forall R, C | InScreen(R, C)
        ensures screen[R, C] == HudOver(points, R, C, old(screen[R, C]))
      {
        assert old@Help(screen[R, C]) == PrintOver(1, 1, HelpText, R, C, old(screen[R, C]));
      }
    }

    // ------------------------------------------------------------ session

    /** The variables `start_game` resets, as a fresh game has them. */
    ghost predicate FreshGame()
      reads this, chimnies
    {
      && gameOn && !gameIsOver && points == 0
      && santaJumping == 0 && santaJump == 0 && frame == 0 && t == 0
      && forall i :: 0 <= i < chimnies.Length ==> chimnies[i].sprite.None?
    }

    /** `start_game`: `hz` is the host's update rate, `hz'` its new value. */
    method StartGame(hz: int) returns (hz': int)
      requires Valid()
      modifies this, chimnies
      ensures Valid()
      ensures old(gameOn) ==> hz' == hz && unchanged(this) && unchanged(chimnies)
      ensures !old(gameOn) ==> && FreshGame() && saveHz == hz && hz' == GameHz(hz)
                               && forall i :: 0 <= i < MAX_CHIMNIES ==> chimnies[i] == old(chimnies[i]).(sprite := None)
    {
      if gameOn { return hz; }
      saveHz := hz;
      hz' := hz;
      if saveHz < MIN_UPDT_HZ {
        hz' := MIN_UPDT_HZ;
      }
      var i := 0;
      while i < MAX_CHIMNIES
        invariant 0 <= i <= MAX_CHIMNIES && saveHz == hz
        invariant forall k :: 0 <= k < MAX_CHIMNIES ==>
          chimnies[k] == if k < i then old(chimnies[k]).(sprite := None) else old(chimnies[k])
      {
        chimnies[i] := chimnies[i].(sprite := None);
        i := i + 1;
      }
      points := 0;
      gameIsOver := false;
      santaJumping := 0;
      santaJump := 0;
      frame := 0;
      t := 0;
      gameOn := true;
    }

    /** `end_game`: restores the saved update rate. */
    method EndGame(hz: int) returns (hz': int)
      requires Valid()
      modifies this`gameOn
      ensures Valid() && !gameOn
      ensures old(gameOn) ==> hz' == saveHz
      ensures !old(gameOn) ==> hz' == hz
    {
      if !gameOn { return hz; }
      hz' := saveHz;
      gameOn := false;
    }

    /** `ho_ho_hop`, the command: refused while playing or on a terminal smaller
        than 24 rows by 80 columns; otherwise the game starts. */
    method HoHoHop(rows: int, cols: int, hz: int) returns (res: Outcome<StartError>, hz': int)
      requires Valid()
      modifies this, chimnies
      ensures Valid()
      ensures old(gameOn) ==> res == Fail(AlreadyPlaying)
      ensures !old(gameOn) && (rows < H || cols < W) ==> res == Fail(ScreenTooSmall)
      ensures res.Fail? ==> hz' == hz && unchanged(this) && unchanged(chimnies)
      ensures res.Pass? ==> && FreshGame() && saveHz == hz && hz' == GameHz(hz)
                            && forall i :: 0 <= i < MAX_CHIMNIES ==> chimnies[i] == old(chimnies[i]).(sprite := None)
      ensures res.Pass? <==> !old(gameOn) && rows >= H && cols >= W
    {
      if gameOn {
        return Fail(AlreadyPlaying), hz;
      }
      if rows < H || cols < W {
        return Fail(ScreenTooSmall), hz;
      }
      hz' := StartGame(hz);
      res := Pass;
    }

    /** `ekey`, the key handler, called by the host only while a game is on
        (start_game registers it, end_game removes it). */
    method OnKey(key: Key, hz: int) returns (consumed: bool, hz': int)
      requires Valid() && gameOn
      modifies this, chimnies
      ensures Valid()
      ensures consumed <==> !key.Mouse?
      ensures key == Press('q' as int) ==>
        && !gameOn && hz' == saveHz == old(saveHz)
        && gameIsOver == old(gameIsOver) && points == old(points) && frame == old(frame)
        && t == old(t) && santaJumping == old(santaJumping) && santaJump == old(santaJump)
        && unchanged(chimnies)
      ensures key == Press('r' as int) ==>
        && FreshGame() && saveHz == old(saveHz) && hz' == GameHz(old(saveHz))
        && forall i :: 0 <= i < MAX_CHIMNIES ==> chimnies[i] == old(chimnies[i]).(sprite := None)
      ensures key == Press(ENTER) ==>
        && hz' == hz && unchanged(chimnies)
        && gameOn && gameIsOver == old(gameIsOver) && points == old(points) && frame == old(frame)
        && t == old(t) && saveHz == old(saveHz)
        && JumpState(santaJumping, santaJump) == Hop(gameIsOver, old(JumpState(santaJumping, santaJump)))
      ensures key !in {Press('q' as int), Press('r' as int), Press(ENTER)} ==>
        hz' == hz && unchanged(this) && unchanged(chimnies)
    {
      if key.Mouse? { return false, hz; }
      consumed, hz' := true, hz;
      if key.code == 'q' as int {
        hz' := EndGame(hz);
      } else if key.code == 'r' as int {
        hz' := EndGame(hz);
        hz' := StartGame(hz');
      } else if key.code == ENTER {
        if !gameIsOver && santaJumping == 0 {
          santaJumping := 1;
          santaJump := 1;
        }
      }
    }

    /** `edraw`, the redraw handler, called by the host only while a game is on:
        a frame runs once at least FRAME_MS milliseconds have passed since the
        last, the difference taken in u64 arithmetic (a clock that went back
        wraps to a large difference). */
    method OnDraw(now: nat, spawn: seq<bool>)
      requires Valid() && gameOn && |spawn| == MAX_CHIMNIES && now < U64
      requires points <= INT_MAX - MAX_CHIMNIES
      modifies this, screen, chimnies
      ensures Valid()
      ensures (now - old(t)) % U64 >= FRAME_MS ==>
        && Vars() == NextPlay(sprites, old(Vars()), spawn)
        && (forall R, C :: InScreen(R, C) ==> screen[R, C] == FrameCell(sprites, old(Vars()), spawn, R, C, old(screen[R, C])))
        && t == now && gameOn && saveHz == old(saveHz)
      ensures (now - old(t)) % U64 < FRAME_MS ==> unchanged(this) && unchanged(screen) && unchanged(chimnies)
    {
      if (now - t) % U64 >= FRAME_MS {
        GameFrame(spawn);
        t := now;
      }
    }

    /** `unload`: the plugin is unloaded by ending the game. */
    method Unload(hz: int) returns (hz': int)
      requires Valid()
      modifies this`gameOn
      ensures Valid() && !gameOn
      ensures hz' == if old(gameOn) then saveHz else hz
    {
      hz' := EndGame(hz);
    }

    /** A session that starts and is quit with 'q' gives the host back the
        update rate it had. */
    method QuitRestoresRate(rows: int, cols: int, hz: int) returns (res: Outcome<StartError>, hz': int)
      requires Valid() && !gameOn
      modifies this, chimnies
      ensures Valid() && !gameOn && hz' == hz
      ensures res.Pass? <==> rows >= H && cols >= W
    {
      var during;
      res, during := HoHoHop(rows, cols, hz);
      hz' := during;
      if res.Pass? {
        var consumed;
        consumed, hz' := OnKey(Press('q' as int), during);
      }
    }
  }
}
