# Ho Ho Hop, modelled in Dafny

Ho Ho Hop is a plugin for the yed terminal editor. It is a side-scrolling mini game. Santa stands on a moving rooftop and hops over chimneys with the Enter key, and every chimney that scrolls off the left edge scores a point. The plugin draws into its own 24×80 framebuffer of cells (a glyph plus display attributes). It then copies the framebuffer to the terminal.

This project models the game engine of `yule_2022.c`:

- **Framebuffer and drawing primitives.** These are clearing, printing text, the stars, the scrolling roof and the sprite compositor.
- **Collision test.**
- **Chimney pool.** Two slots, each empty or holding a chimney, updated by one pass per frame.
- **Jump state machine.**
- **One frame.**
- **Session controller.** The `ho-ho-hop` command, start and end of a game, the key handler, the throttled redraw handler and unload.

How the model is organised:

- **`Game.HoHoHop`, a class holding the plugin's globals.** The framebuffer is an `array2<Cell>` and the chimney pool an `array<Moving>`. Both are rewritten in place by methods whose loops follow the C loops.
- **Pure cell functions.** Each drawing primitive is proved against a pure function `...Over(params, R, C, cell)` that gives the new content of screen cell (R, C) when its old content was `cell`. There are two exceptions. `ClearScreen` is proved against the constant `Blank`, and `Star` against an explicit per-cell expression. `DrawBackground`, `RunFrame` and `DrawScene` start from a cleared screen. They are proved against the cell functions `Frame.BackgroundCell`, `Frame.SceneCell` and `Frame.SantaLayer`, which take no old cell. The primitives' functions are held as follows:
  - `Screen` holds those for the text and background primitives: `PrintOver`, `StarsOver`, `RoofOver`.
  - `Sprites` holds `SpriteOver`.
  - `Chimneys` holds `ChimneysOver`.
  - `Hud` holds `HudOver`.
  - `Frame` composes them in drawing order into the content of a whole frame.
- **Pure game logic.** The chimney pass is `Chimneys.ChimneyPass`, the jump step is `Jump.JumpStep`, and the game variables after a frame are `Frame.NextPlay`.
- **Properties.** They are proved as lemmas about these functions. The methods' postconditions tie the new array contents and fields to the functions.

Inputs from the host are parameters:

- The terminal size is passed to `HoHoHop`.
- The host's update-rate setting is passed in as `hz`, and the setting the plugin leaves is returned as `hz'`.
- The clock reading is passed to `OnDraw` as `now`.
- Each `rand() % 10 == 0` draw is an entry of `spawn: seq<bool>`, one per chimney slot.
- The six sprite assets are a `Catalog` of well-formed sprites given to the constructor.

Integer widths are explicit where they matter:

- `frame` and `t` are C `u64` values. The frame counter wraps modulo 2^64.
- `edraw`'s `now - t` is computed modulo 2^64.
- `points` is a C `int`. A frame requires a score at most `INT_MAX - 2` (two slots can retire per frame), so the increment never overflows.

Behaviours of the code a reader might not expect:

- **Jump heights.** A hop runs through the odd heights 1, 3, 5, 7, 9, 11, 9, 7, 5, 3, 1 and then 0. The peak is `SANTA_MAX_JUMP + 1`, and the height is never 10.
- **Terminal size check.** Only the `ho-ho-hop` command checks the size. A restart with 'r' skips the check.
- **Cloud columns.** They use `frame / 3`, `frame` and `frame / 2` with phases 48, 3 and 15.
- **Time difference.** `now - t` keeps its unsigned wrap-around. A clock reading below `t` therefore runs a frame, unless `t - now > 2^64 - 100`.

Other behaviours of the code that the model keeps literally:

- The roof's '=' row carries foreground 231 rather than the roof's 16. `print` sets it after the roof attributes are written.
- The star at row 16, column 56 is always covered by the roof, because the roof is drawn after the stars.
- `draw_sprite` takes a colour's foreground kind from the palette entry's background kind. Every entry has the same kind for both, so this is harmless.

## Model

| member | source | states |
|---|---|---|
| Screen.PrintableLen | yule_2022.c:181-182 | `print` takes at most the whole message; no character it takes is a control character (NUL included); the character that stops it is one |
| Screen.IsCntrl | yule_2022.c:182 | definition: `iscntrl` on ASCII characters, that is codes 0..31 and 127 |
| Screen.TextAttrs | yule_2022.c:184-185 | definition: a printed cell gets foreground 231 in the 256-colour space; its background is kept |
| Screen.PrintedIff | yule_2022.c:181-186 | the characters `print` reaches by advancing its pointer are exactly the first `PrintableLen` characters |
| Screen.PrintBelowScreen | yule_2022.c:179 | `print` on a row below the screen changes no cell |
| Screen.PrintOver | yule_2022.c:178-188 | definition: the cell at (R, C) after `print(r, c, msg)`: on row r, from column c, the k-th message character with foreground 231 of kind 256 while characters 0..k are all printable; otherwise the old cell |
| Screen.PrintFootprint | yule_2022.c:178-188 | `print(r, c, msg)` writes exactly the cells of row r from column c up to the last printable character (clipped at column 80); there it sets the glyph and foreground 231 of kind 256 and keeps the background; every other cell is unchanged |
| Screen.PrintableLenAll | yule_2022.c:181-182 | a message without control characters is printed in full |
| Screen.PrintStopsAtCntrl | yule_2022.c:182 | nothing from the first control character on is printed |
| Screen.StarsOver | yule_2022.c:209-219 | definition: the eight fixed star cells become '*' in the star colours; every other cell is kept |
| Screen.RoofGlyph | yule_2022.c:236-239 | definition: '/' where (j + i) % 8 == 7 - frame % 8 (1-based row i, 0-based column j), '_' elsewhere |
| Screen.RoofOver | yule_2022.c:229-242 | definition: row 15 becomes '=' in roof colours with the foreground `print` sets; rows 16..24 the texture glyph in roof colours; rows above are kept |
| Screen.RoofOpaque | yule_2022.c:229-242 | rows 15..24 after `draw_roof` do not depend on their old content (so the star at row 16 vanishes); rows above 15 are untouched |
| Screen.RoofPeriodic | yule_2022.c:236-239 | the roof texture repeats every 8 frames |
| Screen.RoofScrollsLeft | yule_2022.c:236-239 | one frame later the texture is shifted one column to the left |
| Screen.RoofSlashSpacing | yule_2022.c:239 | along a roof row the slashes are exactly 8 columns apart |
| Sprites.Palette | yule_2022.c:249-290 | definition: the eight colour keys and their 256-colour attributes; any other key has none (the zero attributes) |
| Sprites.Paint | yule_2022.c:266-300 | definition: one sprite cell over a screen cell: the glyph, then the background and the foreground each replaced only for a known key, the foreground kind taken from the entry's background kind |
| Sprites.SpriteOver | yule_2022.c:258-300 | definition: a cell inside the sprite's footprint under a non-'X' glyph is painted from that sprite cell; every other cell is kept |
| Sprites.PaintChannels | yule_2022.c:249-300 | a painted cell gets the sprite glyph; background and foreground are each set to the palette colour (k=16, w=231, G=250, r=124, y=178, Y=228, t=180, B=17) in the 256-colour space when their key is known, and left as they were otherwise, independently of each other |
| Sprites.SpriteOverCells | yule_2022.c:258-266 | `draw_sprite` leaves cells outside the sprite's footprint and cells under an 'X' unchanged, and every other footprint cell shows the sprite's glyph |
| Sprites.TransparentSpriteDrawsNothing | yule_2022.c:264 | a sprite made only of 'X' glyphs changes no cell |
| Sprites.CDiv | yule_2022.c:365 | C's integer division truncates toward zero: quotient and remainder bounds for both signs |
| Sprites.CloudX | yule_2022.c:375-377 | every cloud column lies in [1 - width, 80] |
| Sprites.CloudDrifts | yule_2022.c:375-377 | a cloud moves one column left per step, except that after column 1 - width it comes back at column 80 |
| Sprites.CloudPeriodic | yule_2022.c:375-377 | cloud positions repeat every 80 + width steps |
| Chimneys.Colliding | yule_2022.c:306-313 | definition: the rectangles collide unless one lies strictly left of, right of, above or below the other |
| Chimneys.HitsSanta | yule_2022.c:329-330 | definition: Santa's sprite rectangle inset by 4 columns on each side against the chimney's inset by 1 |
| Chimneys.Spawned | yule_2022.c:321-323 | definition: a new chimney at x = 80 + width, y = 19 |
| Chimneys.Advance | yule_2022.c:335-340 | definition: an occupied slot moves 5 columns left and is emptied when its new x is at most -width; an empty slot is kept |
| Chimneys.Retires | yule_2022.c:337-339 | definition: an occupied slot that the move empties, which is the case that scores a point |
| Chimneys.CollidingSymmetric | yule_2022.c:306-313 | the collision test gives the same answer with the two rectangles swapped |
| Chimneys.TouchingCollides | yule_2022.c:309-312 | rectangles that only share an edge collide, because the test uses strict `<` |
| Chimneys.CollidingIffSharedPoint | yule_2022.c:306-313 | for non-negative sizes the test holds exactly when the closed rectangles [l, l+w]×[t, t+h] share an integer point |
| Chimneys.ChimneyPass | yule_2022.c:315-343 | one pass keeps the number of slots and retires at most one chimney per visited slot |
| Chimneys.ChimneysOver | yule_2022.c:334 | definition: the cell after the pass's chimneys are drawn with `draw_sprite`, in pass order and at their pre-move positions; empty slots draw nothing |
| Chimneys.ChimneysOverAppend | yule_2022.c:334 | drawing two runs of chimneys one after the other is drawing their concatenation |
| Chimneys.PassDrawn | yule_2022.c:318-342 | the chimneys a pass draws are exactly the occupied slots it visits before the slot it fills, in slot order and at their positions before the move |
| Chimneys.PassStep | yule_2022.c:319-341 | one visited slot: an empty slot with a successful draw gets a new chimney and ends the pass; an empty slot without one is skipped; an occupied slot adds its collision, its retirement and its drawing to the rest of the pass |
| Chimneys.FirstSpawn | yule_2022.c:319-325 | the first slot a pass fills is an empty slot with a successful draw, and no slot before it is one |
| Chimneys.NumActiveUpdate | yule_2022.c:62 | replacing one slot changes the count of occupied slots by that slot's change |
| Chimneys.PassSlots | yule_2022.c:318-342 | with k the slot a pass fills: every slot before k is moved 5 columns left and emptied exactly when its new x is at most -width; slot k gets a chimney at x = 80 + width, y = 19; slots after k are untouched |
| Chimneys.PassHit | yule_2022.c:329-332 | a pass reports a hit exactly when one of the occupied slots it visits before its spawn overlaps Santa's hitbox |
| Chimneys.PassConserves | yule_2022.c:337-340 | occupied slots plus points retired are conserved by a pass, plus one for the chimney it may spawn: each point is one retired chimney |
| Chimneys.FirstSpawnFrame | yule_2022.c:319-320 | which slot a pass fills depends only on the slots it has not yet visited |
| Chimneys.AtMostOneSpawn | yule_2022.c:320-324 | a pass fills at most one empty slot |
| Jump.Hop | yule_2022.c:166-170 | Enter starts a hop at height 1 exactly when the game is not over and Santa is idle; otherwise the state is unchanged |
| Jump.JumpStep | yule_2022.c:345-356 | a jump step keeps the jump invariant, keeps the height in [0, 11], and leaves Santa idle exactly when his height is 0 |
| Jump.Steps | yule_2022.c:345-356 | repeated jump steps keep the jump invariant |
| Jump.Heights | yule_2022.c:345-356 | n steps give n heights |
| Jump.HeightsAreSteps | yule_2022.c:345-356 | entry k of the heights is Santa's height after k + 1 jump steps |
| Jump.StepsToLandStep | yule_2022.c:346-354 | each step in the air brings the landing one step closer |
| Jump.Lands | yule_2022.c:345-356 | every hop in the air lands after exactly `StepsToLand` steps and is airborne before |
| Jump.HopTrajectory | yule_2022.c:166-170 | a hop from the ground passes through 3, 5, 7, 9, 11, 9, 7, 5, 3, 1, 0 and is idle after exactly 11 steps |
| Hud.Decimal | yule_2022.c:389 | the decimal rendering has at least one digit, only digits and no leading zero |
| Hud.DecimalRoundTrip | yule_2022.c:389 | reading the digits back gives the score |
| Hud.DecimalInjective | yule_2022.c:389 | different scores print different digits |
| Hud.Pad3 | yule_2022.c:389 | `%3d` pads with leading spaces to width 3 and keeps the digits at the end |
| Hud.ScoreRightAligned | yule_2022.c:389-390 | the readout starts with "Score: ", holds the score's digits at its end, is printed in full, and its last character lands on column 80 |
| Hud.DecimalLength | yule_2022.c:389 | a number below 10^k has at most k digits |
| Hud.ScoreOnScreen | yule_2022.c:389-390 | every `int` score gives a readout starting between columns 64 and 71 |
| Hud.ScoreText | yule_2022.c:389 | definition: "Score: " followed by the score rendered as `%3d` |
| Hud.ScoreColumn | yule_2022.c:389-390 | definition: the readout starts at column 80 - len + 1, where len is the length of the score text |
| Hud.HudOver | yule_2022.c:388-390 | definition: the help line printed at (1, 1), then the score readout printed at column 80 - length + 1 |
| Hud.HudOffRow1 | yule_2022.c:388-390 | the help line and the score touch only row 1 |
| Hud.DecimalLast | yule_2022.c:389 | the last digit rendered is the units digit |
| Hud.ScoreLastCell | yule_2022.c:390 | the score print writes the units digit into cell (1, 80) |
| Hud.ScoreInCorner | yule_2022.c:388-390 | after both prints, cell (1, 80) shows the units digit of the score |
| Frame.SantaY | yule_2022.c:379 | definition: Santa's row is 7 minus his height |
| Frame.SantaSprite | yule_2022.c:384 | definition: santa1 on odd frames or in the air, santa2 otherwise |
| Frame.GameOverY | yule_2022.c:365 | definition: (24 - height) / 2 with C's truncating division |
| Frame.GameOverX | yule_2022.c:365 | definition: (80 - width) / 2 with C's truncating division |
| Frame.CloudsOver | yule_2022.c:375-377 | definition: cloud1 drawn at rows 0, 3 and 10, at the columns for steps frame / 3, frame and frame / 2 with phases 48, 3 and 15 |
| Frame.BackgroundCell | yule_2022.c:369-377 | definition: a blank, then stars, roof, the moon at (1, 70) and the clouds |
| Frame.FramePass | yule_2022.c:379-382 | definition: the frame's chimney pass, run with Santa at row 7 - santa_jump and column 5 |
| Frame.ChimneyLayer | yule_2022.c:334 | definition: the pass's chimneys drawn over the frame's background (the draws reached through the call at line 382) |
| Frame.SantaLayer | yule_2022.c:384 | definition: Santa's sprite (santa1 when the frame is odd or he is airborne, else santa2) drawn at row 7 - santa_jump, column 5, over the chimney layer |
| Frame.FrameScore | yule_2022.c:389 | definition: the score the readout prints, which is the old score plus the slots the pass retired |
| Frame.SceneCell | yule_2022.c:369-390 | definition: background, the chimneys of the frame's pass, Santa at his row and column 5, then the help line and the score after the pass |
| Frame.FrameCell | yule_2022.c:364-390 | definition: when the game is over, the game-over sprite drawn centred over the old cell; otherwise the scene |
| Frame.NextPlay | yule_2022.c:358-394 | the game variables after a frame keep the frame counter below 2^64, the jump invariant and two slots |
| Frame.GameOverFreezes | yule_2022.c:364-367 | once the game is over, a frame changes no game variable (the frame counter included) and writes only the footprint of the centred game-over sprite |
| Frame.RunningFrame | yule_2022.c:369-393 | a running frame adds exactly 1 to the frame counter modulo 2^64 (so 2^64 - 1 wraps to 0), takes one jump step, raises the score by at most 2, and ends the game exactly when a chimney visited before the spawn hits Santa |
| Frame.SceneRedrawn | yule_2022.c:369 | a running frame is drawn from a cleared screen: no cell depends on what was there before |
| Frame.SantaOnTop | yule_2022.c:379-390 | below row 1, every non-transparent cell of Santa's sprite shows Santa's glyph, over every chimney and the background |
| Frame.SantaGlyph | yule_2022.c:384 | Santa, drawn after the chimneys, shows his non-transparent glyphs |
| Frame.SceneOffRow1 | yule_2022.c:388-390 | below row 1 the HUD leaves the scene as drawn |
| Frame.ScoreReadout | yule_2022.c:382-390 | cell (1, 80) of a running frame shows the units digit of the score after that frame's chimney pass |
| Game.GameHz | yule_2022.c:111-114 | the rate a game runs at is at least 30 and at least the old rate, and is one of the two |
| Game.HoHoHop.constructor | yule_2022.c:53-62 | at load every global is zero: the game is off, the pool is empty and every cell is zeroed |
| Game.HoHoHop.ClearScreen | yule_2022.c:86-99 | every cell becomes a blank with fg 231 and bg 16 |
| Game.HoHoHop.Print | yule_2022.c:178-188 | every cell becomes its `PrintOver` image of the old cell |
| Game.HoHoHop.Star | yule_2022.c:209-210 | one star sets its cell to '*' with the star colours and changes no other cell |
| Game.HoHoHop.DrawStars | yule_2022.c:204-220 | exactly the eight star cells become '*' with the star colours |
| Game.HoHoHop.DrawRoof | yule_2022.c:222-243 | every cell becomes its `RoofOver` image for the current frame |
| Game.HoHoHop.DrawSprite | yule_2022.c:245-304 | every cell becomes its `SpriteOver` image: clipped per cell, 'X' transparent, colours one channel at a time |
| Game.HoHoHop.HandleChimnies | yule_2022.c:315-343 | the pool becomes the pass's slots; the game is over if it was or the pass hit Santa (never cleared); points rise by the slots retired; the screen shows the pass's chimneys drawn in order over the old screen |
| Game.HoHoHop.VisitSlot | yule_2022.c:319-341 | one iteration: it ends the loop exactly when it spawns into an empty slot, and its effect is one step of the pass |
| Game.HoHoHop.MoveChimney | yule_2022.c:328-341 | an occupied slot is tested against Santa, drawn at its old position, moved 5 left and retired with one point when past the left edge |
| Game.HoHoHop.HandleJumping | yule_2022.c:345-356 | the jump fields take one `JumpStep` |
| Game.HoHoHop.GameFrame | yule_2022.c:358-394 | the game variables become `NextPlay` and every cell its `FrameCell` image; the session fields are untouched |
| Game.HoHoHop.RunFrame | yule_2022.c:369-393 | a running frame draws `SceneCell` into every cell and advances the variables to `NextPlay` |
| Game.HoHoHop.DrawScene | yule_2022.c:369-384 | background, chimney pass and Santa: pool, score and game-over flag follow the pass; every cell shows Santa over the chimneys over the background |
| Game.HoHoHop.DrawClouds | yule_2022.c:375-377 | the three clouds are drawn at their drifting columns |
| Game.HoHoHop.DrawBackground | yule_2022.c:369-377 | clear, stars, roof, moon and clouds give every cell its background image |
| Game.HoHoHop.DrawHud | yule_2022.c:388-390 | the help line, then the right-aligned score readout |
| Game.HoHoHop.StartGame | yule_2022.c:101-127 | a running game is left alone; otherwise the rate is saved and raised to at least 30, every slot emptied, and score, game-over flag, jump state, frame and t zeroed |
| Game.HoHoHop.EndGame | yule_2022.c:129-139 | the game is off afterwards, and the saved rate is restored if a game was on (otherwise nothing changes) |
| Game.HoHoHop.HoHoHop | yule_2022.c:141-153 | refused, with no state change, while playing or on a terminal below 24×80; started exactly otherwise |
| Game.HoHoHop.OnKey | yule_2022.c:155-176 | mouse events are not consumed and every other key is; 'q' ends the game, 'r' ends and restarts it keeping the original saved rate, Enter starts a hop; 'q' leaves score, frame, t, the jump state and the pool as they were; other keys change nothing |
| Game.HoHoHop.OnDraw | yule_2022.c:396-407 | a frame runs, and t becomes now, exactly when `now - t` (u64) is at least 100 ms; otherwise nothing changes |
| Game.HoHoHop.Unload | yule_2022.c:409-411 | unloading ends the game and restores the saved rate if one was running |
| Game.HoHoHop.QuitRestoresRate | yule_2022.c:101-139 | a session started by the command and quit with 'q' gives the host back the update rate it had |

## Left out

- `paint` (yule_2022.c:191-202) copies the framebuffer to the terminal. It is pure terminal output, so `OnDraw` models only the throttle and the frame.
- `yed_plugin_boot`, handler registration and deletion, the `LOG` macro and `YEXE("redraw")` are host plumbing. Registration is reflected only in `OnKey` and `OnDraw` requiring a running game, because the host calls them only then.
- The wording of the `yed_cerr` messages is not modelled: a refusal is a `Fail(AlreadyPlaying)` or `Fail(ScreenTooSmall)` result.
- `rand()`, `measure_time_now_ms`, the terminal size and the host's update rate are parameters, as described above.
- The contents of the `.sprite` asset files are not part of this model. Sprites are well-formed parameters, so no property depends on their particular glyphs or sizes.
- `yed_parse_attrs` and `G()` are reduced to named attribute constants and plain characters. The `IS_MOUSE` encoding is reduced to a `Mouse` key value.
- `snprintf` is modelled only as the `%3d` rendering of a non-negative score. The 1024-byte buffer never fills, because the readout has at most 17 characters.
- Game.HoHoHop.GameFrame: requires the score to be at most `INT_MAX - 2`, because the C code's `int` increment is undefined behaviour past `INT_MAX`.
- Game.HoHoHop.OnDraw: requires the same score bound as GameFrame, for the same reason.
- Sprites.CloudX: takes its step count as an unbounded natural number. It does not model the u64 wrap of `frame + 3`, which happens only in the last 3 frames before 2^64. `frame / 3 + 48` and `frame / 2 + 15` cannot wrap. The C subtraction `SCREEN_W - (...)` is unsigned. The negative column the model computes comes out of C only through the implementation-defined conversion of that u64 value to `draw_sprite`'s `int x` (reduction modulo 2^32 on two's-complement compilers), and the model relies on that conversion.
- Screen.IsCntrl: covers the ASCII range only; `iscntrl` on other code points is locale-dependent in C.
