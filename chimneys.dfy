/** The obstacle manager: the collision test and one pass of `handle_chimnies`
    over the fixed pool of chimney slots, as pure functions. */
module Chimneys {
  import opened Wrappers
  import opened Screen
  import opened Sprites

  const MAX_CHIMNIES: int := 2
  const SPAWN_ROW: int := 19    // the row a new chimney is placed on
  const SCROLL: int := 5        // columns a chimney moves per frame

  /** A positioned sprite; a slot whose sprite is None is empty. */
  datatype Moving = Moving(sprite: Option<SpriteId>, x: int, y: int)

  // ---------------------------------------------------------------- collision

  /** `colliding`: rectangles (l, t, w, h) overlap unless one lies strictly to
      one side of the other, so rectangles that only touch collide. */
  function Colliding(l1: int, t1: int, w1: int, h1: int,
                     l2: int, t2: int, w2: int, h2: int): bool
  {
    !(l1 + w1 < l2 || l2 + w2 < l1 || t1 + h1 < t2 || t2 + h2 < t1)
  }

  /** The test is the same with the rectangles swapped. */
  lemma CollidingSymmetric(l1: int, t1: int, w1: int, h1: int,
                           l2: int, t2: int, w2: int, h2: int)
    ensures Colliding(l1, t1, w1, h1, l2, t2, w2, h2) == Colliding(l2, t2, w2, h2, l1, t1, w1, h1)
  {
  }

  /** Rectangles that share only an edge collide. */
  lemma TouchingCollides(l1: int, t1: int, w1: int, h1: int, t2: int, w2: int, h2: int)
    requires w1 >= 0 && w2 >= 0 && h2 >= 0 && t1 <= t2 <= t1 + h1
    ensures Colliding(l1, t1, w1, h1, l1 + w1, t2, w2, h2)
  {
  }

  /** Reference definition: the test holds exactly when the closed integer
      rectangles [l, l + w] x [t, t + h] share a point. */
  lemma CollidingIffSharedPoint(l1: int, t1: int, w1: int, h1: int,
                                l2: int, t2: int, w2: int, h2: int)
    requires w1 >= 0 && h1 >= 0 && w2 >= 0 && h2 >= 0
    ensures Colliding(l1, t1, w1, h1, l2, t2, w2, h2) <==>
      exists px, py :: InRect(l1, t1, w1, h1, px, py) && InRect(l2, t2, w2, h2, px, py)
  {
    if Colliding(l1, t1, w1, h1, l2, t2, w2, h2) {
      var px := if l1 < l2 then l2 else l1;
      var py := if t1 < t2 then t2 else t1;
      assert InRect(l1, t1, w1, h1, px, py) && InRect(l2, t2, w2, h2, px, py);
    }
  }

  /** The closed integer rectangle [l, l + w] x [t, t + h] contains (px, py). */
  predicate InRect(l: int, t: int, w: int, h: int, px: int, py: int) {
    l <= px <= l + w && t <= py <= t + h
  }

  /** Santa's hitbox (his sprite inset by 4 columns on each side) against a
      chimney's (inset by one column on each side). */
  predicate HitsSanta(cat: Catalog, santaY: int, santaX: int, m: Moving) {
    Colliding(santaX + 4, santaY, cat.santa1.width - 8, cat.santa1.height,
              m.x + 1, m.y, cat.chimney.width - 2, cat.chimney.height)
  }

  // ---------------------------------------------------------------- one pass

  /** A freshly spawned chimney, just beyond the right edge. */
  function Spawned(cat: Catalog): Moving {
    Moving(Some(Chimney), W + cat.chimney.width, SPAWN_ROW)
  }

  /** Moving one active slot: 5 columns left; retired once fully past the left edge. */
  function Advance(cat: Catalog, m: Moving): Moving {
    if m.sprite.None? then m
    else if m.x - SCROLL <= -(cat.chimney.width as int) then m.(sprite := None, x := m.x - SCROLL)
    else m.(x := m.x - SCROLL)
  }

  predicate Retires(cat: Catalog, m: Moving) {
    m.sprite.Some? && Advance(cat, m).sprite.None?
  }

  /** The outcome of a pass: the new slots, whether a chimney hit Santa, how
      many slots were retired, and the chimneys drawn, in drawing order (at
      their positions before moving). */
  datatype PassResult = PassResult(slots: seq<Moving>, hit: bool, retired: nat, drawn: seq<Moving>)

  /** `handle_chimnies` from slot i on; `spawn[j]` is the outcome of the random
      draw made when empty slot j is visited. A spawn ends the pass. */
  function ChimneyPass(cat: Catalog, slots: seq<Moving>, spawn: seq<bool>,
                       santaY: int, santaX: int, i: nat): (p: PassResult)
    requires i <= |slots| == |spawn|
    ensures |p.slots| == |slots|
    ensures p.retired <= |slots| - i
    decreases |slots| - i
  {
    if i == |slots| then PassResult(slots, false, 0, [])
    else
      var m := slots[i];
      if m.sprite.None? then
        if spawn[i] then PassResult(slots[i := Spawned(cat)], false, 0, [])
        else ChimneyPass(cat, slots, spawn, santaY, santaX, i + 1)
      else
        var hit := HitsSanta(cat, santaY, santaX, m);
        var m' := Advance(cat, m);
        var rest := ChimneyPass(cat, slots[i := m'], spawn, santaY, santaX, i + 1);
        PassResult(rest.slots, hit || rest.hit,
             rest.retired + (if m'.sprite.None? then 1 else 0), [m] + rest.drawn)
  }

  /** The effect on screen cell (R, C) of drawing the chimneys of a pass in order. */
  function ChimneysOver(cat: Catalog, drawn: seq<Moving>, R: int, C: int, cell: Cell): Cell
    requires cat.Valid()
    decreases |drawn|
  {
    if drawn == [] then cell
    else
      var m := drawn[|drawn| - 1];
      var below := ChimneysOver(cat, drawn[..|drawn| - 1], R, C, cell);
      match m.sprite
      case None => below
      case Some(id) => SpriteOver(cat.Get(id), m.y, m.x, R, C, below)
  }

  /** Drawing two runs of chimneys one after the other is drawing their concatenation. */
  lemma {:induction false} ChimneysOverAppend(cat: Catalog, a: seq<Moving>, b: seq<Moving>, R: int, C: int, cell: Cell)
    requires cat.Valid()
    ensures ChimneysOver(cat, a + b, R, C, cell) == ChimneysOver(cat, b, R, C, ChimneysOver(cat, a, R, C, cell))
    decreases |b|
  {
    if b == [] {
      assert a + b == a;
    } else {
      var b' := b[..|b| - 1];
      assert (a + b)[..|a + b| - 1] == a + b';
      ChimneysOverAppend(cat, a, b', R, C, cell);
    }
  }

  lemma AppendAssoc(a: seq<Moving>, b: seq<Moving>, c: seq<Moving>)
    ensures a + (b + c) == (a + b) + c
  {
  }

  /** One step of a pass, at slot i. */
  lemma PassStep(cat: Catalog, slots: seq<Moving>, spawn: seq<bool>, santaY: int, santaX: int, i: nat)
    requires i < |slots| == |spawn|
    ensures slots[i].sprite.None? && spawn[i] ==>
      ChimneyPass(cat, slots, spawn, santaY, santaX, i) == PassResult(slots[i := Spawned(cat)], false, 0, [])
    ensures slots[i].sprite.None? && !spawn[i] ==>
      ChimneyPass(cat, slots, spawn, santaY, santaX, i) == ChimneyPass(cat, slots, spawn, santaY, santaX, i + 1)
    ensures slots[i].sprite.Some? ==>
      var rest := ChimneyPass(cat, slots[i := Advance(cat, slots[i])], spawn, santaY, santaX, i + 1);
      ChimneyPass(cat, slots, spawn, santaY, santaX, i)
        == PassResult(rest.slots, HitsSanta(cat, santaY, santaX, slots[i]) || rest.hit,
                      rest.retired + (if Retires(cat, slots[i]) then 1 else 0), [slots[i]] + rest.drawn)
  {
  }

  // ---------------------------------------------------------------- reference definitions

  /** The first slot from i on that a pass would fill: empty, with a successful draw. */
  function FirstSpawn(slots: seq<Moving>, spawn: seq<bool>, i: nat): (k: nat)
    requires i <= |slots| == |spawn|
    ensures i <= k <= |slots|
    ensures forall j :: i <= j < k ==> !(slots[j].sprite.None? && spawn[j])
    ensures k < |slots| ==> slots[k].sprite.None? && spawn[k]
    decreases |slots| - i
  {
    if i == |slots| then i
    else if slots[i].sprite.None? && spawn[i] then i
    else FirstSpawn(slots, spawn, i + 1)
  }

  /** The number of occupied slots. */
  function NumActive(slots: seq<Moving>): (n: nat)
    ensures n <= |slots|
  {
    if slots == [] then 0
    else (if slots[0].sprite.Some? then 1 else 0) + NumActive(slots[1..])
  }

  lemma {:induction false} NumActiveUpdate(slots: seq<Moving>, i: nat, v: Moving)
    requires i < |slots|
    ensures NumActive(slots[i := v]) + (if slots[i].sprite.Some? then 1 else 0)
         == NumActive(slots) + (if v.sprite.Some? then 1 else 0)
  {
    if i > 0 {
      assert slots[i := v][1..] == slots[1..][i - 1 := v];
      NumActiveUpdate(slots[1..], i - 1, v);
    } else {
      assert slots[i := v][1..] == slots[1..];
    }
  }

  /** What one pass from slot i does to the slots, stated without the
      recursion: with k the first slot the pass fills, every slot in [i, k) is
      advanced (so an active one moves 5 columns left and is emptied exactly
      when it ends at or left of -width), slot k (if any) gets a new chimney,
      and the slots before i and after k are untouched. */
  lemma {:induction false} PassSlots(cat: Catalog, slots: seq<Moving>, spawn: seq<bool>,
                                     santaY: int, santaX: int, i: nat)
    requires i <= |slots| == |spawn|
    ensures var p := ChimneyPass(cat, slots, spawn, santaY, santaX, i);
            var k := FirstSpawn(slots, spawn, i);
            forall j :: 0 <= j < |slots| ==>
              p.slots[j] == if i <= j < k then Advance(cat, slots[j])
                            else if j == k then Spawned(cat)
                            else slots[j]
    decreases |slots| - i
  {
    var p := ChimneyPass(cat, slots, spawn, santaY, santaX, i);
    var k := FirstSpawn(slots, spawn, i);
    if i == |slots| {
    } else if slots[i].sprite.None? && spawn[i] {
      PassStep(cat, slots, spawn, santaY, santaX, i);
    } else if slots[i].sprite.None? {
      PassSlots(cat, slots, spawn, santaY, santaX, i + 1);
      PassStep(cat, slots, spawn, santaY, santaX, i);
      assert Advance(cat, slots[i]) == slots[i];
    } else {
      var s' := slots[i := Advance(cat, slots[i])];
      PassSlots(cat, s', spawn, santaY, santaX, i + 1);
      FirstSpawnFrame(slots, s', spawn, i + 1);
      PassStep(cat, slots, spawn, santaY, santaX, i);
      var rest := ChimneyPass(cat, s', spawn, santaY, santaX, i + 1);
      assert p.slots == rest.slots && k == FirstSpawn(s', spawn, i + 1);
      forall j | 0 <= j < |slots|
        ensures p.slots[j] == if i <= j < k then Advance(cat, slots[j])
                              else if j == k then Spawned(cat)
                              else slots[j]
      {
        if j != i {
          assert s'[j] == slots[j];
        }
      }
    }
  }

  /** A chimney hits Santa in a pass from slot i exactly when one of the active
      slots the pass visits before it fills a slot collides with his hitbox. */
  lemma {:induction false} PassHit(cat: Catalog, slots: seq<Moving>, spawn: seq<bool>,
                                   santaY: int, santaX: int, i: nat)
    requires i <= |slots| == |spawn|
    ensures var p := ChimneyPass(cat, slots, spawn, santaY, santaX, i);
            var k := FirstSpawn(slots, spawn, i);
            p.hit <==> exists j :: i <= j < k && slots[j].sprite.Some? && HitsSanta(cat, santaY, santaX, slots[j])
    decreases |slots| - i
  {
    var p := ChimneyPass(cat, slots, spawn, santaY, santaX, i);
    var k := FirstSpawn(slots, spawn, i);
    if i < |slots| && slots[i].sprite.None? && !spawn[i] {
      PassHit(cat, slots, spawn, santaY, santaX, i + 1);
    } else if i < |slots| && slots[i].sprite.Some? {
      var s' := slots[i := Advance(cat, slots[i])];
      PassHit(cat, s', spawn, santaY, santaX, i + 1);
      FirstSpawnFrame(slots, s', spawn, i + 1);
      var rest := ChimneyPass(cat, s', spawn, santaY, santaX, i + 1);
      if rest.hit {
        var j :| i + 1 <= j < k && s'[j].sprite.Some? && HitsSanta(cat, santaY, santaX, s'[j]);
        assert slots[j] == s'[j];
      }
      forall j | i + 1 <= j < k && slots[j].sprite.Some? && HitsSanta(cat, santaY, santaX, slots[j])
        ensures rest.hit
      {
        assert s'[j] == slots[j];
      }
    }
  }

  /** Every retired slot adds exactly one point: occupied slots plus points are
      conserved by a pass, except for the one chimney it may spawn. */
  lemma {:induction false} PassConserves(cat: Catalog, slots: seq<Moving>, spawn: seq<bool>,
                                         santaY: int, santaX: int, i: nat)
    requires i <= |slots| == |spawn|
    ensures var p := ChimneyPass(cat, slots, spawn, santaY, santaX, i);
            var k := FirstSpawn(slots, spawn, i);
            NumActive(p.slots) + p.retired == NumActive(slots) + (if k < |slots| then 1 else 0)
    decreases |slots| - i
  {
    if i < |slots| && slots[i].sprite.None? {
      if spawn[i] {
        NumActiveUpdate(slots, i, Spawned(cat));
      } else {
        PassConserves(cat, slots, spawn, santaY, santaX, i + 1);
      }
    } else if i < |slots| {
      var s' := slots[i := Advance(cat, slots[i])];
      PassConserves(cat, s', spawn, santaY, santaX, i + 1);
      FirstSpawnFrame(slots, s', spawn, i + 1);
      NumActiveUpdate(slots, i, Advance(cat, slots[i]));
    }
  }

  /** FirstSpawn from i reads only slots i and beyond. */
  lemma {:induction false} FirstSpawnFrame(s1: seq<Moving>, s2: seq<Moving>, spawn: seq<bool>, i: nat)
    requires i <= |s1| == |s2| == |spawn|
    requires forall j :: i <= j < |s1| ==> s1[j] == s2[j]
    ensures FirstSpawn(s1, spawn, i) == FirstSpawn(s2, spawn, i)
    decreases |s1| - i
  {
    if i < |s1| {
      FirstSpawnFrame(s1, s2, spawn, i + 1);
    }
  }

  /** The occupied slots among slots[i..k], in slot order. */
  function Occupied(slots: seq<Moving>, i: nat, k: nat): (o: seq<Moving>)
    requires i <= k <= |slots|
    ensures |o| <= k - i
    decreases k - i
  {
    if i == k then []
    else (if slots[i].sprite.Some? then [slots[i]] else []) + Occupied(slots, i + 1, k)
  }

  /** Occupied reads only slots[i..k]. */
  lemma {:induction false} OccupiedFrame(s1: seq<Moving>, s2: seq<Moving>, i: nat, k: nat)
    requires i <= k <= |s1| == |s2|
    requires forall j :: i <= j < k ==> s1[j] == s2[j]
    ensures Occupied(s1, i, k) == Occupied(s2, i, k)
    decreases k - i
  {
    if i < k {
      OccupiedFrame(s1, s2, i + 1, k);
    }
  }

  /** The chimneys a pass from slot i draws are exactly the occupied slots it
      visits before the slot it fills, in slot order and at their positions
      before the move. */
  lemma {:induction false} PassDrawn(cat: Catalog, slots: seq<Moving>, spawn: seq<bool>,
                                     santaY: int, santaX: int, i: nat)
    requires i <= |slots| == |spawn|
    ensures ChimneyPass(cat, slots, spawn, santaY, santaX, i).drawn
         == Occupied(slots, i, FirstSpawn(slots, spawn, i))
    decreases |slots| - i
  {
    if i < |slots| && slots[i].sprite.None? && !spawn[i] {
      PassDrawn(cat, slots, spawn, santaY, santaX, i + 1);
    } else if i < |slots| && slots[i].sprite.Some? {
      var s' := slots[i := Advance(cat, slots[i])];
      PassDrawn(cat, s', spawn, santaY, santaX, i + 1);
      FirstSpawnFrame(slots, s', spawn, i + 1);
      OccupiedFrame(slots, s', i + 1, FirstSpawn(slots, spawn, i + 1));
    }
  }

  /** A pass fills at most one empty slot. */
  lemma AtMostOneSpawn(cat: Catalog, slots: seq<Moving>, spawn: seq<bool>,
                       santaY: int, santaX: int, j1: nat, j2: nat)
    requires |slots| == |spawn| && j1 < |slots| && j2 < |slots|
    requires var p := ChimneyPass(cat, slots, spawn, santaY, santaX, 0);
             slots[j1].sprite.None? && p.slots[j1].sprite.Some? &&
             slots[j2].sprite.None? && p.slots[j2].sprite.Some?
    ensures j1 == j2
  {
    PassSlots(cat, slots, spawn, santaY, santaX, 0);
  }

}
