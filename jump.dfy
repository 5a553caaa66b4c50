/** The jump physics: `santa_jumping` is a signed direction (1 rising, -1
    falling, 0 idle) and `santa_jump` the height; one step adds twice the
    direction to the height. */
module Jump {

  const SANTA_MAX_JUMP: int := 10

  datatype JumpState = JumpState(jumping: int, jump: int)

  const Idle: JumpState := JumpState(0, 0)

  /** The states a hop can be in: idle on the ground, rising through the odd
      heights 1..9, or falling through the odd heights 11..1. */
  predicate JumpInv(s: JumpState) {
    || s == Idle
    || (s.jumping == 1 && 1 <= s.jump <= SANTA_MAX_JUMP - 1 && s.jump % 2 == 1)
    || (s.jumping == -1 && 1 <= s.jump <= SANTA_MAX_JUMP + 1 && s.jump % 2 == 1)
  }

  /** ENTER: a hop starts at height 1, but only on the ground and while the game
      is not over; otherwise nothing changes. */
  function Hop(gameIsOver: bool, s: JumpState): (s': JumpState)
    requires JumpInv(s)
    ensures JumpInv(s')
    ensures s' != s <==> !gameIsOver && s == Idle
    ensures s' != s ==> s' == JumpState(1, 1)
  {
    if !gameIsOver && s.jumping == 0 then JumpState(1, 1) else s
  }

  /** `handle_jumping`: one step of the hop. The height stays in
      [0, SANTA_MAX_JUMP + 1], and Santa is idle exactly when on the ground. */
  function JumpStep(s: JumpState): (s': JumpState)
    requires JumpInv(s)
    ensures JumpInv(s')
    ensures 0 <= s'.jump <= SANTA_MAX_JUMP + 1
    ensures s'.jumping == 0 <==> s'.jump == 0
  {
    if s.jumping != 0 then
      var h := s.jump + 2 * s.jumping;
      var d := if h >= SANTA_MAX_JUMP then -1 else s.jumping;
      if h <= 0 then Idle else JumpState(d, h)
    else s
  }

  /** n steps of the hop. */
  function Steps(n: nat, s: JumpState): (s': JumpState)
    requires JumpInv(s)
    ensures JumpInv(s')
  {
    if n == 0 then s else Steps(n - 1, JumpStep(s))
  }

  /** The heights after each of n steps. */
  function Heights(n: nat, s: JumpState): (hs: seq<int>)
    requires JumpInv(s)
    ensures |hs| == n
  {
    if n == 0 then [] else [JumpStep(s).jump] + Heights(n - 1, JumpStep(s))
  }

  /** Entry k of the heights is the height after k + 1 steps. */
  lemma {:induction false} HeightsAreSteps(n: nat, s: JumpState, k: nat)
    requires JumpInv(s) && k < n
    ensures Heights(n, s)[k] == Steps(k + 1, s).jump
  {
    if k > 0 {
      HeightsAreSteps(n - 1, JumpStep(s), k - 1);
    }
  }

  /** How many steps a hop in state s still takes to land. */
  function StepsToLand(s: JumpState): nat
    requires JumpInv(s)
  {
    if s.jumping == 1 then (SANTA_MAX_JUMP + 1 - s.jump) / 2 + (SANTA_MAX_JUMP + 2) / 2
    else if s.jumping == -1 then (s.jump + 1) / 2
    else 0
  }

  /** Each step in the air brings the landing one step closer. */
  lemma StepsToLandStep(s: JumpState)
    requires JumpInv(s) && s.jumping != 0
    ensures StepsToLand(s) == StepsToLand(JumpStep(s)) + 1
  {
  }

  /** Every hop in the air lands after exactly StepsToLand steps, and not before. */
  lemma {:induction false} Lands(s: JumpState)
    requires JumpInv(s) && s.jumping != 0
    ensures StepsToLand(s) > 0
    ensures Steps(StepsToLand(s), s) == Idle
    ensures forall n :: 0 <= n < StepsToLand(s) ==> Steps(n, s).jumping != 0
    decreases StepsToLand(s)
  {
    var s1 := JumpStep(s);
    StepsToLandStep(s);
    if s1.jumping != 0 {
      Lands(s1);
    }
    forall n | 0 < n < StepsToLand(s)
      ensures Steps(n, s).jumping != 0
    {
      assert Steps(n, s) == Steps(n - 1, s1);
    }
  }

  /** A hop from the ground takes 11 steps: up through 3, 5, 7, 9 to the peak
      SANTA_MAX_JUMP + 1 = 11, and down through 9, 7, 5, 3, 1 to 0. */
  lemma {:induction false} HopTrajectory()
    ensures Heights(11, JumpState(1, 1)) == [3, 5, 7, 9, 11, 9, 7, 5, 3, 1, 0]
    ensures Steps(11, JumpState(1, 1)) == Idle
    ensures forall n :: 0 <= n < 11 ==> Steps(n, JumpState(1, 1)).jumping != 0
  {
  }
}
