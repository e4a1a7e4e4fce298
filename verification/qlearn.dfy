/**
  The tabular Q-learning engine: one state per screen cell, four moves per
  state, a reward read off the character under the destination, and an
  offline training pass that walks a virtual agent around the screen.

  Q values are exact reals; the rounding of the C code's doubles is not modelled.
 */
module QLearn {
  import opened NhBot
  import opened Rand

  const X_MAX: int := W
  const Y_MAX: int := H
  const MAX_EPOCHS: int := 10000
  const MAX_ACTIONS: int := 4
  /** How many draws EXPLORE makes at most before giving up on a legal move. */
  const EXPLORE_TRIES: int := 100
  const LEARNING_RATE: real := 0.7
  const DISCOUNT_RATE: real := 0.4

  /** `pos_t`: a row and a column. */
  datatype Pos = Pos(y: int, x: int)

  /** `dir`: N, E, S, W as row and column offsets. */
  const DIRS: seq<Pos> := [Pos(-1, 0), Pos(0, 1), Pos(1, 0), Pos(0, -1)]

  type QVals = s: seq<real> | |s| == MAX_ACTIONS witness [0.0, 0.0, 0.0, 0.0]

  /** `stateAction_t`: the value of each move and the cached best value. */
  datatype StateAction = StateAction(qval: QVals, qmax: real)

  /** `stateSpace`, row-major. */
  type QTable = t: seq<StateAction> | |t| == X_MAX * Y_MAX
    witness seq(X_MAX * Y_MAX, _ => StateAction([0.0, 0.0, 0.0, 0.0], 0.0))

  predicate InGrid(p: Pos) {
    0 <= p.y < Y_MAX && 0 <= p.x < X_MAX
  }

  function Idx(p: Pos): (i: int)
    requires InGrid(p)
    ensures 0 <= i < X_MAX * Y_MAX
  {
    p.y * X_MAX + p.x
  }

  /** The destination of move `a` from `p`. */
  function Move(p: Pos, a: int): Pos
    requires 0 <= a < MAX_ACTIONS
  {
    Pos(p.y + DIRS[a].y, p.x + DIRS[a].x)
  }

  /** `getReward`: floor is an obstacle, gold, doors, blanks and corridors pay 1. */
  function Reward(b: byte): (r: int)
    ensures r in {-1, 0, 1}
    ensures r == -1 <==> b == Chr('.')
    ensures r == 1 <==> b in {Chr('$'), Chr('+'), Chr(' '), Chr('#')}
  {
    if b == Chr('.') then -1
    else if b in {Chr('$'), Chr('+'), Chr(' '), Chr('#')} then 1
    else 0
  }

  /** Wall glyphs are not obstacles to the learner: they pay nothing and cost nothing. */
  lemma WallsAreNeutral(b: byte)
    requires IsWall(b)
    ensures Reward(b) == 0
  {
  }

  /** `m` is the larger of 0 and every value in `qv`. */
  predicate IsMaxQ(qv: QVals, m: real) {
    && m >= 0.0
    && (forall i :: 0 <= i < MAX_ACTIONS ==> qv[i] <= m)
    && (m == 0.0 || exists i :: 0 <= i < MAX_ACTIONS && qv[i] == m)
  }

  lemma MaxQUnique(qv: QVals, m1: real, m2: real)
    requires IsMaxQ(qv, m1) && IsMaxQ(qv, m2)
    ensures m1 == m2
  {
  }

  /** The loop of `CalculateMaxQ` after its first `n` iterations. */
  function RunningMax(qv: QVals, n: int): (m: real)
    requires 0 <= n <= MAX_ACTIONS
    ensures m >= 0.0
    ensures forall i :: 0 <= i < n ==> qv[i] <= m
    ensures m == 0.0 || exists i :: 0 <= i < n && qv[i] == m
  {
    if n == 0 then 0.0
    else
      var m := RunningMax(qv, n - 1);
      if qv[n - 1] > m then qv[n - 1] else m
  }

  /** `CalculateMaxQ`: recompute the cached maximum; the move values stay as they are. */
  function CalculateMaxQ(sa: StateAction): (sa': StateAction)
    ensures sa'.qval == sa.qval
    ensures IsMaxQ(sa'.qval, sa'.qmax)
  {
    StateAction(sa.qval, RunningMax(sa.qval, MAX_ACTIONS))
  }

  predicate TableConsistent(q: QTable) {
    forall i :: 0 <= i < |q| ==> IsMaxQ(q[i].qval, q[i].qmax)
  }

  /** The zero-initialised table the program starts with. */
  function InitialTable(): (q: QTable)
    ensures TableConsistent(q)
  {
    seq(X_MAX * Y_MAX, _ => StateAction([0.0, 0.0, 0.0, 0.0], 0.0))
  }

  /** EXPLOIT from move `a` on: the first move whose value equals the cached maximum. */
  function FirstAtMax(sa: StateAction, a: int): (r: int)
    requires 0 <= a <= MAX_ACTIONS
    decreases MAX_ACTIONS - a
    ensures a <= r <= MAX_ACTIONS
    ensures r < MAX_ACTIONS ==> sa.qval[r] == sa.qmax
    ensures forall j :: a <= j < r ==> sa.qval[j] != sa.qmax
  {
    if a == MAX_ACTIONS || sa.qval[a] == sa.qmax then a else FirstAtMax(sa, a + 1)
  }

  /**
    `ChooseAgentAction(..., EXPLOIT)`: the first move, in N, E, S, W order,
    whose value equals the cached maximum, or `MAX_ACTIONS` when none does.
   */
  function Exploit(sa: StateAction): (a: int)
    ensures 0 <= a <= MAX_ACTIONS
    ensures a < MAX_ACTIONS ==>
              sa.qval[a] == sa.qmax && forall j :: 0 <= j < a ==> sa.qval[j] != sa.qmax
    ensures a == MAX_ACTIONS ==> forall j :: 0 <= j < MAX_ACTIONS ==> sa.qval[j] != sa.qmax
  {
    FirstAtMax(sa, 0)
  }

  /** On a consistent cell EXPLOIT finds no move exactly when every value is negative. */
  lemma ExploitNoMoveIffAllNegative(sa: StateAction)
    requires IsMaxQ(sa.qval, sa.qmax)
    ensures Exploit(sa) == MAX_ACTIONS <==> forall j :: 0 <= j < MAX_ACTIONS ==> sa.qval[j] < 0.0
  {
    if forall j :: 0 <= j < MAX_ACTIONS ==> sa.qval[j] < 0.0 {
      assert sa.qmax == 0.0;
    } else {
      var j :| 0 <= j < MAX_ACTIONS && sa.qval[j] >= 0.0;
      if sa.qmax == 0.0 {
        assert sa.qval[j] == sa.qmax;
      }
    }
  }

  /**
    Ties go to the earliest move: a consistent cell whose four values are equal
    and not negative yields N; equal negative values yield no move at all.
   */
  lemma ExploitTieBreak(sa: StateAction, v: real)
    requires IsMaxQ(sa.qval, sa.qmax)
    requires forall j :: 0 <= j < MAX_ACTIONS ==> sa.qval[j] == v
    ensures v >= 0.0 ==> Exploit(sa) == 0
    ensures v < 0.0 ==> Exploit(sa) == MAX_ACTIONS
  {
    if v < 0.0 {
      ExploitNoMoveIffAllNegative(sa);
    } else {
      assert sa.qval[0] == v;
    }
  }

  /**
    `environment[i]`. The C code indexes the flat array with
    `y * X_MAX + x` and no bounds check, so a column step off either side
    lands in the neighbouring row, and a step off the top or bottom row reads
    memory outside the array; what lies there is the caller-supplied `outside`.
   */
  function EnvAt(env: seq<byte>, outside: int -> byte, i: int): byte
    requires |env| == X_MAX * Y_MAX
  {
    if 0 <= i < |env| then env[i] else outside(i)
  }

  /** `y * X_MAX + x` for the destination of move `a`, with no bounds check. */
  function FlatIndex(p: Pos, a: int): int
    requires 0 <= a < MAX_ACTIONS
  {
    (p.y + DIRS[a].y) * X_MAX + p.x + DIRS[a].x
  }

  /** `legalMove`: the byte at the destination's flat index does not carry a negative reward. */
  function LegalMove(env: seq<byte>, outside: int -> byte, p: Pos, a: int): (ok: bool)
    requires |env| == X_MAX * Y_MAX && 0 <= a < MAX_ACTIONS
    ensures ok <==> EnvAt(env, outside, FlatIndex(p, a)) != Chr('.')
  {
    Reward(EnvAt(env, outside, FlatIndex(p, a))) >= 0
  }

  /** Inside the grid a move is legal exactly when its destination is not floor. */
  lemma LegalMoveInGrid(env: seq<byte>, outside: int -> byte, p: Pos, a: int)
    requires |env| == X_MAX * Y_MAX && 0 <= a < MAX_ACTIONS && InGrid(Move(p, a))
    ensures LegalMove(env, outside, p, a) <==> env[Idx(Move(p, a))] != Chr('.')
  {
  }

  /** A step west from column 0 tests the last cell of the row above. */
  lemma LegalMoveWrapsWest(env: seq<byte>, outside: int -> byte, p: Pos)
    requires |env| == X_MAX * Y_MAX && 1 <= p.y < Y_MAX && p.x == 0
    ensures LegalMove(env, outside, p, 3) <==> env[p.y * X_MAX - 1] != Chr('.')
  {
  }

  /** The choice EXPLORE made and the cursor into the random stream after it. */
  datatype Choice = Choice(action: int, next: nat)

  /**
    The move EXPLORE picks from the `j`-th draw: `getRand(4)`, which is the
    draw's top two bits (`(RAND_MAX + 1) / 4 == 2^29`).
   */
  function Draw(rng: RandStream, j: nat): (a: int)
    ensures 0 <= a < MAX_ACTIONS
  {
    rng(j) / 536870912
  }

  lemma DrawIsGetRand(rng: RandStream, j: nat)
    ensures Draw(rng, j) == GetRand(MAX_ACTIONS, rng(j))
  {
  }

  /** Every draw from `lo` up to (not including) `hi` picks an illegal move. */
  predicate IllegalDraws(env: seq<byte>, outside: int -> byte, p: Pos, rng: RandStream, lo: nat, hi: int)
    requires |env| == X_MAX * Y_MAX
  {
    forall j: nat :: lo <= j < hi ==> !LegalMove(env, outside, p, Draw(rng, j))
  }

  /**
    The EXPLORE retry loop drawing from `rng(k)` on; `last` is the cursor of
    the final permitted draw (the 100th of the call).
   */
  function ExploreFrom(env: seq<byte>, outside: int -> byte, p: Pos, rng: RandStream, k: nat, last: nat): (c: Choice)
    requires |env| == X_MAX * Y_MAX && k <= last
    decreases last - k
    ensures k < c.next <= last + 1
    ensures c.action == Draw(rng, c.next - 1)
    ensures LegalMove(env, outside, p, c.action) || c.next == last + 1
    ensures IllegalDraws(env, outside, p, rng, k, c.next - 1)
  {
    var a := Draw(rng, k);
    if LegalMove(env, outside, p, a) || k == last then Choice(a, k + 1)
    else ExploreFrom(env, outside, p, rng, k + 1, last)
  }

  /**
    `ChooseAgentAction(..., EXPLORE)`: the first legal draw among at most 100,
    or the 100th draw when none of them is legal.
   */
  function Explore(env: seq<byte>, outside: int -> byte, p: Pos, rng: RandStream, k: nat): (c: Choice)
    requires |env| == X_MAX * Y_MAX
    ensures k < c.next <= k + EXPLORE_TRIES
    ensures c.action == Draw(rng, c.next - 1)
    ensures LegalMove(env, outside, p, c.action) || c.next == k + EXPLORE_TRIES
    ensures IllegalDraws(env, outside, p, rng, k, c.next - 1)
  {
    ExploreFrom(env, outside, p, rng, k, k + EXPLORE_TRIES - 1)
  }

  /** The temporal-difference target of a move: reward plus discounted best value at the destination. */
  function Target(q: QTable, env: seq<byte>, dst: Pos): real
    requires |env| == X_MAX * Y_MAX && InGrid(dst)
  {
    Reward(env[Idx(dst)]) as real + DISCOUNT_RATE * q[Idx(dst)].qmax
  }

  /** The virtual agent: the table and the agent's position. */
  datatype Learner = Learner(q: QTable, agent: Pos)

  /**
    `UpdateAgent`: a move off the grid changes nothing; otherwise only the
    chosen move's value at the starting cell moves toward its target, that cell's
    maximum is recomputed, and the agent steps to the destination.
   */
  function UpdateAgent(l: Learner, env: seq<byte>, action: int): (l': Learner)
    requires |env| == X_MAX * Y_MAX && InGrid(l.agent) && 0 <= action < MAX_ACTIONS
    ensures InGrid(l'.agent)
    ensures !InGrid(Move(l.agent, action)) ==> l' == l
    ensures InGrid(Move(l.agent, action)) ==>
              var src := Idx(l.agent);
              var prev := l.q[src].qval[action];
              && l'.agent == Move(l.agent, action)
              && (forall i :: 0 <= i < X_MAX * Y_MAX && i != src ==> l'.q[i] == l.q[i])
              && (forall j :: 0 <= j < MAX_ACTIONS && j != action ==> l'.q[src].qval[j] == l.q[src].qval[j])
              && l'.q[src].qval[action] ==
                   prev + LEARNING_RATE * (Target(l.q, env, Move(l.agent, action)) - prev)
              && IsMaxQ(l'.q[src].qval, l'.q[src].qmax)
    ensures TableConsistent(l.q) ==> TableConsistent(l'.q)
  {
    var dst := Move(l.agent, action);
    if !InGrid(dst) then l
    else
      var src := Idx(l.agent);
      var reward := Reward(env[Idx(dst)]) as real;
      var prev := l.q[src].qval[action];
      var updated := prev + LEARNING_RATE * (reward + DISCOUNT_RATE * l.q[Idx(dst)].qmax - prev);
      var cell := CalculateMaxQ(StateAction(l.q[src].qval[action := updated], l.q[src].qmax));
      Learner(l.q[src := cell], dst)
  }

  /**
    The update moves a value 70% of the way to its target: it lands strictly
    between the old value and the target unless the two already agree.
   */
  lemma UpdateTowardTarget(l: Learner, env: seq<byte>, action: int)
    requires |env| == X_MAX * Y_MAX && InGrid(l.agent) && 0 <= action < MAX_ACTIONS
    requires InGrid(Move(l.agent, action))
    ensures var prev := l.q[Idx(l.agent)].qval[action];
            var target := Target(l.q, env, Move(l.agent, action));
            var now := UpdateAgent(l, env, action).q[Idx(l.agent)].qval[action];
            (prev < target ==> prev < now < target) &&
            (target < prev ==> target < now < prev) &&
            (prev == target ==> now == prev)
  {
  }

  /** The state of the training pass: learner plus the cursor into the random stream. */
  datatype TrainState = TrainState(learner: Learner, next: nat)

  /** One epoch of `nhbot_qlearn`: choose by EXPLORE, then update. */
  function Epoch(env: seq<byte>, outside: int -> byte, rng: RandStream, st: TrainState): (st': TrainState)
    requires |env| == X_MAX * Y_MAX && InGrid(st.learner.agent)
    ensures InGrid(st'.learner.agent)
    ensures st.next < st'.next
    ensures TableConsistent(st.learner.q) ==> TableConsistent(st'.learner.q)
  {
    var c := Explore(env, outside, st.learner.agent, rng, st.next);
    TrainState(UpdateAgent(st.learner, env, c.action), c.next)
  }

  /** `n` epochs in a row. */
  function TrainSteps(env: seq<byte>, outside: int -> byte, rng: RandStream, st: TrainState, n: nat): (st': TrainState)
    requires |env| == X_MAX * Y_MAX && InGrid(st.learner.agent)
    decreases n
    ensures InGrid(st'.learner.agent)
    ensures st.next + n <= st'.next
    ensures TableConsistent(st.learner.q) ==> TableConsistent(st'.learner.q)
  {
    if n == 0 then st else Epoch(env, outside, rng, TrainSteps(env, outside, rng, st, n - 1))
  }

  /**
    `nhbot_qlearn`: exactly `MAX_EPOCHS` epochs; an agent that starts on the
    grid ends on it, and a consistent table stays consistent.
   */
  method Train(env: seq<byte>, outside: int -> byte, rng: RandStream, st: TrainState) returns (st': TrainState)
    requires |env| == X_MAX * Y_MAX && InGrid(st.learner.agent)
    ensures st' == TrainSteps(env, outside, rng, st, MAX_EPOCHS)
    ensures InGrid(st'.learner.agent)
    ensures TableConsistent(st.learner.q) ==> TableConsistent(st'.learner.q)
  {
    st' := st;
    var epochs := 0;
    while epochs < MAX_EPOCHS
      invariant 0 <= epochs <= MAX_EPOCHS
      invariant st' == TrainSteps(env, outside, rng, st, epochs)
    {
      assert TrainSteps(env, outside, rng, st, epochs + 1) == Epoch(env, outside, rng, st');
      st' := Epoch(env, outside, rng, st');
      epochs := epochs + 1;
    }
  }
}
