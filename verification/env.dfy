/** The grid-world environment: one episode's state as an immutable record,
    `Reset` and a pure `Step` transition, and the observation the agent sees. */
module Env {
  import opened Types
  import opened Constants

  datatype StepStatus = InProgress | Success | Failure

  datatype StepResult = StepResult(nextState: ObservedState, reward: real, done: bool, status: StepStatus)

  datatype EnvError = TileNotFound(tile: Tile)

  /** Environment state: the static grid, configuration, start and goal,
      and the per-episode fields that `Reset` restores and `Step` changes. */
  datatype GridWorldEnv = GridWorldEnv(
    grid: Grid,
    size: nat,
    config: Config,
    start: Pos,
    goal: Pos,
    pos: Pos,
    timeRemaining: real,
    energy: real,
    visitCounts: map<Pos, nat>,
    distractionsVisited: set<Pos>,
    choresCompleted: set<Pos>,
    choresDoneCount: nat)

  datatype StepOutcome = StepOutcome(env: GridWorldEnv, result: StepResult)

  function Min(a: real, b: real): real { if a <= b then a else b }
  function Max(a: real, b: real): real { if a >= b then a else b }

  // ---------------------------------------------------------------- grid

  /** Every row is at least as long as the number of rows, so the
      size x size square the environment scans lies inside the grid. */
  predicate SquareEnough(g: Grid) {
    forall r :: 0 <= r < |g| ==> |g[r]| >= |g|
  }

  predicate InSquare(n: int, p: Pos) {
    0 <= p.row < n && 0 <= p.col < n
  }

  predicate RowMajorBefore(p: Pos, q: Pos) {
    p.row < q.row || (p.row == q.row && p.col < q.col)
  }

  function FindFrom(g: Grid, t: Tile, r: nat, c: nat): (res: Option<Pos>)
    requires SquareEnough(g)
    ensures res.Some? ==> InSquare(|g|, res.value) && g[res.value.row][res.value.col] == t
                          && !RowMajorBefore(res.value, Pos(r, c))
    ensures res.Some? ==> forall q :: InSquare(|g|, q) && !RowMajorBefore(q, Pos(r, c)) && RowMajorBefore(q, res.value)
                                      ==> g[q.row][q.col] != t
    ensures res.None? ==> forall q :: InSquare(|g|, q) && !RowMajorBefore(q, Pos(r, c)) ==> g[q.row][q.col] != t
    decreases |g| - r, |g| - c
  {
    if r >= |g| then None
    else if c >= |g| then FindFrom(g, t, r + 1, 0)
    else if g[r][c] == t then Some(Pos(r, c))
    else FindFrom(g, t, r, c + 1)
  }

  /** The first cell holding `t` in row-major order over the size x size
      square, or None when no cell holds it. */
  function FindTile(g: Grid, t: Tile): (res: Option<Pos>)
    requires SquareEnough(g)
    ensures res.Some? ==> InSquare(|g|, res.value) && g[res.value.row][res.value.col] == t
    ensures res.Some? ==> forall q :: InSquare(|g|, q) && RowMajorBefore(q, res.value) ==> g[q.row][q.col] != t
    ensures res.None? <==> forall q :: InSquare(|g|, q) ==> g[q.row][q.col] != t
  {
    FindFrom(g, t, 0, 0)
  }

  ghost predicate HasTile(g: Grid, t: Tile)
    requires SquareEnough(g)
  {
    exists q :: InSquare(|g|, q) && g[q.row][q.col] == t
  }

  // ---------------------------------------------------------- lifecycle

  /** The episode state a fresh `Reset` establishes. */
  predicate Fresh(e: GridWorldEnv) {
    && e.pos == e.start
    && e.timeRemaining == e.config.timeLimit
    && e.energy == e.config.energy
    && e.visitCounts == map[e.start := 1]
    && e.distractionsVisited == {}
    && e.choresCompleted == {}
    && e.choresDoneCount == 0
  }

  /** What every reachable environment satisfies. */
  predicate Valid(e: GridWorldEnv) {
    && Shaped(e)
    && InSquare(e.size, e.start) && e.grid[e.start.row][e.start.col] == Kid
    && InSquare(e.size, e.goal) && e.grid[e.goal.row][e.goal.col] == IceCream
    && InSquare(e.size, e.pos) && e.grid[e.pos.row][e.pos.col] != Wall
    && (forall p :: p in e.visitCounts ==> InSquare(e.size, p))
    && VisitCount(e.visitCounts, e.pos) > 0
    && VisitCount(e.visitCounts, e.start) > 0
    && e.choresDoneCount == |e.choresCompleted|
    && (forall p :: p in e.choresCompleted ==>
          InSquare(e.size, p) && IsChoreTile(e.grid[p.row][p.col]) && VisitCount(e.visitCounts, p) > 0)
    && (forall p :: p in e.distractionsVisited ==>
          InSquare(e.size, p) && IsDistractionTile(e.grid[p.row][p.col]) && VisitCount(e.visitCounts, p) > 0)
  }

  /** Construction: locate the start tile, then the goal tile; a missing one
      is an error naming that tile. A constructed environment is valid and
      already in its reset state. */
  function NewEnv(grid: Grid, config: Config): (r: Result<GridWorldEnv, EnvError>)
    requires SquareEnough(grid)
    ensures r.Ok? <==> HasTile(grid, Kid) && HasTile(grid, IceCream)
    ensures !HasTile(grid, Kid) ==> r == Err(TileNotFound(Kid))
    ensures HasTile(grid, Kid) && !HasTile(grid, IceCream) ==> r == Err(TileNotFound(IceCream))
    ensures r.Ok? ==> Valid(r.value) && Fresh(r.value)
    ensures r.Ok? ==> r.value.grid == grid && r.value.config == config
    ensures r.Ok? ==> Some(r.value.start) == FindTile(grid, Kid) && Some(r.value.goal) == FindTile(grid, IceCream)
  {
    match FindTile(grid, Kid)
    case None => Err(TileNotFound(Kid))
    case Some(start) =>
      match FindTile(grid, IceCream)
      case None => Err(TileNotFound(IceCream))
      case Some(goal) =>
        Ok(GridWorldEnv(grid, |grid|, config, start, goal,
                             start, config.timeLimit, config.energy,
                             map[start := 1], {}, {}, 0))
  }

  /** Restores the per-episode state; grid, configuration, start and goal
      are kept. */
  function Reset(e: GridWorldEnv): (e': GridWorldEnv)
    requires Valid(e)
    ensures Valid(e') && Fresh(e')
    ensures e'.grid == e.grid && e'.size == e.size && e'.config == e.config
    ensures e'.start == e.start && e'.goal == e.goal
  {
    e.(pos := e.start,
       timeRemaining := e.config.timeLimit,
       energy := e.config.energy,
       visitCounts := map[e.start := 1],
       distractionsVisited := {},
       choresCompleted := {},
       choresDoneCount := 0)
  }

  function GetResources(e: GridWorldEnv): ResourceSnapshot {
    ResourceSnapshot(e.timeRemaining, e.energy, e.choresDoneCount, e.config.requiredChores, |e.distractionsVisited|)
  }

  /** Right after a reset the resources are the configured time and energy,
      no chores and no distractions. */
  lemma ResetResources(e: GridWorldEnv)
    requires Valid(e)
    ensures GetResources(Reset(e)) == ResourceSnapshot(e.config.timeLimit, e.config.energy, 0, e.config.requiredChores, 0)
    ensures forall p :: p != e.start ==> VisitCount(Reset(e).visitCounts, p) == 0
    ensures VisitCount(Reset(e).visitCounts, e.start) == 1
  {
  }

  // -------------------------------------------------------- observation

  function VisitCount(m: map<Pos, nat>, p: Pos): nat {
    if p in m then m[p] else 0
  }

  /** Neighbour offsets in mask-bit order: up, down, left, right. */
  const NeighborOffsets: seq<Pos> := [Pos(-1, 0), Pos(1, 0), Pos(0, -1), Pos(0, 1)]

  /** Mask bit i looks at the cell action i of the action order leads to. */
  lemma NeighborOffsetsFollowActions()
    ensures |NeighborOffsets| == |Actions|
    ensures forall i :: 0 <= i < |Actions| ==> NeighborOffsets[i] == ActionOffset(Actions[i])
  {
  }

  function Neighbor(p: Pos, i: nat): Pos
    requires i < 4
  {
    Pos(p.row + NeighborOffsets[i].row, p.col + NeighborOffsets[i].col)
  }

  function Pow2(i: nat): (p: nat)
    ensures p > 0
  {
    if i == 0 then 1 else 2 * Pow2(i - 1)
  }

  /** Bit i of a non-negative number. */
  predicate Bit(m: nat, i: nat) {
    (m / Pow2(i)) % 2 == 1
  }

  function NeighborBit(counts: map<Pos, nat>, p: Pos, i: nat): nat
    requires i < 4
  {
    if VisitCount(counts, Neighbor(p, i)) > 0 then 1 else 0
  }

  /** The mask accumulated over the first n neighbours, one bit each. */
  function MaskUpTo(counts: map<Pos, nat>, p: Pos, n: nat): nat
    requires n <= 4
  {
    if n == 0 then 0 else MaskUpTo(counts, p, n - 1) + NeighborBit(counts, p, n - 1) * Pow2(n - 1)
  }

  function VisitMask(counts: map<Pos, nat>, p: Pos): nat {
    MaskUpTo(counts, p, 4)
  }

  /** The visit mask is a 4-bit number whose bit i is set exactly when
      neighbour i has been visited this episode. */
  lemma VisitMaskBits(counts: map<Pos, nat>, p: Pos)
    ensures VisitMask(counts, p) < 16
    ensures forall i :: 0 <= i < 4 ==> (Bit(VisitMask(counts, p), i) <==> VisitCount(counts, Neighbor(p, i)) > 0)
  {
    var b0, b1, b2, b3 := NeighborBit(counts, p, 0), NeighborBit(counts, p, 1), NeighborBit(counts, p, 2), NeighborBit(counts, p, 3);
    var m := VisitMask(counts, p);
    assert Pow2(0) == 1 && Pow2(1) == 2 && Pow2(2) == 4 && Pow2(3) == 8;
    assert MaskUpTo(counts, p, 1) == b0;
    assert MaskUpTo(counts, p, 2) == b0 + 2 * b1;
    assert MaskUpTo(counts, p, 3) == b0 + 2 * b1 + 4 * b2;
    assert m == b0 + 2 * b1 + 4 * b2 + 8 * b3;
    assert Pow2(0) == 1 && Pow2(1) == 2 && Pow2(2) == 4 && Pow2(3) == 8;
    assert (m / 1) % 2 == b0;
    assert (m / 2) % 2 == b1;
    assert (m / 4) % 2 == b2;
    assert (m / 8) % 2 == b3;
  }

  function Ceil(x: real): (c: int)
    ensures (c - 1) as real < x <= c as real
  {
    -((-x).Floor)
  }

  /** Coarse bucket of a resource: the ceiling of value / max(bucketSize, 1),
      and never below 0. */
  function Bucket(value: real, bucketSize: real): (b: nat)
    ensures value <= 0.0 ==> b == 0
    ensures value > 0.0 ==> (b - 1) as real < value / Max(bucketSize, 1.0) <= b as real
  {
    var c := Ceil(value / Max(bucketSize, 1.0));
    if c < 0 then 0 else c
  }

  /** A larger resource never falls into a smaller bucket. */
  lemma BucketMonotone(v1: real, v2: real, bucketSize: real)
    requires v1 <= v2
    ensures Bucket(v1, bucketSize) <= Bucket(v2, bucketSize)
  {
    var s := Max(bucketSize, 1.0);
    assert v1 / s <= v2 / s;
  }

  function ObserveAt(e: GridWorldEnv, p: Pos): ObservedState {
    ObservedState(p,
                  VisitMask(e.visitCounts, p),
                  Bucket(e.timeRemaining, e.config.timeBucketSize),
                  Bucket(e.energy, e.config.energyBucketSize),
                  e.choresDoneCount)
  }

  function Observe(e: GridWorldEnv): ObservedState {
    ObserveAt(e, e.pos)
  }

  // --------------------------------------------------------------- step

  /** Resource failure: out of time first, then out of energy, each with its
      specialised reward when configured and the generic failure otherwise. */
  function ApplyResourceFailure(e: GridWorldEnv): (r: Option<StepResult>)
    ensures r.None? <==> e.timeRemaining > 0.0 && e.energy > 0.0
    ensures r.Some? ==> r.value.done && r.value.status == Failure && r.value.nextState == Observe(e)
    ensures e.timeRemaining <= 0.0 ==> r.Some? && r.value.reward == e.config.rewards.bedtimeFailure.GetOr(e.config.rewards.failure)
    ensures e.timeRemaining > 0.0 && e.energy <= 0.0 ==>
              r.Some? && r.value.reward == e.config.rewards.meltdownFailure.GetOr(e.config.rewards.failure)
  {
    if e.timeRemaining < 0.0 || e.timeRemaining == 0.0 then
      Some(StepResult(Observe(e), e.config.rewards.bedtimeFailure.GetOr(e.config.rewards.failure), true, Failure))
    else if e.energy <= 0.0 then
      Some(StepResult(Observe(e), e.config.rewards.meltdownFailure.GetOr(e.config.rewards.failure), true, Failure))
    else
      None
  }

  /** Distraction kind of a cell: the per-cell layout entry, else the kind
      the tile implies, else the configured default. */
  function GetDistractionKey(config: Config, p: Pos, tile: Tile): (k: DistractionKey)
    ensures p in config.distractionLayout ==> k == config.distractionLayout[p]
    ensures p !in config.distractionLayout && IsDistractionTile(tile) ==> DistractionTileType(k) == tile
    ensures p !in config.distractionLayout && !IsDistractionTile(tile) ==> k == config.defaultDistractionType
  {
    if p in config.distractionLayout then config.distractionLayout[p]
    else match TileToDistraction(tile)
      case Some(k) => k
      case None => config.defaultDistractionType
  }

  function GetDistractionType(config: Config, p: Pos, tile: Tile): DistractionTypeConfig {
    config.distractionTypes.Get(GetDistractionKey(config, p, tile))
  }

  /** Fun reward of a first distraction visit, scaled by funRewardScale
      (1 when unset). */
  function FunPayout(d: DistractionTypeConfig, scale: Option<real>): real {
    d.funReward * scale.GetOr(1.0)
  }

  /** Success reward: the goal reward plus the bonus for every distinct
      distraction visited. */
  function CelebrationReward(rw: RewardsConfig, distractions: nat): real {
    rw.goal + (distractions as real) * rw.distractionBonus
  }

  predicate CanCelebrate(e: GridWorldEnv) {
    e.choresDoneCount >= e.config.requiredChores && e.timeRemaining >= 0.0 && e.energy > 0.0
  }

  function Target(e: GridWorldEnv, a: Action): Pos {
    var d := ActionOffset(a);
    Pos(e.pos.row + d.row, e.pos.col + d.col)
  }

  /** The shape facts a step needs to look cells up. */
  predicate Shaped(e: GridWorldEnv) {
    e.size == |e.grid| && SquareEnough(e.grid)
  }

  function TileAt(e: GridWorldEnv, p: Pos): Tile
    requires Shaped(e) && InSquare(e.size, p)
  {
    e.grid[p.row][p.col]
  }

  predicate Blocked(e: GridWorldEnv, p: Pos)
    requires Shaped(e)
  {
    !InSquare(e.size, p) || TileAt(e, p) == Wall
  }

  /** The resource check that closes every non-success path: the state is
      kept, and the result is a failure exactly when time or energy is
      exhausted, otherwise the given reward in progress. */
  function Finish(e: GridWorldEnv, reward: real): (o: StepOutcome)
    ensures o.env == e
    ensures o.result.done <==> o.result.status != InProgress
    ensures o.result.status != Success
    ensures o.result.nextState == Observe(e)
    ensures o.result.status == InProgress <==> Healthy(e)
    ensures o.result.status == InProgress ==> o.result.reward == reward
    ensures e.timeRemaining <= 0.0 ==> o.result.reward == e.config.rewards.bedtimeFailure.GetOr(e.config.rewards.failure)
    ensures e.timeRemaining > 0.0 && e.energy <= 0.0 ==> o.result.reward == e.config.rewards.meltdownFailure.GetOr(e.config.rewards.failure)
  {
    match ApplyResourceFailure(e)
    case Some(f) => StepOutcome(e, f)
    case None => StepOutcome(e, StepResult(Observe(e), reward, false, InProgress))
  }

  /** The move with its base costs paid: time and energy are charged even
      when the move is blocked. */
  function PayMove(e: GridWorldEnv): GridWorldEnv {
    e.(timeRemaining := e.timeRemaining - e.config.timeCostPerMove,
       energy := e.energy - e.config.energyMoveCost)
  }

  /** Enters a cell, counting the visit. */
  function MoveTo(e: GridWorldEnv, next: Pos): GridWorldEnv {
    e.(pos := next, visitCounts := e.visitCounts[next := VisitCount(e.visitCounts, next) + 1])
  }

  /** Distraction tile: the first visit pays out fun, costs the kind's time
      penalty and boosts energy up to the configured maximum; a revisit
      only costs the revisit penalty. */
  function DistractionEffect(e: GridWorldEnv, tile: Tile, isFirstVisit: bool, reward: real): StepOutcome {
    var cfg := e.config;
    var distraction := GetDistractionType(cfg, e.pos, tile);
    if isFirstVisit then
      Finish(e.(timeRemaining := e.timeRemaining - distraction.timePenalty,
                energy := Min(cfg.energy, e.energy + distraction.energyBoost),
                distractionsVisited := e.distractionsVisited + {e.pos}),
             reward + FunPayout(distraction, cfg.funRewardScale))
    else
      Finish(e, reward + cfg.rewards.revisitPenalty)
  }

  /** Chore tile: the first completion earns the chore reward and time bonus
      and counts the chore; a repeat costs the revisit penalty; the chore's
      energy cost is paid either way. */
  function ChoreEffect(e: GridWorldEnv, reward: real): StepOutcome {
    var cfg := e.config;
    if e.pos !in e.choresCompleted then
      Finish(e.(choresCompleted := e.choresCompleted + {e.pos},
                choresDoneCount := e.choresDoneCount + 1,
                timeRemaining := e.timeRemaining + cfg.choreTimeBonus,
                energy := e.energy - cfg.choreEnergyCost),
             reward + cfg.rewards.choreReward)
    else
      Finish(e.(energy := e.energy - cfg.choreEnergyCost), reward + cfg.rewards.revisitPenalty)
  }

  /** Goal tile: success when celebration is allowed, with the goal reward
      plus the per-distraction bonus in place of the step reward; otherwise
      the early-goal penalty and the episode goes on. */
  function GoalEffect(e: GridWorldEnv, reward: real): StepOutcome {
    var cfg := e.config;
    if CanCelebrate(e) then
      StepOutcome(e, StepResult(Observe(e), CelebrationReward(cfg.rewards, |e.distractionsVisited|), true, Success))
    else
      Finish(e, reward + cfg.rewards.earlyIceCreamPenalty)
  }

  /** One transition. Exactly one of the blocked, distraction, chore, goal
      and plain branches applies; only the success branch skips the final
      resource check and replaces the step reward. */
  function Step(e: GridWorldEnv, a: Action): (o: StepOutcome)
    requires Shaped(e)
    ensures o.env.grid == e.grid && o.env.size == e.size && o.env.config == e.config
    ensures o.env.start == e.start && o.env.goal == e.goal
    ensures o.env.pos == (if Blocked(e, Target(e, a)) then e.pos else Target(e, a))
    ensures o.result.done <==> o.result.status != InProgress
    ensures o.result.nextState.position == o.env.pos
    ensures o.result.status == Success ==> !Blocked(e, Target(e, a)) && TileAt(e, Target(e, a)) == IceCream && CanCelebrate(o.env)
    ensures o.result.status != Success ==> o == Finish(o.env, o.result.reward)
  {
    var cfg := e.config;
    var next := Target(e, a);
    var e1 := PayMove(e);
    var reward := cfg.rewards.step;
    if Blocked(e, next) then
      Finish(e1, reward)
    else
      var isFirstVisit := VisitCount(e.visitCounts, next) == 0;
      var e2 := MoveTo(e1, next);
      var tile := TileAt(e, next);
      if TileToDistraction(tile).Some? then
        DistractionEffect(e2, tile, isFirstVisit, reward)
      else if IsChoreTile(tile) then
        ChoreEffect(e2, reward)
      else if tile == IceCream then
        GoalEffect(e2, reward)
      else
        Finish(e2, if isFirstVisit then reward else reward + cfg.rewards.revisitPenalty)
  }

  // ------------------------------------------------------ step properties

  /** No resource failure fires in this state. */
  predicate Healthy(e: GridWorldEnv) {
    e.timeRemaining > 0.0 && e.energy > 0.0
  }

  /** The episode fields a step leaves alone when it does not touch them. */
  predicate SameProgress(e: GridWorldEnv, e': GridWorldEnv) {
    && e'.visitCounts == e.visitCounts
    && e'.distractionsVisited == e.distractionsVisited
    && e'.choresCompleted == e.choresCompleted
    && e'.choresDoneCount == e.choresDoneCount
  }

  /** A move off the grid or into a wall keeps the position and the visit
      record but still charges the move's time and energy; unless that
      exhausts a resource, the step reward alone is returned. */
  lemma BlockedMove(e: GridWorldEnv, a: Action)
    requires Shaped(e) && Blocked(e, Target(e, a))
    ensures var o := Step(e, a);
      && o.env.pos == e.pos
      && o.env.timeRemaining == e.timeRemaining - e.config.timeCostPerMove
      && o.env.energy == e.energy - e.config.energyMoveCost
      && SameProgress(e, o.env)
      && (Healthy(o.env) ==> o.result == StepResult(Observe(o.env), e.config.rewards.step, false, InProgress))
  {
  }

  /** First visit to a distraction: fun reward scaled by funRewardScale
      (1 when unset), the kind's time penalty, an energy boost capped at the
      configured energy, and the cell joins the visited distractions. */
  lemma DistractionFirstVisit(e: GridWorldEnv, a: Action)
    requires Shaped(e) && !Blocked(e, Target(e, a))
    requires IsDistractionTile(TileAt(e, Target(e, a)))
    requires VisitCount(e.visitCounts, Target(e, a)) == 0
    ensures var next := Target(e, a);
      var cfg := e.config;
      var d := GetDistractionType(cfg, next, TileAt(e, next));
      var o := Step(e, a);
      && o.env.timeRemaining == e.timeRemaining - cfg.timeCostPerMove - d.timePenalty
      && o.env.energy == Min(cfg.energy, e.energy - cfg.energyMoveCost + d.energyBoost)
      && o.env.distractionsVisited == e.distractionsVisited + {next}
      && o.env.choresCompleted == e.choresCompleted && o.env.choresDoneCount == e.choresDoneCount
      && o.env.pos == next && o.env.visitCounts == e.visitCounts[next := 1]
      && (Healthy(o.env) ==> o.result.status == InProgress
                              && o.result.reward == cfg.rewards.step + FunPayout(d, cfg.funRewardScale))
  {
    var next := Target(e, a);
    var tile := TileAt(e, next);
    var e2 := MoveTo(PayMove(e), next);
    assert Step(e, a) == DistractionEffect(e2, tile, true, e.config.rewards.step);
  }

  /** A revisited distraction grants nothing but the revisit penalty. */
  lemma DistractionRevisit(e: GridWorldEnv, a: Action)
    requires Shaped(e) && !Blocked(e, Target(e, a))
    requires IsDistractionTile(TileAt(e, Target(e, a)))
    requires VisitCount(e.visitCounts, Target(e, a)) > 0
    ensures var next := Target(e, a);
      var cfg := e.config;
      var o := Step(e, a);
      && o.env.timeRemaining == e.timeRemaining - cfg.timeCostPerMove
      && o.env.energy == e.energy - cfg.energyMoveCost
      && o.env.distractionsVisited == e.distractionsVisited
      && o.env.choresCompleted == e.choresCompleted && o.env.choresDoneCount == e.choresDoneCount
      && o.env.pos == next && o.env.visitCounts == e.visitCounts[next := e.visitCounts[next] + 1]
      && (Healthy(o.env) ==> o.result.status == InProgress && o.result.reward == cfg.rewards.step + cfg.rewards.revisitPenalty)
  {
  }

  /** The first completion of a chore counts it exactly once (the count
      stays the size of the completed set), adds the chore reward and time
      bonus, and charges the chore's energy. */
  lemma ChoreFirstCompletion(e: GridWorldEnv, a: Action)
    requires Shaped(e) && !Blocked(e, Target(e, a))
    requires IsChoreTile(TileAt(e, Target(e, a)))
    requires Target(e, a) !in e.choresCompleted
    ensures var next := Target(e, a);
      var cfg := e.config;
      var o := Step(e, a);
      && o.env.choresCompleted == e.choresCompleted + {next}
      && o.env.choresDoneCount == e.choresDoneCount + 1
      && |o.env.choresCompleted| == |e.choresCompleted| + 1
      && o.env.timeRemaining == e.timeRemaining - cfg.timeCostPerMove + cfg.choreTimeBonus
      && o.env.energy == e.energy - cfg.energyMoveCost - cfg.choreEnergyCost
      && (Healthy(o.env) ==> o.result.status == InProgress && o.result.reward == cfg.rewards.step + cfg.rewards.choreReward)
  {
    var next := Target(e, a);
    var tile := TileAt(e, next);
    assert TileToDistraction(tile).None?;
    var e2 := MoveTo(PayMove(e), next);
    assert Step(e, a) == ChoreEffect(e2, e.config.rewards.step);
  }

  /** A repeated chore earns only the revisit penalty yet still costs its
      energy. */
  lemma ChoreRepeat(e: GridWorldEnv, a: Action)
    requires Shaped(e) && !Blocked(e, Target(e, a))
    requires IsChoreTile(TileAt(e, Target(e, a)))
    requires Target(e, a) in e.choresCompleted
    ensures var cfg := e.config;
      var o := Step(e, a);
      && o.env.choresCompleted == e.choresCompleted
      && o.env.choresDoneCount == e.choresDoneCount
      && o.env.timeRemaining == e.timeRemaining - cfg.timeCostPerMove
      && o.env.energy == e.energy - cfg.energyMoveCost - cfg.choreEnergyCost
      && (Healthy(o.env) ==> o.result.status == InProgress && o.result.reward == cfg.rewards.step + cfg.rewards.revisitPenalty)
  {
  }

  /** Reaching the goal with enough chores, time at least 0 and energy above
      0 (after paying for the move) ends the episode in success, with reward
      exactly goal + distractions visited x distraction bonus. The celebration test
      comes before the resource-failure check, so time exactly 0 still wins. */
  lemma GoalSuccess(e: GridWorldEnv, a: Action)
    requires Shaped(e) && !Blocked(e, Target(e, a))
    requires TileAt(e, Target(e, a)) == IceCream
    requires e.choresDoneCount >= e.config.requiredChores
    requires e.timeRemaining - e.config.timeCostPerMove >= 0.0
    requires e.energy - e.config.energyMoveCost > 0.0
    ensures var cfg := e.config;
      var o := Step(e, a);
      && o.result.status == Success && o.result.done
      && o.result.reward == CelebrationReward(cfg.rewards, |e.distractionsVisited|)
  {
    var next := Target(e, a);
    var tile := TileAt(e, next);
    assert TileToDistraction(tile).None? && !IsChoreTile(tile);
    var e2 := MoveTo(PayMove(e), next);
    assert Step(e, a) == GoalEffect(e2, e.config.rewards.step);
  }

  /** Reaching the goal too early is not terminal by itself and adds the
      early-goal penalty to the step reward. */
  lemma GoalTooEarly(e: GridWorldEnv, a: Action)
    requires Shaped(e) && !Blocked(e, Target(e, a))
    requires TileAt(e, Target(e, a)) == IceCream
    requires e.choresDoneCount < e.config.requiredChores
    ensures var cfg := e.config;
      var o := Step(e, a);
      && o.result.status != Success
      && (Healthy(o.env) ==> o.result.status == InProgress && o.result.reward == cfg.rewards.step + cfg.rewards.earlyIceCreamPenalty)
  {
    var next := Target(e, a);
    var tile := TileAt(e, next);
    assert TileToDistraction(tile).None? && !IsChoreTile(tile);
    var e2 := MoveTo(PayMove(e), next);
    assert Step(e, a) == GoalEffect(e2, e.config.rewards.step);
  }

  /** A plain tile gives the step reward on a first visit and the step
      reward plus the revisit penalty afterwards. */
  lemma PlainTile(e: GridWorldEnv, a: Action)
    requires Shaped(e) && !Blocked(e, Target(e, a))
    requires var t := TileAt(e, Target(e, a));
      !IsDistractionTile(t) && !IsChoreTile(t) && t != IceCream
    ensures var cfg := e.config;
      var o := Step(e, a);
      && o.env.pos == Target(e, a)
      && SameProgress(e, o.env.(visitCounts := e.visitCounts))
      && VisitCount(o.env.visitCounts, Target(e, a)) == VisitCount(e.visitCounts, Target(e, a)) + 1
      && (Healthy(o.env) ==>
            o.result.status == InProgress
            && o.result.reward == (if VisitCount(e.visitCounts, Target(e, a)) == 0 then cfg.rewards.step
                                   else cfg.rewards.step + cfg.rewards.revisitPenalty))
  {
  }

  /** Every step that does not succeed ends in failure exactly when a
      resource is exhausted: out of time first (bedtime reward, else the
      generic failure), then out of energy (meltdown reward, else generic). */
  lemma FailureRule(e: GridWorldEnv, a: Action)
    requires Shaped(e)
    ensures var o := Step(e, a);
      var rw := e.config.rewards;
      o.result.status != Success ==>
        && (o.result.status == InProgress <==> Healthy(o.env))
        && (o.env.timeRemaining <= 0.0 ==> o.result.status == Failure && o.result.reward == rw.bedtimeFailure.GetOr(rw.failure))
        && (o.env.timeRemaining > 0.0 && o.env.energy <= 0.0 ==>
              o.result.status == Failure && o.result.reward == rw.meltdownFailure.GetOr(rw.failure))
  {
    var o := Step(e, a);
    if o.result.status != Success {
      assert o == Finish(o.env, o.result.reward);
    }
  }

  /** With non-negative costs, energy never climbs above the configured
      maximum: distraction boosts are capped there. */
  lemma EnergyCapped(e: GridWorldEnv, a: Action)
    requires Shaped(e) && e.config.energyMoveCost >= 0.0 && e.config.choreEnergyCost >= 0.0
    requires e.energy <= e.config.energy
    ensures Step(e, a).env.energy <= e.config.energy
  {
    var next := Target(e, a);
    var e1 := PayMove(e);
    if !Blocked(e, next) {
      var e2 := MoveTo(e1, next);
      var tile := TileAt(e, next);
      if IsDistractionTile(tile) {
        assert Step(e, a) == DistractionEffect(e2, tile, VisitCount(e.visitCounts, next) == 0, e.config.rewards.step);
      } else if IsChoreTile(tile) {
        assert TileToDistraction(tile).None?;
        assert Step(e, a) == ChoreEffect(e2, e.config.rewards.step);
      } else if tile == IceCream {
        assert TileToDistraction(tile).None?;
        assert Step(e, a) == GoalEffect(e2, e.config.rewards.step);
      } else {
        assert TileToDistraction(tile).None?;
      }
    }
  }

  /** Entering an open cell keeps the environment valid. */
  lemma MoveKeepsValid(e: GridWorldEnv, next: Pos)
    requires Valid(e) && !Blocked(e, next)
    ensures Valid(MoveTo(PayMove(e), next))
  {
    var e2 := MoveTo(PayMove(e), next);
    assert VisitCount(e2.visitCounts, next) > 0;
    assert forall p :: VisitCount(e.visitCounts, p) > 0 ==> VisitCount(e2.visitCounts, p) > 0;
  }

  /** A distraction's effect keeps validity and adds at most its own cell. */
  lemma DistractionKeepsValid(e: GridWorldEnv, tile: Tile, first: bool, reward: real)
    requires Valid(e) && tile == TileAt(e, e.pos) && TileToDistraction(tile).Some?
    ensures var o := DistractionEffect(e, tile, first, reward);
      && Valid(o.env)
      && o.env.choresCompleted == e.choresCompleted
      && o.env.distractionsVisited <= e.distractionsVisited + {e.pos}
  {
  }

  /** A chore's effect keeps validity and adds at most its own cell. */
  lemma ChoreKeepsValid(e: GridWorldEnv, reward: real)
    requires Valid(e) && IsChoreTile(TileAt(e, e.pos))
    ensures var o := ChoreEffect(e, reward);
      && Valid(o.env)
      && o.env.choresCompleted <= e.choresCompleted + {e.pos}
      && o.env.distractionsVisited == e.distractionsVisited
  {
    if e.pos !in e.choresCompleted {
      assert |e.choresCompleted + {e.pos}| == |e.choresCompleted| + 1;
    }
  }

  lemma GrowByOne<T>(s: set<T>, s': set<T>, x: T)
    requires s <= s' <= s + {x}
    ensures |s'| <= |s| + 1
  {
    if x in s' && x !in s {
      assert s' == s + {x};
    } else {
      assert s' == s;
    }
  }

  /** Stepping keeps the environment valid: it never ends on a wall or off
      the grid, the chore count stays the size of the completed set, and
      completed chores and visited distractions only grow, each by at most
      one cell, and every recorded cell has been visited. */
  lemma {:induction false} StepPreservesValid(e: GridWorldEnv, a: Action)
    requires Valid(e)
    ensures var o := Step(e, a);
      && Valid(o.env)
      && e.choresCompleted <= o.env.choresCompleted
      && e.distractionsVisited <= o.env.distractionsVisited
      && |o.env.choresCompleted| <= |e.choresCompleted| + 1
      && |o.env.distractionsVisited| <= |e.distractionsVisited| + 1
  {
    var next := Target(e, a);
    var o := Step(e, a);
    if !Blocked(e, next) {
      var e2 := MoveTo(PayMove(e), next);
      MoveKeepsValid(e, next);
      var tile := TileAt(e, next);
      var first := VisitCount(e.visitCounts, next) == 0;
      if TileToDistraction(tile).Some? {
        assert o == DistractionEffect(e2, tile, first, e.config.rewards.step);
        DistractionKeepsValid(e2, tile, first, e.config.rewards.step);
      } else if IsChoreTile(tile) {
        assert o == ChoreEffect(e2, e.config.rewards.step);
        ChoreKeepsValid(e2, e.config.rewards.step);
      } else if tile == IceCream {
        assert o == GoalEffect(e2, e.config.rewards.step);
      } else {
        assert o.env == e2;
      }
      GrowByOne(e.choresCompleted, o.env.choresCompleted, next);
      GrowByOne(e.distractionsVisited, o.env.distractionsVisited, next);
    } else {
      assert o.env == PayMove(e);
    }
  }

  /** Reset forgets everything a step did. */
  lemma ResetForgetsStep(e: GridWorldEnv, a: Action)
    requires Valid(e)
    ensures Valid(Step(e, a).env) && Reset(Step(e, a).env) == Reset(e)
  {
    StepPreservesValid(e, a);
  }

  /** A grid holding exactly one start tile and one goal tile yields an
      environment starting and ending on them. */
  lemma UniqueMarkersEnv(g: Grid, config: Config, s: Pos, t: Pos)
    requires SquareEnough(g) && InSquare(|g|, s) && InSquare(|g|, t)
    requires forall q :: InSquare(|g|, q) ==> (g[q.row][q.col] == Kid <==> q == s)
    requires forall q :: InSquare(|g|, q) ==> (g[q.row][q.col] == IceCream <==> q == t)
    ensures NewEnv(g, config).Ok?
    ensures NewEnv(g, config).value.start == s && NewEnv(g, config).value.goal == t
  {
    assert g[s.row][s.col] == Kid;
    assert g[t.row][t.col] == IceCream;
  }

  /** The initial grid of a well-formed world constructs: the kid starts on
      the world's start cell and the ice cream waits on its goal cell. For
      the built-in world (`WorldWellFormed`) these are (1, 1) and (7, 4). */
  lemma InitialEnvironment(w: WorldDefinition, config: Config)
    requires WellFormedWorld(w)
    ensures NewEnv(CreateInitialGrid(w), config).Ok?
    ensures NewEnv(CreateInitialGrid(w), config).value.start == w.kidStart
    ensures NewEnv(CreateInitialGrid(w), config).value.goal == w.iceCream
  {
    var g := CreateInitialGrid(w);
    forall q | InSquare(|g|, q)
      ensures (g[q.row][q.col] == Kid <==> q == w.kidStart) && (g[q.row][q.col] == IceCream <==> q == w.iceCream)
    {
      InitialGridCell(w, q);
    }
    UniqueMarkersEnv(g, config, w.kidStart, w.iceCream);
  }
}
