/** Tabular Q-learning over the grid world: a lazily growing value table
    keyed by the state key, epsilon-greedy action choice with a fixed
    tie-break order, the one-step Bellman update, and the episode loop
    bounded by the hard step cap. Randomness enters as `Draw` values. */
module QLearning {
  import opened Types
  import opened Constants
  import opened Env
  import opened StateKey

  /** A sample of a uniform draw from [0, 1). */
  type Unit = r: real | 0.0 <= r < 1.0

  /** The randomness one action choice consumes: the explore-or-exploit
      draw and the draw that picks the random action. */
  datatype Draw = Draw(explore: Unit, pick: Unit)

  datatype Agent = Agent(qTable: QTable, config: Config, epsilon: real)

  /** A fresh agent: nothing learned, epsilon as configured. */
  function NewAgent(config: Config): (a: Agent)
    ensures forall s, b :: GetQValue(a.qTable, s, b) == 0.0
    ensures forall s :: StateToString(s) !in a.qTable
    ensures a.config == config && a.epsilon == config.epsilon
  {
    Agent(map[], config, config.epsilon)
  }

  // ------------------------------------------------------------- lookup

  /** Stored value of an action in a state; 0 when the state or the action
      has no entry. */
  function GetQValue(q: QTable, s: ObservedState, a: Action): (v: real)
    ensures StateToString(s) !in q ==> v == 0.0
    ensures StateToString(s) in q && a !in q[StateToString(s)] ==> v == 0.0
    ensures StateToString(s) in q && a in q[StateToString(s)] ==> v == q[StateToString(s)][a]
  {
    var key := StateToString(s);
    if key in q && a in q[key] then q[key][a] else 0.0
  }

  /** Position of an action in the fixed order UP, DOWN, LEFT, RIGHT. */
  function ActionIndex(a: Action): (i: nat)
    ensures i < |Actions| && Actions[i] == a
  {
    match a
    case Up => 0
    case Down => 1
    case Left => 2
    case Right => 3
  }

  /** The values of the four actions in action order. */
  function QValues(q: QTable, s: ObservedState): (v: seq<real>)
    ensures |v| == |Actions|
    ensures forall i :: 0 <= i < |v| ==> v[i] == GetQValue(q, s, Actions[i])
  {
    [GetQValue(q, s, Up), GetQValue(q, s, Down), GetQValue(q, s, Left), GetQValue(q, s, Right)]
  }

  // ------------------------------------------------------- action choice

  /** The scan that keeps the best index so far and replaces it only on a
      strictly larger value, so ties go to the earliest index. */
  function BestFrom(vals: seq<real>, i: nat, best: nat): (b: nat)
    requires best < i <= |vals|
    requires forall j :: 0 <= j < i ==> vals[j] <= vals[best]
    requires forall j :: 0 <= j < best ==> vals[j] < vals[best]
    ensures b < |vals|
    ensures forall j :: 0 <= j < |vals| ==> vals[j] <= vals[b]
    ensures forall j :: 0 <= j < b ==> vals[j] < vals[b]
    decreases |vals| - i
  {
    if i == |vals| then best
    else if vals[i] > vals[best] then BestFrom(vals, i + 1, i)
    else BestFrom(vals, i + 1, best)
  }

  /** The first index holding the maximum. The scan starts below every
      value, so index 0 is always taken first. */
  function FirstBest(vals: seq<real>): (b: nat)
    requires |vals| > 0
    ensures b < |vals|
    ensures forall j :: 0 <= j < |vals| ==> vals[j] <= vals[b]
    ensures forall j :: 0 <= j < b ==> vals[j] < vals[b]
  {
    BestFrom(vals, 1, 0)
  }

  /** Greedy choice: an action of maximal value (missing values count as
      0), the earliest in action order among ties. */
  function GreedyAction(q: QTable, s: ObservedState): (a: Action)
    ensures forall b :: GetQValue(q, s, b) <= GetQValue(q, s, a)
    ensures forall b :: ActionIndex(b) < ActionIndex(a) ==> GetQValue(q, s, b) < GetQValue(q, s, a)
  {
    var vals := QValues(q, s);
    var i := FirstBest(vals);
    assert ActionIndex(Actions[i]) == i;
    assert forall b :: GetQValue(q, s, b) == vals[ActionIndex(b)];
    Actions[i]
  }

  /** The random action: the pick draw scaled to the four actions and
      rounded down. */
  function RandomIndex(pick: Unit): (i: nat)
    ensures i < |Actions|
  {
    assert 0.0 <= pick * 4.0 < 4.0;
    (pick * 4.0).Floor
  }

  /** Each action owns one quarter of the pick interval. */
  lemma RandomIndexQuarters(pick: Unit, i: nat)
    requires i < |Actions|
    ensures RandomIndex(pick) == i <==> (i as real) / 4.0 <= pick < ((i + 1) as real) / 4.0
  {
  }

  /** Epsilon-greedy: explore when the draw falls below the current
      epsilon, otherwise exploit. */
  function ChooseAction(agent: Agent, s: ObservedState, d: Draw): (a: Action)
    ensures d.explore < agent.epsilon ==> a == Actions[RandomIndex(d.pick)]
    ensures d.explore >= agent.epsilon ==>
              forall b :: GetQValue(agent.qTable, s, b) <= GetQValue(agent.qTable, s, a)
    ensures d.explore >= agent.epsilon ==>
              forall b :: ActionIndex(b) < ActionIndex(a) ==> GetQValue(agent.qTable, s, b) < GetQValue(agent.qTable, s, a)
  {
    if d.explore < agent.epsilon then Actions[RandomIndex(d.pick)] else GreedyAction(agent.qTable, s)
  }

  /** With epsilon 0 every draw exploits. */
  lemma ZeroEpsilonIsGreedy(agent: Agent, s: ObservedState, d: Draw)
    requires agent.epsilon <= 0.0
    ensures ChooseAction(agent, s, d) == GreedyAction(agent.qTable, s)
  {
  }

  // ------------------------------------------------------------- update

  /** The largest value recorded for any of `acts`, if any is recorded. */
  function MaxRecorded(vals: ActionValues, acts: seq<Action>): Option<real>
    decreases |acts|
  {
    if |acts| == 0 then None
    else
      var rest := MaxRecorded(vals, acts[1..]);
      if acts[0] in vals then
        match rest
        case None => Some(vals[acts[0]])
        case Some(r) => Some(Max(vals[acts[0]], r))
      else rest
  }

  /** The maximum is absent exactly when nothing is recorded; otherwise it
      bounds every recorded value and is one of them. */
  lemma {:induction false} MaxRecordedAttained(vals: ActionValues, acts: seq<Action>)
    ensures MaxRecorded(vals, acts).None? <==> forall i :: 0 <= i < |acts| ==> acts[i] !in vals
    ensures MaxRecorded(vals, acts).Some? ==>
              forall i :: 0 <= i < |acts| && acts[i] in vals ==> vals[acts[i]] <= MaxRecorded(vals, acts).value
    ensures MaxRecorded(vals, acts).Some? ==>
              exists i :: 0 <= i < |acts| && acts[i] in vals && vals[acts[i]] == MaxRecorded(vals, acts).value
    decreases |acts|
  {
    if |acts| > 0 {
      MaxRecordedAttained(vals, acts[1..]);
      var rest := MaxRecorded(vals, acts[1..]);
      if rest.Some? {
        var k :| 0 <= k < |acts[1..]| && acts[1..][k] in vals && vals[acts[1..][k]] == rest.value;
        assert acts[k + 1] == acts[1..][k];
      }
      forall i | 1 <= i < |acts| ensures acts[i] == acts[1..][i - 1] { }
    }
  }

  /** The best value recorded for the next state: the maximum over the
      actions actually recorded there (possibly negative), or 0 when none
      is. */
  function MaxNextQ(q: QTable, next: ObservedState): (m: real)
    ensures var key := StateToString(next);
      key !in q || q[key] == map[] ==> m == 0.0
    ensures var key := StateToString(next);
      key in q ==> forall a :: a in q[key] ==> q[key][a] <= m
    ensures var key := StateToString(next);
      key in q && q[key] != map[] ==> exists a :: a in q[key] && q[key][a] == m
  {
    var key := StateToString(next);
    var vals := if key in q then q[key] else map[];
    ActionsEnumerateAll();
    MaxRecordedAttained(vals, Actions);
    assert forall a :: a in vals ==> vals[Actions[ActionIndex(a)]] <= MaxRecorded(vals, Actions).GetOr(0.0);
    assert vals != map[] ==> MaxRecorded(vals, Actions).Some?;
    MaxRecorded(vals, Actions).GetOr(0.0)
  }

  /** One step of the Bellman update with learning rate `alpha`. */
  function Bellman(oldQ: real, target: real, alpha: real): real {
    oldQ + Scale(alpha, target - oldQ)
  }

  function Scale(alpha: real, x: real): real { alpha * x }

  /** For a learning rate in [0, 1] the new value lies between the old
      value and the target; rate 1 jumps to the target and rate 0 keeps the
      old value. */
  lemma BellmanBetween(oldQ: real, target: real, alpha: real)
    requires 0.0 <= alpha <= 1.0
    ensures Min(oldQ, target) <= Bellman(oldQ, target, alpha) <= Max(oldQ, target)
    ensures alpha == 1.0 ==> Bellman(oldQ, target, alpha) == target
    ensures alpha == 0.0 ==> Bellman(oldQ, target, alpha) == oldQ
  {
    ScaleBetween(alpha, target - oldQ);
  }

  /** Scaling by a factor in [0, 1] moves a number towards zero without
      passing it. */
  lemma ScaleBetween(alpha: real, x: real)
    requires 0.0 <= alpha <= 1.0
    ensures x >= 0.0 ==> 0.0 <= Scale(alpha, x) <= x
    ensures x <= 0.0 ==> x <= Scale(alpha, x) <= 0.0
    ensures alpha == 1.0 ==> Scale(alpha, x) == x
    ensures alpha == 0.0 ==> Scale(alpha, x) == 0.0
  {
    if x >= 0.0 {
      ScaleNonneg(alpha, x);
    } else {
      ScaleNonneg(alpha, -x);
      assert Scale(alpha, x) == -Scale(alpha, -x);
    }
  }

  lemma ScaleNonneg(alpha: real, y: real)
    requires 0.0 <= alpha <= 1.0 && y >= 0.0
    ensures 0.0 <= Scale(alpha, y) <= y
  {
    MulNonneg(alpha, y);
    MulNonneg(1.0 - alpha, y);
    assert (1.0 - alpha) * y == y - alpha * y;
  }

  lemma MulNonneg(a: real, b: real)
    requires a >= 0.0 && b >= 0.0
    ensures a * b >= 0.0
  {
  }

  /** Writes oldQ + alpha (r + gamma maxNextQ - oldQ) into the (state,
      action) entry, creating the state's row if needed. Both the old
      value and the next state's maximum are read before the write. */
  function UpdateQValue(agent: Agent, s: ObservedState, a: Action, reward: real, next: ObservedState): (agent': Agent)
    ensures agent'.config == agent.config && agent'.epsilon == agent.epsilon
    ensures agent'.qTable.Keys == agent.qTable.Keys + {StateToString(s)}
    ensures a in agent'.qTable[StateToString(s)]
    ensures GetQValue(agent'.qTable, s, a) ==
              Bellman(GetQValue(agent.qTable, s, a), Target(agent, reward, next), agent.config.learningRate)
  {
    var q := agent.qTable;
    var oldQ := GetQValue(q, s, a);
    var newQ := Bellman(oldQ, Target(agent, reward, next), agent.config.learningRate);
    var key := StateToString(s);
    var row := if key in q then q[key] else map[];
    var q' := q[key := row[a := newQ]];
    assert q'[key][a] == newQ;
    agent.(qTable := q')
  }

  /** The temporal-difference target: the reward plus the discounted best
      value recorded for the next observation. */
  function Target(agent: Agent, reward: real, next: ObservedState): real {
    reward + agent.config.discountFactor * MaxNextQ(agent.qTable, next)
  }

  /** The update touches only its own entry: other rows are unchanged, and
      in its own row every other action keeps its value and its presence. */
  lemma UpdateFrame(agent: Agent, s: ObservedState, a: Action, reward: real, next: ObservedState)
    ensures var q' := UpdateQValue(agent, s, a, reward, next).qTable;
      forall k :: k in agent.qTable && k != StateToString(s) ==> q'[k] == agent.qTable[k]
    ensures var q' := UpdateQValue(agent, s, a, reward, next).qTable;
      var key := StateToString(s);
      forall b :: b != a ==> (b in q'[key] <==> key in agent.qTable && b in agent.qTable[key])
    ensures var q' := UpdateQValue(agent, s, a, reward, next).qTable;
      forall b :: b != a ==> GetQValue(q', s, b) == GetQValue(agent.qTable, s, b)
  {
  }

  /** An update never changes the value of a different observation, for
      any action: distinct observations have distinct keys. */
  lemma UpdateLeavesOtherStates(agent: Agent, s: ObservedState, a: Action, reward: real, next: ObservedState,
                                s2: ObservedState, b: Action)
    requires s2 != s
    ensures GetQValue(UpdateQValue(agent, s, a, reward, next).qTable, s2, b) == GetQValue(agent.qTable, s2, b)
  {
    if StateToString(s2) == StateToString(s) {
      StateToStringInjective(s2, s);
    }
  }

  // ------------------------------------------------------ episode loop

  /** Sum of the rewards of a sequence of step results. */
  function SumRewards(t: seq<StepResult>): real
    decreases |t|
  {
    if |t| == 0 then 0.0 else SumRewards(t[..|t| - 1]) + t[|t| - 1].reward
  }

  /** Appending a step result adds its reward to the total. */
  lemma SumRewardsSnoc(t: seq<StepResult>, res: StepResult)
    ensures SumRewards(t + [res]) == SumRewards(t) + res.reward
  {
    assert (t + [res])[..|t|] == t;
  }

  /** The loop's variables, plus the sequence of step results so far. */
  datatype Run = Run(
    agent: Agent,
    env: GridWorldEnv,
    state: ObservedState,
    path: seq<Pos>,
    totalReward: real,
    steps: nat,
    done: bool,
    status: EpisodeStatus,
    trace: seq<StepResult>)

  /** What the loop's counters say about the steps taken so far: one path
      cell per step after the start cell, each the position the step
      reported; the total is the sum of the step rewards; only the last
      step may be terminal; and the status is success exactly when the last
      step succeeded. */
  predicate EpisodeRecord(steps: nat, path: seq<Pos>, trace: seq<StepResult>, total: real, status: EpisodeStatus) {
    && |trace| == steps
    && |path| == steps + 1
    && (forall j :: 0 <= j < steps ==> path[j + 1] == trace[j].nextState.position)
    && total == SumRewards(trace)
    && (forall j :: 0 <= j < steps ==> (trace[j].done <==> trace[j].status != InProgress))
    && (forall j :: 0 <= j && j + 1 < steps ==> !trace[j].done)
    && (status == Succeeded <==> steps > 0 && trace[steps - 1].status == Success)
  }

  /** Recording one more non-final-so-far step keeps the record. */
  lemma RecordExtend(steps: nat, path: seq<Pos>, trace: seq<StepResult>, total: real, status: EpisodeStatus,
                     res: StepResult, status': EpisodeStatus)
    requires EpisodeRecord(steps, path, trace, total, status)
    requires steps == 0 || !trace[steps - 1].done
    requires res.done <==> res.status != InProgress
    requires status' == (if res.done then (if res.status == Success then Succeeded else Failed) else status)
    ensures EpisodeRecord(steps + 1, path + [res.nextState.position], trace + [res], total + res.reward, status')
  {
    var trace', path' := trace + [res], path + [res.nextState.position];
    SumRewardsSnoc(trace, res);
    forall j | 0 <= j < steps + 1
      ensures path'[j + 1] == trace'[j].nextState.position
      ensures trace'[j].done <==> trace'[j].status != InProgress
      ensures j + 1 < steps + 1 ==> !trace'[j].done
    {
      if j < steps {
        assert trace'[j] == trace[j] && path'[j + 1] == path[j + 1];
      }
    }
  }

  /** The loop's state: the record plus whether the last step was terminal,
      and the success cell, which holds the goal tile. */
  predicate Consistent(r: Run)
    requires Shaped(r.env)
  {
    && EpisodeRecord(r.steps, r.path, r.trace, r.totalReward, r.status)
    && (r.done <==> r.steps > 0 && r.trace[r.steps - 1].done)
    && (r.status == Succeeded ==> InSquare(r.env.size, r.path[r.steps]) && TileAt(r.env, r.path[r.steps]) == IceCream)
  }

  /** One iteration of the loop body: choose, step, update, record. */
  function Advance(r: Run, draws: nat -> Draw): (r': Run)
    requires Shaped(r.env) && Consistent(r) && !r.done
    ensures Shaped(r'.env) && Consistent(r')
    ensures var a := ChooseAction(r.agent, r.state, draws(r.steps));
      var o := Step(r.env, a);
      && r'.trace == r.trace + [o.result]
      && r'.env == o.env && r'.state == o.result.nextState
      && r'.agent == UpdateQValue(r.agent, r.state, a, o.result.reward, o.result.nextState)
    ensures r'.env.grid == r.env.grid && r'.env.config == r.env.config
    ensures r'.env.start == r.env.start && r'.env.goal == r.env.goal
    ensures r'.agent.config == r.agent.config && r'.agent.epsilon == r.agent.epsilon
    ensures r.agent.qTable.Keys <= r'.agent.qTable.Keys
    ensures r'.steps == r.steps + 1
    ensures r'.path[0] == r.path[0] && r'.trace[..|r.trace|] == r.trace
  {
    var a := ChooseAction(r.agent, r.state, draws(r.steps));
    var o := Step(r.env, a);
    var agent := UpdateQValue(r.agent, r.state, a, o.result.reward, o.result.nextState);
    var status := if o.result.done then (if o.result.status == Success then Succeeded else Failed) else r.status;
    var r' := Run(agent, o.env, o.result.nextState, r.path + [o.result.nextState.position],
                  r.totalReward + o.result.reward, r.steps + 1, o.result.done, status, r.trace + [o.result]);
    ExtendConsistent(r, r', o.result);
    r'
  }

  /** Appending one step result whose success cell holds the goal keeps
      the loop's state consistent. */
  lemma ExtendConsistent(r: Run, r': Run, res: StepResult)
    requires Shaped(r.env) && Consistent(r) && !r.done
    requires r'.env.grid == r.env.grid && r'.env.size == r.env.size
    requires res.done <==> res.status != InProgress
    requires res.status == Success ==>
               InSquare(r.env.size, res.nextState.position) && TileAt(r.env, res.nextState.position) == IceCream
    requires r'.path == r.path + [res.nextState.position] && r'.trace == r.trace + [res]
    requires r'.totalReward == r.totalReward + res.reward && r'.steps == r.steps + 1 && r'.done == res.done
    requires r'.status == (if res.done then (if res.status == Success then Succeeded else Failed) else r.status)
    ensures Shaped(r'.env) && Consistent(r')
    ensures r'.path[0] == r.path[0] && r'.trace[..|r.trace|] == r.trace
  {
    RecordExtend(r.steps, r.path, r.trace, r.totalReward, r.status, res, r'.status);
    RunningNotSucceeded(r);
    assert r'.trace[..|r.trace|] == r.trace;
    assert r'.path[r'.steps] == res.nextState.position;
  }

  /** Before a terminal step the episode has not succeeded. */
  lemma RunningNotSucceeded(r: Run)
    requires Shaped(r.env) && Consistent(r) && !r.done
    ensures r.status != Succeeded
  {
    if r.steps > 0 {
      assert !r.trace[r.steps - 1].done;
    }
  }

  // ------------------------------------------------- reference trajectory

  /** The part of the loop's state the body transforms: the agent, the
      environment and the current observation. */
  datatype Snapshot = Snapshot(agent: Agent, env: GridWorldEnv, state: ObservedState)

  function SnapshotOf(r: Run): Snapshot {
    Snapshot(r.agent, r.env, r.state)
  }

  /** The step result of one loop body from `s` with draw `d`. */
  function ResultOf(s: Snapshot, d: Draw): StepResult
    requires Shaped(s.env)
  {
    Step(s.env, ChooseAction(s.agent, s.state, d)).result
  }

  /** One loop body on its own: choose an action with the draw, step the
      environment, and update that action's value from the step result. */
  function Next(s: Snapshot, d: Draw): (s': Snapshot)
    requires Shaped(s.env)
    ensures Shaped(s'.env) && s'.env.grid == s.env.grid && s'.env.size == s.env.size && s'.env.config == s.env.config
  {
    var a := ChooseAction(s.agent, s.state, d);
    var o := Step(s.env, a);
    Snapshot(UpdateQValue(s.agent, s.state, a, o.result.reward, o.result.nextState), o.env, o.result.nextState)
  }

  /** One loop body as a total function of a snapshot and a draw index;
      a snapshot whose grid cannot be searched is left as it is. */
  function Body(draws: nat -> Draw): (Snapshot, nat) -> Snapshot {
    (x: Snapshot, i: nat) => if Shaped(x.env) then Next(x, draws(i)) else x
  }

  /** The step result of one loop body as a total function of a snapshot
      and a draw index, paired with `Body`; a snapshot whose grid cannot be
      searched yields an empty in-progress result. */
  function Outcome(draws: nat -> Draw): (Snapshot, nat) -> StepResult {
    (x: Snapshot, i: nat) => if Shaped(x.env) then ResultOf(x, draws(i)) else StepResult(x.state, 0.0, false, InProgress)
  }

  /** The values x, f(x, k), f(f(x, k), k + 1), ... up to n applications. */
  function Iterate<T>(x: T, k: nat, n: nat, f: (T, nat) -> T): (h: seq<T>)
    ensures |h| == n + 1 && h[0] == x
    decreases n
  {
    if n == 0 then [x] else [x] + Iterate(f(x, k), k + 1, n - 1, f)
  }

  /** Entry j + 1 of an iteration is f applied to entry j and index i == k + j. */
  lemma {:induction false} IterateSteps<T>(x: T, k: nat, n: nat, f: (T, nat) -> T, j: nat, i: nat)
    requires j < n && i == k + j
    ensures Iterate(x, k, n, f)[j + 1] == f(Iterate(x, k, n, f)[j], i)
    decreases n
  {
    var h := Iterate(x, k, n, f);
    var h1 := Iterate(f(x, k), k + 1, n - 1, f);
    assert h == [x] + h1;
    if j > 0 {
      IterateSteps(f(x, k), k + 1, n - 1, f, j - 1, i);
      assert h[j + 1] == h1[j] && h[j] == h1[j - 1];
    }
  }

  /** Reference definition of the steps: the snapshots after 0, 1, ..., n
      loop bodies from `s`, body j consuming draw k + j, with no stopping
      rule. */
  function Trajectory(s: Snapshot, k: nat, n: nat, draws: nat -> Draw): (h: seq<Snapshot>)
    ensures |h| == n + 1 && h[0] == s
  {
    Iterate(s, k, n, Body(draws))
  }

  /** A property of x that every application of f keeps holds of every
      entry of the iteration. */
  lemma {:induction false} IterateKeeps<T>(x: T, k: nat, n: nat, f: (T, nat) -> T, p: T -> bool)
    requires p(x) && forall y, i :: p(y) ==> p(f(y, i))
    ensures forall j :: 0 <= j <= n ==> p(Iterate(x, k, n, f)[j])
    decreases n
  {
    if n > 0 {
      var h1 := Iterate(f(x, k), k + 1, n - 1, f);
      IterateKeeps(f(x, k), k + 1, n - 1, f, p);
      assert Iterate(x, k, n, f) == [x] + h1;
    }
  }

  /** Every snapshot of a trajectory from a searchable grid keeps that grid
      and stays searchable. */
  lemma TrajectoryShaped(s: Snapshot, k: nat, n: nat, draws: nat -> Draw)
    requires Shaped(s.env)
    ensures forall j :: 0 <= j <= n ==> var x := Trajectory(s, k, n, draws)[j];
      Shaped(x.env) && x.env.grid == s.env.grid && x.env.size == s.env.size
  {
    var p := (x: Snapshot) => Shaped(x.env) && x.env.grid == s.env.grid && x.env.size == s.env.size;
    forall y: Snapshot, i: nat | p(y)
      ensures p(Body(draws)(y, i))
    {
      assert Body(draws)(y, i) == Next(y, draws(i));
    }
    IterateKeeps(s, k, n, Body(draws), p);
  }

  /** Consecutive snapshots of a trajectory are one loop body apart, and
      every snapshot keeps the starting grid. */
  lemma TrajectorySteps(s: Snapshot, k: nat, n: nat, draws: nat -> Draw, j: nat)
    requires Shaped(s.env) && j < n
    ensures var h := Trajectory(s, k, n, draws);
      && Shaped(h[j].env)
      && h[j + 1] == Next(h[j], draws(k + j))
      && h[j + 1].env.grid == s.env.grid && h[j + 1].env.size == s.env.size
  {
    var h := Trajectory(s, k, n, draws);
    TrajectoryShaped(s, k, n, draws);
    assert Shaped(h[j].env);
    IterateSteps(s, k, n, Body(draws), j, k + j);
  }

  /** Along a trajectory, body j stores the Bellman value of the action it
      chose, computed from the step's reward and next observation, and
      every other value of every observation stays as it was. */
  lemma TrajectoryUpdates(s: Snapshot, k: nat, n: nat, draws: nat -> Draw, j: nat)
    requires Shaped(s.env) && j < n
    ensures var h := Trajectory(s, k, n, draws);
      Shaped(h[j].env) &&
      var a := ChooseAction(h[j].agent, h[j].state, draws(k + j));
      var res := ResultOf(h[j], draws(k + j));
      && GetQValue(h[j + 1].agent.qTable, h[j].state, a)
           == Bellman(GetQValue(h[j].agent.qTable, h[j].state, a), Target(h[j].agent, res.reward, res.nextState),
                      h[j].agent.config.learningRate)
      && (forall s2, b :: (s2 != h[j].state || b != a) ==>
            GetQValue(h[j + 1].agent.qTable, s2, b) == GetQValue(h[j].agent.qTable, s2, b))
  {
    var h := Trajectory(s, k, n, draws);
    TrajectorySteps(s, k, n, draws, j);
    var a := ChooseAction(h[j].agent, h[j].state, draws(k + j));
    var res := ResultOf(h[j], draws(k + j));
    UpdateFrame(h[j].agent, h[j].state, a, res.reward, res.nextState);
    forall s2, b | s2 != h[j].state
      ensures GetQValue(h[j + 1].agent.qTable, s2, b) == GetQValue(h[j].agent.qTable, s2, b)
    {
      UpdateLeavesOtherStates(h[j].agent, h[j].state, a, res.reward, res.nextState, s2, b);
    }
  }

  /** The loop: run the body until a terminal step or the hard cap. Step k
      consumes draw k. */
  function Loop(r: Run, cap: int, draws: nat -> Draw): (r': Run)
    requires Shaped(r.env) && Consistent(r)
    ensures Shaped(r'.env) && Consistent(r')
    ensures r'.env.grid == r.env.grid && r'.env.config == r.env.config
    ensures r'.env.start == r.env.start && r'.env.goal == r.env.goal
    ensures r'.agent.config == r.agent.config && r'.agent.epsilon == r.agent.epsilon
    ensures r.agent.qTable.Keys <= r'.agent.qTable.Keys
    ensures r.steps <= r'.steps && (r'.steps <= cap || r'.steps == r.steps)
    ensures r'.path[0] == r.path[0]
    ensures r'.done || r'.steps >= cap
    ensures r.done ==> r' == r
    decreases cap - r.steps
  {
    if r.done || r.steps >= cap then r else Loop(Advance(r, draws), cap, draws)
  }

  /** The loop only ever leaves the environment in valid states. */
  lemma {:induction false} LoopPreservesValid(r: Run, cap: int, draws: nat -> Draw)
    requires Valid(r.env) && Consistent(r)
    ensures Valid(Loop(r, cap, draws).env)
    decreases cap - r.steps
  {
    if !(r.done || r.steps >= cap) {
      StepPreservesValid(r.env, ChooseAction(r.agent, r.state, draws(r.steps)));
      LoopPreservesValid(Advance(r, draws), cap, draws);
    }
  }

  /** Run `r'` follows the trajectory from `r` for its remaining steps. */
  predicate FollowsFrom(r: Run, r': Run, draws: nat -> Draw) {
    && r.steps <= r'.steps <= |r'.trace|
    && var h := Trajectory(SnapshotOf(r), r.steps, r'.steps - r.steps, draws);
       && r'.trace[..r.steps] == r.trace
       && SnapshotOf(r') == h[r'.steps - r.steps]
       && forall j :: 0 <= j < r'.steps - r.steps ==> r'.trace[r.steps + j] == Outcome(draws)(h[j], r.steps + j)
  }

  /** One iteration of the loop is the first body of the trajectory. */
  lemma AdvanceIsBody(r: Run, draws: nat -> Draw)
    requires Shaped(r.env) && Consistent(r) && !r.done
    ensures SnapshotOf(Advance(r, draws)) == Body(draws)(SnapshotOf(r), r.steps)
    ensures Advance(r, draws).trace == r.trace + [Outcome(draws)(SnapshotOf(r), r.steps)]
    ensures Advance(r, draws).steps == r.steps + 1
  {
  }

  /** Outputs that match f along h1 from index k + 1, and f on x at k,
      match f along [x] + h1 from index k. */
  lemma {:induction false} OutputsShift<T, U>(t: seq<U>, x: T, h1: seq<T>, k: nat, k1: nat, m: nat, f: (T, nat) -> U)
    requires k1 == k + 1 && m <= |h1| && k + m < |t| && t[k] == f(x, k)
    requires forall j :: 0 <= j < m ==> t[k1 + j] == f(h1[j], k1 + j)
    ensures forall j :: 0 <= j < m + 1 ==> t[k + j] == f(([x] + h1)[j], k + j)
  {
    forall j | 0 <= j < m + 1
      ensures t[k + j] == f(([x] + h1)[j], k + j)
    {
      if j == 0 {
        assert ([x] + h1)[0] == x;
      } else {
        var i := j - 1;
        assert ([x] + h1)[j] == h1[i] && k + j == k1 + i;
      }
    }
  }

  /** Following the trajectory from the next run, after one body that
      matches the trajectory's first, is following it from this run. */
  lemma {:induction false} FollowsShift(r: Run, r1: Run, r': Run, draws: nat -> Draw)
    requires |r.trace| == r.steps
    requires r1.steps == r.steps + 1 && r1.trace == r.trace + [Outcome(draws)(SnapshotOf(r), r.steps)]
    requires SnapshotOf(r1) == Body(draws)(SnapshotOf(r), r.steps)
    requires FollowsFrom(r1, r', draws)
    ensures FollowsFrom(r, r', draws)
  {
    var n := r'.steps - r.steps;
    var h := Trajectory(SnapshotOf(r), r.steps, n, draws);
    var h1 := Trajectory(SnapshotOf(r1), r1.steps, n - 1, draws);
    assert h == [SnapshotOf(r)] + h1;
    assert r'.trace[..r1.steps] == r1.trace;
    assert r'.trace[..r.steps] == r1.trace[..r.steps];
    assert r'.trace[r.steps] == r1.trace[r.steps] == Outcome(draws)(SnapshotOf(r), r.steps);
    OutputsShift(r'.trace, SnapshotOf(r), h1, r.steps, r1.steps, n - 1, Outcome(draws));
  }

  /** The loop follows the reference trajectory: it keeps the steps
      already recorded, step j of its own is the result of body j of the
      trajectory, and it ends in the trajectory's snapshot after as many
      bodies as it ran. */
  lemma {:induction false} LoopFollowsTrajectory(r: Run, cap: int, draws: nat -> Draw)
    requires Shaped(r.env) && Consistent(r)
    ensures FollowsFrom(r, Loop(r, cap, draws), draws)
    decreases cap - r.steps
  {
    if !(r.done || r.steps >= cap) {
      var r1 := Advance(r, draws);
      LoopFollowsTrajectory(r1, cap, draws);
      AdvanceIsBody(r, draws);
      FollowsShift(r, r1, Loop(r1, cap, draws), draws);
    } else {
      assert r.trace[..r.steps] == r.trace;
    }
  }

  /** Where every snapshot is searchable, the outcome of a body is the
      step result of that body. */
  lemma OutcomesAreResults(h: seq<Snapshot>, t: seq<StepResult>, n: nat, draws: nat -> Draw)
    requires n <= |h| && n <= |t|
    requires forall j :: 0 <= j < n ==> Shaped(h[j].env) && t[j] == Outcome(draws)(h[j], j)
    ensures forall j :: 0 <= j < n ==> Shaped(h[j].env) && t[j] == ResultOf(h[j], draws(j))
  {
  }

  /** Following the trajectory from a run that has taken no steps: step j
      is the result of body j on draw j, and the run ends in the snapshot
      after its last body. */
  lemma FollowsFromStart(r: Run, r': Run, draws: nat -> Draw)
    requires Shaped(r.env) && r.steps == 0 && FollowsFrom(r, r', draws)
    ensures var h := Trajectory(SnapshotOf(r), 0, r'.steps, draws);
      && SnapshotOf(r') == h[r'.steps]
      && forall j :: 0 <= j < r'.steps ==> Shaped(h[j].env) && r'.trace[j] == ResultOf(h[j], draws(j))
  {
    var h := Trajectory(SnapshotOf(r), 0, r'.steps, draws);
    TrajectoryShaped(SnapshotOf(r), 0, r'.steps, draws);
    assert forall j :: 0 <= j < r'.steps ==> Shaped(h[j].env) && r'.trace[j] == Outcome(draws)(h[j], j);
    OutcomesAreResults(h, r'.trace, r'.steps, draws);
  }

  /** From a run that has taken no steps, step j of the loop is the result
      of body j of the trajectory from the run's snapshot, on draw j. */
  lemma LoopFromStart(r: Run, cap: int, draws: nat -> Draw)
    requires Shaped(r.env) && Consistent(r) && r.steps == 0
    ensures var r' := Loop(r, cap, draws);
      var h := Trajectory(SnapshotOf(r), 0, r'.steps, draws);
      && SnapshotOf(r') == h[r'.steps]
      && forall j :: 0 <= j < r'.steps ==> Shaped(h[j].env) && r'.trace[j] == ResultOf(h[j], draws(j))
  {
    LoopFollowsTrajectory(r, cap, draws);
    FollowsFromStart(r, Loop(r, cap, draws), draws);
  }

  /** What one episode reports, with the step results it produced. */
  datatype EpisodeOutcome = EpisodeOutcome(
    agent: Agent,
    env: GridWorldEnv,
    steps: nat,
    totalReward: real,
    status: EpisodeStatus,
    path: seq<Pos>,
    remainingSteps: real,
    resources: ResourceSnapshot,
    trace: seq<StepResult>)

  /** Epsilon after an episode: decayed, but never below the minimum. */
  function DecayEpsilon(epsilon: real, config: Config): (e: real)
    ensures e >= config.minEpsilon
  {
    Max(config.minEpsilon, Scale(config.epsilonDecay, epsilon))
  }

  /** With a decay factor in [0, 1], decay never raises an epsilon that is
      already at or above the minimum. */
  lemma DecayEpsilonBounds(epsilon: real, config: Config)
    requires 0.0 <= config.epsilonDecay <= 1.0 && epsilon >= 0.0
    ensures epsilon >= config.minEpsilon ==> DecayEpsilon(epsilon, config) <= epsilon
  {
    ScaleBetween(config.epsilonDecay, epsilon);
  }

  /** The episode's steps: reset the environment and run the loop from
      the start cell. */
  function Play(agent: Agent, env: GridWorldEnv, draws: nat -> Draw): (r: Run)
    requires Valid(env)
    ensures Valid(r.env) && Consistent(r)
    ensures r.env.grid == env.grid && r.env.size == env.size && r.env.config == env.config
    ensures r.env.start == env.start && r.env.goal == env.goal
    ensures r.path[0] == env.start
    ensures r.steps == 0 || r.steps <= agent.config.episodeHardCap
    ensures r.steps < agent.config.episodeHardCap ==> r.done && 0 < r.steps <= |r.trace| && r.trace[r.steps - 1].done
    ensures r.agent.config == agent.config && r.agent.epsilon == agent.epsilon
    ensures agent.qTable.Keys <= r.agent.qTable.Keys
  {
    var e0 := Reset(env);
    var start := Run(agent, e0, Observe(e0), [e0.pos], 0.0, 0, false, Failed, []);
    assert EpisodeRecord(0, [e0.pos], [], 0.0, Failed);
    LoopPreservesValid(start, agent.config.episodeHardCap, draws);
    Loop(start, agent.config.episodeHardCap, draws)
  }

  /** One training episode: play it, then decay epsilon. */
  function TrainEpisode(agent: Agent, env: GridWorldEnv, draws: nat -> Draw): (o: EpisodeOutcome)
    requires Valid(env)
    ensures o.env.grid == env.grid && o.env.config == env.config
    ensures o.env.start == env.start && o.env.goal == env.goal
    ensures o.steps == 0 || o.steps <= agent.config.episodeHardCap
    ensures o.agent.config == agent.config
    ensures o.agent.epsilon == DecayEpsilon(agent.epsilon, agent.config)
    ensures agent.qTable.Keys <= o.agent.qTable.Keys
    ensures o.resources == GetResources(o.env) && o.remainingSteps == o.env.timeRemaining
  {
    var r := Play(agent, env, draws);
    var agent' := r.agent.(epsilon := DecayEpsilon(r.agent.epsilon, r.agent.config));
    EpisodeOutcome(agent', r.env, r.steps, r.totalReward, r.status, r.path,
                   r.env.timeRemaining, GetResources(r.env), r.trace)
  }

  /** An episode leaves the environment valid. */
  lemma TrainEpisodeValid(agent: Agent, env: GridWorldEnv, draws: nat -> Draw)
    requires Valid(env)
    ensures Valid(TrainEpisode(agent, env, draws).env)
  {
    assert TrainEpisode(agent, env, draws).env == Play(agent, env, draws).env;
  }

  /** What an episode reports agrees with its steps: the path starts at
      the start cell and has one cell per step, and the total reward and
      status are those of the steps. */
  lemma TrainEpisodeRecord(agent: Agent, env: GridWorldEnv, draws: nat -> Draw)
    requires Valid(env)
    ensures var o := TrainEpisode(agent, env, draws);
      && EpisodeRecord(o.steps, o.path, o.trace, o.totalReward, o.status)
      && o.path[0] == env.start
  {
    var o := TrainEpisode(agent, env, draws);
    var r := Play(agent, env, draws);
    assert o.steps == r.steps && o.path == r.path && o.trace == r.trace;
    assert o.totalReward == r.totalReward && o.status == r.status;
  }

  /** An episode that stopped before the cap ended on a terminal step. */
  lemma TrainEpisodeStopped(agent: Agent, env: GridWorldEnv, draws: nat -> Draw)
    requires Valid(env)
    ensures var o := TrainEpisode(agent, env, draws);
      o.steps < agent.config.episodeHardCap ==> 0 < o.steps <= |o.trace| && o.trace[o.steps - 1].done
  {
    var r := Play(agent, env, draws);
    if r.steps < agent.config.episodeHardCap {
      var last := r.trace[r.steps - 1];
      assert last.done;
      assert TrainEpisode(agent, env, draws).trace[r.steps - 1] == last;
    }
  }

  /** An episode reported as succeeded ended on the ice cream cell of the
      environment's grid. */
  lemma TrainEpisodeSucceeded(agent: Agent, env: GridWorldEnv, draws: nat -> Draw)
    requires Valid(env)
    ensures var o := TrainEpisode(agent, env, draws);
      o.status == Succeeded ==> o.steps < |o.path| && InSquare(env.size, o.path[o.steps]) && TileAt(env, o.path[o.steps]) == IceCream
  {
    var o := TrainEpisode(agent, env, draws);
    var r := Play(agent, env, draws);
    assert o.steps == r.steps && o.path == r.path && o.status == r.status;
    assert r.status == Succeeded ==> TileAt(env, r.path[r.steps]) == TileAt(r.env, r.path[r.steps]);
  }

  /** The episode follows the reference trajectory from the reset
      environment: step j reports the result of body j on draw j, and the
      episode ends with the environment and the table of the snapshot after
      its last body, epsilon decayed once. */
  lemma TrainEpisodeFollowsTrajectory(agent: Agent, env: GridWorldEnv, draws: nat -> Draw)
    requires Valid(env)
    ensures var o := TrainEpisode(agent, env, draws);
      var e0 := Reset(env);
      var h := Trajectory(Snapshot(agent, e0, Observe(e0)), 0, o.steps, draws);
      && o.env == h[o.steps].env
      && o.agent == h[o.steps].agent.(epsilon := DecayEpsilon(agent.epsilon, agent.config))
      && forall j :: 0 <= j < o.steps ==> Shaped(h[j].env) && o.trace[j] == ResultOf(h[j], draws(j))
  {
    var e0 := Reset(env);
    var start := Run(agent, e0, Observe(e0), [e0.pos], 0.0, 0, false, Failed, []);
    assert EpisodeRecord(0, [e0.pos], [], 0.0, Failed);
    LoopFromStart(start, agent.config.episodeHardCap, draws);
  }

  // ------------------------------------------------------- reset, config

  /** Forgets everything learned and restores the configured epsilon. */
  function ResetAgent(agent: Agent): (a: Agent)
    ensures a.config == agent.config
    ensures forall s, b :: GetQValue(a.qTable, s, b) == 0.0
    ensures forall s :: GreedyAction(a.qTable, s) == Up
    ensures a.epsilon == agent.config.epsilon
  {
    var a := NewAgent(agent.config);
    assert forall s :: ActionIndex(GreedyAction(a.qTable, s)) == 0;
    a
  }

  /** Installs a new configuration; epsilon restarts only when the
      configured epsilon changed, and the learned table is kept. */
  function SetConfig(agent: Agent, config: Config): (a: Agent)
    ensures a.config == config && a.qTable == agent.qTable
    ensures config.epsilon != agent.config.epsilon ==> a.epsilon == config.epsilon
    ensures config.epsilon == agent.config.epsilon ==> a.epsilon == agent.epsilon
  {
    var shouldResetEpsilon := config.epsilon != agent.config.epsilon;
    if shouldResetEpsilon then agent.(config := config, epsilon := config.epsilon)
    else agent.(config := config)
  }

  /** Installing the same configuration twice is the same as once, and
      installing the current one changes nothing. */
  lemma SetConfigIdempotent(agent: Agent, config: Config)
    ensures SetConfig(SetConfig(agent, config), config) == SetConfig(agent, config)
    ensures SetConfig(agent, agent.config) == agent
  {
  }
}
