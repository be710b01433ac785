/** The training scheduler: a command-driven state machine over the
    module-level state of the training worker, held here as one record.
    The pending timer is `timer` (the delay it was armed with), posted
    messages are the `out` list of each transition, and a fired timer is
    the `Tick` event carrying the episode's random draws. */
module TrainingWorker {
  import opened Types
  import opened Constants
  import opened Env
  import opened QLearning

  const DefaultBatchSize: real := 10.0

  /** The resources of a fresh episode under `cfg`. */
  function InitialResources(cfg: Config): ResourceSnapshot {
    ResourceSnapshot(cfg.timeLimit, cfg.energy, 0, cfg.requiredChores, 0)
  }

  datatype Worker = Worker(
    grid: Grid,
    config: Config,
    env: Option<GridWorldEnv>,
    agent: Option<Agent>,
    isRunning: bool,
    currentEpisode: nat,
    batchSize: real,
    batchStats: seq<EpisodeResult>,
    batchRoutes: seq<RouteHistoryEntry>,
    lastPath: seq<Pos>,
    resources: ResourceSnapshot,
    timer: Option<nat>)

  datatype Command =
    | ResetCmd(grid: Grid, config: Config)
    | SetConfigCmd(config: Config)
    | StartCmd(batchSize: Option<real>)   // None: absent or not a number
    | PauseCmd
    | UnknownCmd(tag: string)

  datatype BatchPayload = BatchPayload(
    stats: seq<EpisodeResult>,
    routes: seq<RouteHistoryEntry>,
    agentPath: seq<Pos>,
    resources: ResourceSnapshot,
    currentEpisode: nat,
    trainingState: TrainingState,
    qTable: QTable)

  datatype WorkerError = UnknownCommand(tag: string) | EnvConstruction(cause: EnvError)

  datatype Response = BatchUpdate(payload: BatchPayload) | ErrorResponse(error: WorkerError)

  /** A transition's result: the new state and the messages posted. */
  datatype Effect = Effect(w: Worker, out: seq<Response>)

  /** A handler either finishes or throws; a throw keeps whatever the
      handler changed before the failing construction. */
  datatype Attempt = Done(w: Worker, out: seq<Response>) | Threw(w: Worker, cause: EnvError)

  /** The module state as loaded: the initial grid of the world and the
      given configuration (`InitialWorker(World, DefaultConfig)` for the
      built-in ones), nothing built, idle, with empty buffers. */
  function InitialWorker(world: WorldDefinition, config: Config): (w: Worker)
    requires WellFormedWorld(world)
    ensures Inv(w) && w.env.None? && w.agent.None? && !w.isRunning
  {
    var w := Worker(CreateInitialGrid(world), config, None, None, false, 0, DefaultBatchSize, [], [], [],
                    InitialResources(config), None);
    IdleWorkerInv(w);
    w
  }

  /** The initial resources are exactly what a freshly reset environment
      reports. */
  lemma InitialResourcesMatchReset(e: GridWorldEnv)
    requires Valid(e)
    ensures InitialResources(e.config) == GetResources(Reset(e))
  {
    ResetResources(e);
  }

  /** What every reachable worker satisfies, apart from the timer: the
      grid is square enough to search, a present environment is valid, the
      batch size is positive, the buffers have one route per result, and
      the buffered results are numbered consecutively up to the counter. */
  predicate Steady(w: Worker) {
    && SquareEnough(w.grid)
    && (w.env.Some? ==> Valid(w.env.value))
    && w.batchSize > 0.0
    && |w.batchStats| == |w.batchRoutes|
    && |w.batchStats| <= w.currentEpisode
    && (forall i :: 0 <= i < |w.batchStats| ==>
          w.batchStats[i].episode == w.currentEpisode - |w.batchStats| + 1 + i)
    && (w.isRunning ==> w.env.Some? && w.agent.Some?)
  }

  /** What every reachable worker satisfies: a tick is pending exactly
      while training runs. */
  predicate Inv(w: Worker) {
    Steady(w) && (w.isRunning <==> w.timer.Some?)
  }

  /** The grid of the worker as loaded always constructs an environment,
      starting on the world's start cell. */
  lemma InitialWorkerInv(world: WorldDefinition, config: Config)
    requires WellFormedWorld(world)
    ensures var w := InitialWorker(world, config);
      ResetEnvironment(w).Ok? && ResetEnvironment(w).value.env.value.start == world.kidStart
  {
    InitialEnvironment(world, config);
  }

  /** A stopped worker with nothing built and nothing buffered is in order
      as soon as its grid is square. */
  lemma IdleWorkerInv(w: Worker)
    requires |w.grid| == 9 && forall r :: 0 <= r < 9 ==> |w.grid[r]| == 9
    requires w.env.None? && !w.isRunning && w.timer.None? && w.batchSize > 0.0
    requires w.batchStats == [] && w.batchRoutes == []
    ensures Inv(w)
  {
  }

  // -------------------------------------------------------------- pieces

  /** Builds a fresh environment and agent from the installed grid and
      configuration, restarting the episode count and the buffers. Fails,
      changing nothing, when the grid lacks a start or a goal. */
  function ResetEnvironment(w: Worker): (r: Result<Worker, EnvError>)
    requires SquareEnough(w.grid)
    ensures r.Ok? <==> NewEnv(w.grid, w.config).Ok?
    ensures r.Err? ==> r.error == NewEnv(w.grid, w.config).error
    ensures r.Ok? ==> && r.value.env == Some(NewEnv(w.grid, w.config).value)
                      && r.value.agent == Some(NewAgent(w.config))
                      && r.value.currentEpisode == 0
                      && r.value.batchStats == [] && r.value.batchRoutes == []
                      && r.value.lastPath == [NewEnv(w.grid, w.config).value.start]
                      && r.value.resources == InitialResources(w.config)
    ensures r.Ok? ==> r.value.grid == w.grid && r.value.config == w.config && r.value.isRunning == w.isRunning
                      && r.value.timer == w.timer && r.value.batchSize == w.batchSize
  {
    match NewEnv(w.grid, w.config)
    case Err(e) => Err(e)
    case Ok(env) =>
      Ok(w.(env := Some(env), agent := Some(NewAgent(w.config)), currentEpisode := 0,
            resources := InitialResources(w.config), lastPath := [env.start],
            batchStats := [], batchRoutes := []))
  }

  /** The batch message: the buffered results and routes, the last path,
      the resources, the episode counter, the state and the value table. */
  function Payload(w: Worker, trainingState: TrainingState): BatchPayload
    requires w.agent.Some?
  {
    BatchPayload(w.batchStats, w.batchRoutes, w.lastPath, w.resources,
                 w.currentEpisode, trainingState, w.agent.value.qTable)
  }

  /** Posts the buffered batch and empties the buffers. Nothing is posted
      without an agent, nor for an empty batch while running. */
  function FlushBatch(w: Worker, trainingState: TrainingState): (e: Effect)
    ensures |e.out| <= 1
    ensures e.w == w || e.w == w.(batchStats := [], batchRoutes := [])
    ensures w.agent.None? || (w.batchStats == [] && trainingState == Running) ==> e == Effect(w, [])
    ensures w.agent.Some? && !(w.batchStats == [] && trainingState == Running) ==>
              && e.out == [BatchUpdate(Payload(w, trainingState))]
              && e.w.batchStats == [] && e.w.batchRoutes == []
  {
    if w.agent.None? then Effect(w, [])
    else if |w.batchStats| == 0 && trainingState == Running then Effect(w, [])
    else Effect(w.(batchStats := [], batchRoutes := []), [BatchUpdate(Payload(w, trainingState))])
  }

  /** Flushing keeps the invariant, whatever it posts. */
  lemma FlushKeepsInv(w: Worker, trainingState: TrainingState)
    requires Inv(w)
    ensures Inv(FlushBatch(w, trainingState).w)
  {
  }

  /** Delay before the next episode: 1000 / speed milliseconds rounded
      down, with speeds below 1 treated as 1 and at least 1 ms. */
  function ScheduleDelay(speed: real): (d: nat)
    ensures 1 <= d <= 1000
    ensures speed <= 1.0 ==> d == 1000
    ensures speed >= 1.0 ==> (d as real <= 1000.0 / speed < (d + 1) as real) || (d == 1 && 1000.0 / speed < 1.0)
  {
    var perEpisode := (1000.0 / Max(speed, 1.0)).Floor;
    assert 1000.0 / Max(speed, 1.0) <= 1000.0 by {
      RatioInUnitHelper(1000.0, Max(speed, 1.0));
    }
    if perEpisode < 1 then 1 else perEpisode
  }

  lemma RatioInUnitHelper(a: real, s: real)
    requires a >= 0.0 && s >= 1.0
    ensures a / s <= a
  {
    assert (a / s) * s == a;
    assert a / s >= 0.0;
  }

  /** Dividing by a larger positive number gives a smaller quotient. */
  lemma DivAntitone(a: real, m1: real, m2: real)
    requires a >= 0.0 && 0.0 < m1 <= m2
    ensures a / m2 <= a / m1
  {
    var x1, x2 := a / m1, a / m2;
    assert x1 * m1 == a && x2 * m2 == a;
    assert x2 >= 0.0;
    assert x2 * m1 <= x2 * m2;
  }

  /** A faster speed never lengthens the delay. */
  lemma ScheduleDelayAntitone(s1: real, s2: real)
    requires s1 <= s2
    ensures ScheduleDelay(s2) <= ScheduleDelay(s1)
  {
    DivAntitone(1000.0, Max(s1, 1.0), Max(s2, 1.0));
  }

  /** Arms the tick for the next episode; nothing but the timer changes. */
  function ScheduleNextEpisode(w: Worker): (w': Worker)
    ensures w'.timer.Some? && w'.timer.value == ScheduleDelay(w.config.speed)
    ensures w'.(timer := w.timer) == w
    ensures Steady(w) ==> Steady(w') && (w.isRunning ==> Inv(w'))
  {
    w.(timer := Some(ScheduleDelay(w.config.speed)))
  }

  /** The status an episode reports. */
  function EpisodeEntry(episode: nat, o: EpisodeOutcome): EpisodeResult {
    EpisodeResult(episode, o.steps, o.totalReward, o.status)
  }

  /** Counts a trained episode and buffers its result and route. */
  function RecordEpisode(w: Worker, o: EpisodeOutcome): Worker {
    var episode := w.currentEpisode + 1;
    w.(agent := Some(o.agent), env := Some(o.env), currentEpisode := episode,
       batchStats := w.batchStats + [EpisodeEntry(episode, o)],
       batchRoutes := w.batchRoutes + [RouteHistoryEntry(o.path, o.totalReward)],
       lastPath := o.path, resources := o.resources)
  }

  /** After an episode is recorded: flush when the batch is full or the
      limit is reached; at the limit stop, otherwise schedule the next. */
  function AfterEpisode(w: Worker): Effect {
    var reachedEpisodeLimit := w.currentEpisode >= w.config.episodes;
    var flushed :=
      if |w.batchStats| as real >= w.batchSize || reachedEpisodeLimit then
        FlushBatch(w, if reachedEpisodeLimit then Complete else Running)
      else Effect(w, []);
    if reachedEpisodeLimit then Effect(flushed.w.(isRunning := false, timer := None), flushed.out)
    else if flushed.w.isRunning then Effect(ScheduleNextEpisode(flushed.w), flushed.out)
    else flushed
  }

  /** One episode run by the timer: nothing unless running with an
      environment and agent; at the limit stop and flush COMPLETE;
      otherwise train one episode, count it, buffer its result and route,
      and flush or reschedule. */
  function RunEpisode(w: Worker, draws: nat -> Draw): (e: Effect)
    requires w.env.Some? ==> Valid(w.env.value)
  {
    if !w.isRunning || w.env.None? || w.agent.None? then Effect(w, [])
    else if w.currentEpisode >= w.config.episodes then
      FlushBatch(w.(isRunning := false), Complete)
    else
      AfterEpisode(RecordEpisode(w, TrainEpisode(w.agent.value, w.env.value, draws)))
  }

  /** The batch size a start command asks for: 0, a missing value and
      negatives fall back to the default. */
  function EffectiveBatchSize(incoming: Option<real>): (b: real)
    ensures b > 0.0
    ensures incoming.Some? && incoming.value > 0.0 ==> b == incoming.value
    ensures incoming.None? || incoming.value <= 0.0 ==> b == DefaultBatchSize
  {
    var b := if incoming.None? || incoming.value == 0.0 then DefaultBatchSize else incoming.value;
    if b <= 0.0 then DefaultBatchSize else b
  }

  /** Start: build the environment and agent if either is missing, take
      the batch size, and unless already running, run and schedule. */
  function StartTraining(w: Worker, incoming: Option<real>): Attempt
    requires SquareEnough(w.grid)
  {
    var built := if w.env.None? || w.agent.None? then ResetEnvironment(w) else Ok(w);
    match built
    case Err(cause) => Threw(w, cause)
    case Ok(w1) =>
      var w2 := w1.(batchSize := EffectiveBatchSize(incoming));
      if w2.isRunning then Done(w2, [])
      else Done(ScheduleNextEpisode(w2.(isRunning := true)), [])
  }

  /** Pause: stop, cancel the pending tick, and post the batch as PAUSED. */
  function PauseTraining(w: Worker): Effect {
    FlushBatch(w.(isRunning := false, timer := None), Paused)
  }

  /** The command handlers. */
  function ApplyCommand(w: Worker, cmd: Command): Attempt
    requires SquareEnough(w.grid)
    requires cmd.ResetCmd? ==> SquareEnough(cmd.grid)
  {
    match cmd
    case ResetCmd(grid, config) =>
      var w1 := w.(timer := None, isRunning := false, grid := grid, config := config);
      (match ResetEnvironment(w1)
       case Err(cause) => Threw(w1, cause)
       case Ok(w2) => Done(w2, []))
    case SetConfigCmd(config) =>
      var agent := if w.agent.Some? then SetConfig(w.agent.value, config) else NewAgent(config);
      var w1 := w.(config := config, agent := Some(agent));
      (match NewEnv(w1.grid, config)
       case Err(cause) => Threw(w1, cause)
       case Ok(env) => Done(w1.(env := Some(env), resources := InitialResources(config)), []))
    case StartCmd(batchSize) => StartTraining(w, batchSize)
    case PauseCmd =>
      var e := PauseTraining(w);
      Done(e.w, e.out)
    case UnknownCmd(tag) => Done(w, [ErrorResponse(UnknownCommand(tag))])
  }

  /** A message to the worker: a thrown construction error becomes one
      ERROR response, and the state keeps what the handler changed first. */
  function OnMessage(w: Worker, cmd: Command): Effect
    requires SquareEnough(w.grid)
    requires cmd.ResetCmd? ==> SquareEnough(cmd.grid)
  {
    match ApplyCommand(w, cmd)
    case Done(w', out) => Effect(w', out)
    case Threw(w', cause) => Effect(w', [ErrorResponse(EnvConstruction(cause))])
  }

  /** The pending timer fires: it is no longer pending, and the episode
      runs. A tick with nothing pending does nothing. */
  function Tick(w: Worker, draws: nat -> Draw): Effect
    requires w.env.Some? ==> Valid(w.env.value)
  {
    if w.timer.None? then Effect(w, []) else RunEpisode(w.(timer := None), draws)
  }
  // ------------------------------------------------------------ episodes

  /** After an episode, at the limit: the batch goes out as COMPLETE, and
      the worker stops with no tick pending. Below it: a full batch goes
      out as RUNNING, a partial one stays buffered, and the next tick is
      armed with the configured delay. The counter, environment and agent
      are not touched. */
  lemma AfterEpisodeFacts(w: Worker)
    requires w.isRunning && w.agent.Some? && w.batchSize > 0.0 && w.batchStats != []
    ensures var e := AfterEpisode(w);
      && e.w.currentEpisode == w.currentEpisode && e.w.env == w.env && e.w.agent == w.agent
      && e.w.lastPath == w.lastPath && e.w.resources == w.resources && e.w.config == w.config
      && e.w.grid == w.grid && e.w.batchSize == w.batchSize
    ensures var e := AfterEpisode(w);
      w.currentEpisode >= w.config.episodes ==>
        && e.out == [BatchUpdate(Payload(w, Complete))]
        && !e.w.isRunning && e.w.timer.None? && e.w.batchStats == [] && e.w.batchRoutes == []
    ensures var e := AfterEpisode(w);
      w.currentEpisode < w.config.episodes ==>
        && e.w.isRunning && e.w.timer == Some(ScheduleDelay(w.config.speed))
        && (|w.batchStats| as real >= w.batchSize ==>
              e.out == [BatchUpdate(Payload(w, Running))] && e.w.batchStats == [] && e.w.batchRoutes == [])
        && (|w.batchStats| as real < w.batchSize ==>
              e.out == [] && e.w.batchStats == w.batchStats && e.w.batchRoutes == w.batchRoutes)
  {
  }

  /** A tick while stopped, or without an environment or agent, does nothing. */
  lemma RunEpisodeIdle(w: Worker, draws: nat -> Draw)
    requires w.env.Some? ==> Valid(w.env.value)
    requires !w.isRunning || w.env.None? || w.agent.None?
    ensures RunEpisode(w, draws) == Effect(w, [])
  {
  }

  /** A tick once the limit is reached trains nothing: it stops, and posts
      the buffered batch as COMPLETE. */
  lemma RunEpisodeAtLimit(w: Worker, draws: nat -> Draw)
    requires Steady(w) && w.isRunning && w.currentEpisode >= w.config.episodes
    ensures var e := RunEpisode(w, draws);
      && e.out == [BatchUpdate(Payload(w, Complete))]
      && !e.w.isRunning && e.w.currentEpisode == w.currentEpisode
      && e.w.batchStats == [] && e.w.batchRoutes == [] && e.w.agent == w.agent
  {
  }

  /** Recording an episode's outcome and then deciding what follows. */
  lemma RecordThenAfter(w: Worker, o: EpisodeOutcome)
    requires Steady(w) && w.isRunning && w.currentEpisode < w.config.episodes
    ensures var e := AfterEpisode(RecordEpisode(w, o));
      var stats := w.batchStats + [EpisodeResult(w.currentEpisode + 1, o.steps, o.totalReward, o.status)];
      var routes := w.batchRoutes + [RouteHistoryEntry(o.path, o.totalReward)];
      && e.w.currentEpisode == w.currentEpisode + 1
      && e.w.agent == Some(o.agent) && e.w.env == Some(o.env)
      && e.w.lastPath == o.path && e.w.resources == o.resources
      && (e.out == [] ==> e.w.batchStats == stats && e.w.batchRoutes == routes)
      && (e.out != [] ==> e.w.batchStats == [] && |e.out| == 1 && e.out[0].BatchUpdate?
                          && e.out[0].payload.stats == stats && e.out[0].payload.routes == routes)
      && (e.w.isRunning <==> w.currentEpisode + 1 < w.config.episodes)
  {
    AfterEpisodeFacts(RecordEpisode(w, o));
  }

  /** A tick below the limit trains exactly one episode: the counter goes
      up by one, the agent and environment are the trained ones, and the
      episode's result and route are the last entries of the batch, which
      is either still buffered or is the one message posted. */
  lemma RunEpisodeTrains(w: Worker, draws: nat -> Draw)
    requires Steady(w) && w.isRunning && w.currentEpisode < w.config.episodes
    ensures var o := TrainEpisode(w.agent.value, w.env.value, draws);
      var e := RunEpisode(w, draws);
      var stats := w.batchStats + [EpisodeResult(w.currentEpisode + 1, o.steps, o.totalReward, o.status)];
      var routes := w.batchRoutes + [RouteHistoryEntry(o.path, o.totalReward)];
      && e.w.currentEpisode == w.currentEpisode + 1
      && e.w.agent == Some(o.agent) && e.w.env == Some(o.env)
      && e.w.lastPath == o.path && e.w.resources == o.resources
      && (e.out == [] ==> e.w.batchStats == stats && e.w.batchRoutes == routes)
      && (e.out != [] ==> e.w.batchStats == [] && |e.out| == 1 && e.out[0].BatchUpdate?
                          && e.out[0].payload.stats == stats && e.out[0].payload.routes == routes)
      && (e.w.isRunning <==> w.currentEpisode + 1 < w.config.episodes)
  {
    var o := TrainEpisode(w.agent.value, w.env.value, draws);
    assert RunEpisode(w, draws) == AfterEpisode(RecordEpisode(w, o));
    RecordThenAfter(w, o);
  }

  /** Whatever a tick does, no batch of the size asked for stays buffered
      while training continues. */
  lemma RunEpisodeBatchBound(w: Worker, draws: nat -> Draw)
    requires Steady(w) && w.isRunning && w.currentEpisode < w.config.episodes
    ensures var e := RunEpisode(w, draws);
      e.w.isRunning ==> (|e.w.batchStats| as real) < e.w.batchSize
  {
    var o := TrainEpisode(w.agent.value, w.env.value, draws);
    assert RunEpisode(w, draws) == AfterEpisode(RecordEpisode(w, o));
    AfterRecordBatchBound(w, o);
  }

  lemma AfterRecordBatchBound(w: Worker, o: EpisodeOutcome)
    requires Steady(w) && w.isRunning
    ensures var e := AfterEpisode(RecordEpisode(w, o));
      e.w.isRunning ==> (|e.w.batchStats| as real) < e.w.batchSize
  {
    AfterEpisodeFacts(RecordEpisode(w, o));
  }

  /** Recording a trained episode keeps everything but the timer in
      order: the new result is numbered with the new counter. */
  lemma RecordKeepsSteady(w: Worker, o: EpisodeOutcome)
    requires Steady(w) && w.agent.Some? && Valid(o.env)
    ensures Steady(RecordEpisode(w, o)) && RecordEpisode(w, o).batchStats != []
  {
    var w1 := RecordEpisode(w, o);
    forall i | 0 <= i < |w1.batchStats|
      ensures w1.batchStats[i].episode == w1.currentEpisode - |w1.batchStats| + 1 + i
    {
      if i < |w.batchStats| {
        assert w1.batchStats[i] == w.batchStats[i];
      }
    }
  }

  lemma AfterEpisodeKeepsInv(w: Worker, o: EpisodeOutcome)
    requires Steady(w) && w.isRunning && w.agent.Some? && Valid(o.env)
    ensures Inv(AfterEpisode(RecordEpisode(w, o)).w)
  {
    RecordKeepsSteady(w, o);
    AfterEpisodeFacts(RecordEpisode(w, o));
  }

  /** Episodes keep the invariant: the buffered results stay numbered
      consecutively up to the counter, and a tick is pending exactly while
      training runs. */
  lemma RunEpisodeKeepsInv(w: Worker, draws: nat -> Draw)
    requires Steady(w) && w.timer.None?
    ensures Inv(RunEpisode(w, draws).w)
  {
    if !w.isRunning {
      assert RunEpisode(w, draws) == Effect(w, []);
    } else if w.currentEpisode >= w.config.episodes {
      FlushKeepsInv(w.(isRunning := false), Complete);
    } else {
      TrainedEpisodeKeepsInv(w, draws);
    }
  }

  /** A tick that trains an episode keeps the invariant. */
  lemma TrainedEpisodeKeepsInv(w: Worker, draws: nat -> Draw)
    requires Steady(w) && w.isRunning && w.currentEpisode < w.config.episodes
    ensures Inv(RunEpisode(w, draws).w)
  {
    var o := TrainEpisode(w.agent.value, w.env.value, draws);
    TrainEpisodeValid(w.agent.value, w.env.value, draws);
    assert RunEpisode(w, draws) == AfterEpisode(RecordEpisode(w, o));
    AfterEpisodeKeepsInv(w, o);
  }

  /** A tick consumes the pending timer; without one nothing happens. */
  lemma TickFacts(w: Worker, draws: nat -> Draw)
    requires w.env.Some? ==> Valid(w.env.value)
    ensures w.timer.None? ==> Tick(w, draws) == Effect(w, [])
    ensures w.timer.Some? ==> Tick(w, draws) == RunEpisode(w.(timer := None), draws)
  {
  }

  lemma TickKeepsInv(w: Worker, draws: nat -> Draw)
    requires Inv(w)
    ensures Inv(Tick(w, draws).w)
  {
    if w.timer.Some? {
      RunEpisodeKeepsInv(w.(timer := None), draws);
    }
  }

  /** The counter never passes the episode limit it is checked against:
      a tick raises it by one at most, and only from below the limit. */
  lemma TickNeverOvershoots(w: Worker, draws: nat -> Draw)
    requires Inv(w)
    ensures var c := Tick(w, draws).w.currentEpisode;
      c == w.currentEpisode || (c == w.currentEpisode + 1 && c <= w.config.episodes)
  {
    var w0 := w.(timer := None);
    if w.timer.Some? && w0.isRunning && w0.currentEpisode < w0.config.episodes {
      RunEpisodeTrains(w0, draws);
    }
  }
  // ------------------------------------------------------------ commands

  /** RESET stops training and installs the grid and configuration; a
      fresh environment and agent follow when the grid has a start and a
      goal. Otherwise the construction error is reported, and the stopped
      worker keeps its previous environment, agent and buffers. */
  lemma ResetCommand(w: Worker, grid: Grid, config: Config)
    requires SquareEnough(w.grid) && SquareEnough(grid)
    ensures var a := ApplyCommand(w, ResetCmd(grid, config));
      && a.w.grid == grid && a.w.config == config && !a.w.isRunning && a.w.timer.None?
      && (a.Done? <==> NewEnv(grid, config).Ok?)
    ensures var a := ApplyCommand(w, ResetCmd(grid, config));
      a.Done? ==>
        && a.out == [] && a.w.env == Some(NewEnv(grid, config).value) && a.w.agent == Some(NewAgent(config))
        && a.w.currentEpisode == 0 && a.w.batchStats == [] && a.w.batchRoutes == []
        && a.w.lastPath == [NewEnv(grid, config).value.start] && a.w.resources == InitialResources(config)
    ensures var a := ApplyCommand(w, ResetCmd(grid, config));
      a.Threw? ==>
        && a.cause == NewEnv(grid, config).error
        && a.w.env == w.env && a.w.agent == w.agent && a.w.currentEpisode == w.currentEpisode
        && a.w.batchStats == w.batchStats && a.w.batchRoutes == w.batchRoutes
  {
  }

  /** SET_CONFIG installs the configuration into the agent, keeping what
      it has learned (or creates one), then rebuilds the environment on the
      current grid and resets the resources. The counter, the buffers and
      the running state are kept; a failed rebuild keeps the old
      environment. */
  lemma SetConfigCommand(w: Worker, config: Config)
    requires SquareEnough(w.grid)
    ensures var a := ApplyCommand(w, SetConfigCmd(config));
      && a.w.config == config && a.w.agent.Some? && a.w.agent.value.config == config
      && a.w.agent.value.qTable == (if w.agent.Some? then w.agent.value.qTable else map[])
      && a.w.agent.value.epsilon
           == (if w.agent.Some? && w.agent.value.config.epsilon == config.epsilon then w.agent.value.epsilon
               else config.epsilon)
      && a.w.currentEpisode == w.currentEpisode && a.w.isRunning == w.isRunning && a.w.timer == w.timer
      && a.w.batchStats == w.batchStats && a.w.batchRoutes == w.batchRoutes && a.w.grid == w.grid
      && (a.Done? <==> NewEnv(w.grid, config).Ok?)
    ensures var a := ApplyCommand(w, SetConfigCmd(config));
      a.Done? ==> a.out == [] && a.w.env == Some(NewEnv(w.grid, config).value)
                  && a.w.resources == InitialResources(config)
    ensures var a := ApplyCommand(w, SetConfigCmd(config));
      a.Threw? ==> a.cause == NewEnv(w.grid, config).error && a.w.env == w.env && a.w.resources == w.resources
  {
  }

  /** START builds what is missing, takes the batch size, and starts the
      ticks; a second START while running only changes the batch size.
      When the missing environment cannot be built, nothing changes. */
  lemma StartCommand(w: Worker, batchSize: Option<real>)
    requires Inv(w)
    ensures var a := ApplyCommand(w, StartCmd(batchSize));
      a.Done? ==> && a.out == [] && a.w.isRunning && a.w.env.Some? && a.w.agent.Some?
                  && a.w.batchSize == EffectiveBatchSize(batchSize)
    ensures var a := ApplyCommand(w, StartCmd(batchSize));
      w.isRunning ==> a == Done(w.(batchSize := EffectiveBatchSize(batchSize)), [])
    ensures var a := ApplyCommand(w, StartCmd(batchSize));
      !w.isRunning && a.Done? ==> a.w.timer == Some(ScheduleDelay(a.w.config.speed))
    ensures var a := ApplyCommand(w, StartCmd(batchSize));
      w.env.Some? && w.agent.Some? ==>
        a.Done? && a.w.env == w.env && a.w.agent == w.agent && a.w.currentEpisode == w.currentEpisode
    ensures var a := ApplyCommand(w, StartCmd(batchSize));
      a.Threw? <==> (w.env.None? || w.agent.None?) && NewEnv(w.grid, w.config).Err?
    ensures var a := ApplyCommand(w, StartCmd(batchSize));
      a.Threw? ==> a.w == w && a.cause == NewEnv(w.grid, w.config).error
  {
  }

  /** PAUSE stops training and cancels the pending tick; with an agent it
      always posts the buffered batch, even an empty one, as PAUSED. */
  lemma PauseCommand(w: Worker)
    requires SquareEnough(w.grid)
    ensures var a := ApplyCommand(w, PauseCmd);
      && a.Done? && !a.w.isRunning && a.w.timer.None?
      && a.w.currentEpisode == w.currentEpisode && a.w.agent == w.agent && a.w.env == w.env
    ensures var a := ApplyCommand(w, PauseCmd);
      w.agent.Some? ==>
        && a.out == [BatchUpdate(Payload(w.(isRunning := false, timer := None), Paused))]
        && a.w.batchStats == [] && a.w.batchRoutes == []
    ensures var a := ApplyCommand(w, PauseCmd);
      w.agent.None? ==> a.out == [] && a.w.batchStats == w.batchStats
  {
  }

  /** A command of unknown type changes nothing and posts one error. */
  lemma UnknownCommandReported(w: Worker, tag: string)
    requires SquareEnough(w.grid)
    ensures OnMessage(w, UnknownCmd(tag)) == Effect(w, [ErrorResponse(UnknownCommand(tag))])
  {
  }

  /** Every message posts at most one response; a construction failure
      posts exactly the one error naming it. */
  lemma OnMessageResponds(w: Worker, cmd: Command)
    requires SquareEnough(w.grid)
    requires cmd.ResetCmd? ==> SquareEnough(cmd.grid)
    ensures |OnMessage(w, cmd).out| <= 1
    ensures ApplyCommand(w, cmd).Threw? ==>
              OnMessage(w, cmd).out == [ErrorResponse(EnvConstruction(ApplyCommand(w, cmd).cause))]
  {
  }

  /** Every message keeps the invariant. */
  lemma OnMessageKeepsInv(w: Worker, cmd: Command)
    requires Inv(w)
    requires cmd.ResetCmd? ==> SquareEnough(cmd.grid)
    ensures Inv(OnMessage(w, cmd).w)
  {
    assert OnMessage(w, cmd).w == ApplyCommand(w, cmd).w;
    match cmd
    case ResetCmd(grid, config) => ResetKeepsInv(w, grid, config);
    case SetConfigCmd(config) => SetConfigKeepsInv(w, config);
    case StartCmd(b) => StartKeepsInv(w, b);
    case PauseCmd => FlushKeepsInv(w.(isRunning := false, timer := None), Paused);
    case UnknownCmd(_) =>
  }

  lemma ResetKeepsInv(w: Worker, grid: Grid, config: Config)
    requires Inv(w) && SquareEnough(grid)
    ensures Inv(ApplyCommand(w, ResetCmd(grid, config)).w)
  {
    ResetCommand(w, grid, config);
  }

  lemma SetConfigKeepsInv(w: Worker, config: Config)
    requires Inv(w)
    ensures Inv(ApplyCommand(w, SetConfigCmd(config)).w)
  {
    SetConfigCommand(w, config);
  }

  lemma StartKeepsInv(w: Worker, batchSize: Option<real>)
    requires Inv(w)
    ensures Inv(ApplyCommand(w, StartCmd(batchSize)).w)
  {
    StartCommand(w, batchSize);
  }
}
