# Bedtime grid world: a Dafny model of the learning sandbox core

The model covers the core of the "George" reinforcement-learning sandbox.
A kid walks a 9 × 9 grid from home (`KID`) to the ice cream (`ICE_CREAM`).
Each move costs time before bedtime and energy. Chores gate the goal. Fun
spots (TV, friends, playground) pay out fun but cost time and restore
energy. A tabular Q-learning agent learns the walk. A training worker drives
episodes in batches, and two heatmaps summarise what was learnt.

One Dafny module per source file:

| module | file | what it holds |
|---|---|---|
| `Types` | `types.dfy` | tiles, actions, positions, configuration, episode and route records |
| `Constants` | `constants.dfy` | action offsets and order, tile/distraction tables, chore tile set, built-in world, default configuration, initial-grid construction |
| `Env` | `env.dfy` | `GridWorldEnv` as an immutable record: construction, `Reset`, the observation, the `Step` transition |
| `StateKey` | `statekey.dfy` | the text key `row,col|mask|t…|e…|c…` that indexes the value table |
| `QLearning` | `qlearning.dfy` | the agent: ε-greedy choice, the Bellman update, one training episode, ε decay, reset and reconfiguration |
| `Heatmap` | `heatmap.dfy` | the route heatmap and the policy heatmap |
| `TrainingWorker` | `worker.dfy` | the worker's module state as one record, its command handlers, the episode tick and the batch flush |

Modelling choices:

- Rewards, time, energy, Q-values and ε are `real`. Counts are `nat`.
- The environment and agent are pure values. Each mutating method becomes a function returning the new value.
- `Math.random()` becomes a parameter. Each step receives a `Draw` of two numbers in [0, 1). The first decides whether to explore; the second picks the random action.
- The worker's `setTimeout` handle becomes `timer: Option<nat>`, which holds the delay the timer was armed with. A fired timer is the `Tick` event.
- `postMessage` becomes the list of responses each transition returns.
- A handler that throws is an `Attempt.Threw` that keeps the state changes made before the throw.
- Map keys built from positions (`"r,c"` strings) are modelled as `Pos` values. Building such a string from two integers is injective, so nothing is lost.
- `createInitialGrid` reads the world definition global. The model passes that global in as a parameter: the built-in grid is `CreateInitialGrid(World)`.

## Model

| member | source | states |
|---|---|---|
| Constants.ActionsEnumerateAll | constants.ts:63-70 | The action order lists each of the four actions exactly once, and distinct actions move in distinct directions. |
| Constants.TileToDistraction | constants.ts:90-94 | The tile-to-distraction table is defined exactly on the three distraction tiles, and there it inverts the kind-to-tile table. |
| Constants.DistractionTileRoundTrip | constants.ts:84-94 | Taking a distraction kind to its tile and back gives the same kind. |
| Constants.ChoreTileSetContents | constants.ts:106-114 | The chore set has the same members as the chore list: six tiles, none of them a distraction tile. |
| Constants.PositionMapKeys | constants.ts:96-104 | Folding (position, value) entries into a map gives exactly the entries' positions as keys. |
| Constants.PositionMapLast | constants.ts:96-104 | An entry that no later entry overwrites keeps its value in the folded map. |
| Constants.DistractionLayoutMatchesWorld | constants.ts:96-99 | The distraction layout maps every fun spot of the world, and nothing else, to that spot's kind. |
| Constants.ChorePositionsDistinct | constants.ts:19-27 | No two chores of the built-in world share a cell. |
| Constants.ChoreAssignmentsMatchWorld | constants.ts:101-104 | The chore assignments map every chore cell of the world, and nothing else, to that chore's label. |
| Constants.DefaultConfigSane | constants.ts:128-152 | The default configuration's bucket sizes are at least 1, and 0 ≤ minEpsilon ≤ epsilon. |
| Constants.WorldWellFormed | constants.ts:6-28 | The built-in world is 9 × 9. Start and goal are distinct interior cells. Every chore, fun spot and inner wall lies inside the border and avoids both, and none writes a start or goal tile. |
| Constants.PlaceAll | constants.ts:165-177 | Applying a list of placements keeps the grid's shape. A cell that no placement names keeps its tile, and a placement that no later one overwrites takes effect: the last write to a cell wins. |
| Constants.PlaceAllWrites | constants.ts:165-177 | After a placement list, each cell holds its old tile or a tile that some placement wrote to that cell. |
| Constants.CreateInitialGrid | constants.ts:154-180 | The initial grid is nine rows of nine cells. |
| Constants.InitialGridCell | constants.ts:154-180 | In the initial grid of a well-formed world, a border cell is wall. A cell holds the start tile exactly when it is the world's start, and the goal tile exactly when it is the goal. |
| Constants.InitialGridLayout | constants.ts:154-180 | The initial grid is walled all round and holds exactly one start tile and one goal tile, at the world's start and goal: no later placement overwrites them. |
| Env.FindTile | rl/env.ts:62-71 | The search returns the first cell holding the tile in row-major order, and returns nothing exactly when no cell of the square holds it. |
| Env.NewEnv | rl/env.ts:45-71 | Construction succeeds exactly when the grid has a start and a goal. The start is checked first: a grid missing both reports the start. A built environment is valid and already in its reset state, on the first start and goal cells. |
| Env.UniqueMarkersEnv | rl/env.ts:45-60 | A grid with exactly one start tile and one goal tile builds an environment that starts and ends on them. |
| Env.InitialEnvironment | rl/env.ts:45-60 | The initial grid of a well-formed world always builds an environment whose start and goal are the world's. |
| Env.Reset | rl/env.ts:91-100 | A reset gives a valid environment in its reset state and keeps the grid, configuration, start and goal. |
| Env.ResetResources | rl/env.ts:81-100 | After a reset the resources are the configured time and energy, with no chores and no distractions, and only the start has been visited. |
| Env.NeighborOffsetsFollowActions | rl/env.ts:9-14 | Mask bit i looks at the neighbour that action i of the action order moves to. |
| Env.VisitMaskBits | rl/env.ts:102-109 | The visit mask is below 16, and bit i is set exactly when neighbour i has been visited this episode. |
| Env.Bucket | rl/env.ts:111-113 | A non-positive value falls in bucket 0. A positive value falls in the ceiling of value ÷ max(size, 1). |
| Env.BucketMonotone | rl/env.ts:111-113 | A larger value never falls in a lower bucket. |
| Env.ApplyResourceFailure | rl/env.ts:124-144 | There is no failure exactly when time and energy are both positive. Otherwise running out of time fails first, with the bedtime reward if configured, then running out of energy, with the meltdown reward if configured; each falls back to the generic failure reward. |
| Env.GetDistractionKey | rl/env.ts:146-152 | The kind of a fun tile is the layout entry for its cell if there is one, then the kind the tile shows, then the default kind. |
| Env.Step | rl/env.ts:163-242 | A step keeps grid, configuration, start and goal. It moves to the target cell unless that is off-grid or wall. It is done exactly when it is not in progress, and it reports the new position. Success needs a reachable goal tile and a kid allowed to celebrate. Every other outcome is the resource check on the new state. |
| Env.BlockedMove | rl/env.ts:170-186 | A move into a wall or off the grid stays put and pays only the move costs. Chores and distractions are unchanged, and the reward is the step reward unless a resource runs out. |
| Env.DistractionFirstVisit | rl/env.ts:196-204 | The first visit to a fun tile pays the scaled fun reward and costs its kind's time penalty. It boosts energy up to the configured maximum and records the distraction. The kid moves onto the cell, whose visit count becomes 1, and the chores are unchanged. |
| Env.DistractionRevisit | rl/env.ts:205-207 | A revisited fun tile costs the revisit penalty and changes neither time beyond the move cost nor the distraction set. The kid moves onto the cell, its visit count rises by one, and the chores are unchanged. |
| Env.ChoreFirstCompletion | rl/env.ts:208-218 | A first chore completion counts the chore once and earns the chore reward and time bonus. Its energy cost is paid. |
| Env.ChoreRepeat | rl/env.ts:208-218 | Repeating a chore leaves the chore count unchanged. It costs the revisit penalty and still pays the chore's energy cost. |
| Env.GoalSuccess | rl/env.ts:220-226 | Reaching the goal with enough chores, time left and energy left succeeds. The reward is the goal reward plus the bonus per distraction, and the step reward is not added. |
| Env.GoalTooEarly | rl/env.ts:220-229 | Reaching the goal before enough chores never succeeds. It costs the early-goal penalty while resources last. |
| Env.PlainTile | rl/env.ts:230-234 | Entering any other tile costs only the step reward on a first visit, and adds the revisit penalty otherwise. |
| Env.FailureRule | rl/env.ts:238-241 | Any step that does not succeed is in progress exactly when time and energy are positive. Otherwise it fails with the bedtime reward, or else the meltdown reward. |
| Env.EnergyCapped | rl/env.ts:201-203 | With non-negative costs, a step never raises energy above the configured maximum. |
| Env.StepPreservesValid | rl/env.ts:163-242 | A step keeps the environment valid. The chore and distraction sets only grow, and by at most one cell each. |
| Env.ResetForgetsStep | rl/env.ts:91-100 | Resetting after any step gives the same state as resetting before it. |
| StateKey.NatRoundTrip | rl/qlearning.ts:6-9 | Reading back a natural number's decimal numeral gives the number. |
| StateKey.IntToStringInjective | rl/qlearning.ts:6-9 | Distinct integers, negatives included, get distinct numerals. |
| StateKey.StateToStringInjective | rl/qlearning.ts:6-9 | Two observations with the same key are equal in every field, so distinct observations never share a table row. |
| StateKey.MaskSeparatesKeys | rl/qlearning.ts:6-9 | Changing only the visit mask changes the key. |
| QLearning.NewAgent | rl/qlearning.ts:12-21 | A new agent has learnt nothing: no observation has a table row, every value reads 0, and ε starts at the configured ε. |
| QLearning.GetQValue | rl/qlearning.ts:23-26 | A lookup gives 0 when the observation has no row, 0 when the row lacks the action, and the stored value otherwise. |
| QLearning.GreedyAction | rl/qlearning.ts:32-44 | The greedy action's value (0 when unrecorded) is at least every other action's. Every action earlier in the action order has a strictly smaller value, so ties go to the first. |
| QLearning.RandomIndexQuarters | rl/qlearning.ts:30 | A draw picks action i exactly when it falls in [i/4, (i+1)/4). |
| QLearning.ChooseAction | rl/qlearning.ts:28-46 | A draw below the current ε explores with the uniformly picked action. Any other draw gives a greedy action, first in action order among the best. |
| QLearning.ZeroEpsilonIsGreedy | rl/qlearning.ts:28-46 | With ε at or below 0 the choice is always the greedy action. |
| QLearning.MaxRecordedAttained | rl/qlearning.ts:52-58 | The maximum over an action list is absent exactly when no listed action has a value. Otherwise it bounds every recorded value and is one of them. |
| QLearning.MaxNextQ | rl/qlearning.ts:51-58 | The next state's best value is 0 for an unseen or empty row. Otherwise it is the largest recorded value of that row. |
| QLearning.BellmanBetween | rl/qlearning.ts:60 | With a learning rate in [0, 1] the new value lies between the old value and the target. Rate 1 jumps to the target and rate 0 keeps the old value. |
| QLearning.UpdateQValue | rl/qlearning.ts:48-67 | The update stores oldQ + α·(reward + γ·maxNextQ − oldQ) for the state and action. It adds the state's row if missing and keeps configuration and ε. |
| QLearning.UpdateFrame | rl/qlearning.ts:62-66 | Only the updated entry changes. Other rows are untouched, and in its own row every other action keeps its value and its presence. |
| QLearning.UpdateLeavesOtherStates | rl/qlearning.ts:62-66 | The value of any other observation is unchanged by an update. |
| QLearning.RecordExtend | rl/qlearning.ts:84-91 | Appending a step keeps the episode record consistent: the path grows by the new position, the total by the reward, and the status is set once the episode is done. |
| QLearning.Advance | rl/qlearning.ts:78-91 | One loop body chooses an action with the step's draw, steps the environment with it, and records that step's result. The table becomes the Bellman update of the chosen action from the step's reward and next observation. The record stays consistent and ε is kept. |
| QLearning.TrajectorySteps | rl/qlearning.ts:77-92 | Consecutive snapshots of the reference trajectory are one loop body apart: choose, step, update. Every snapshot keeps the starting grid. |
| QLearning.TrajectoryUpdates | rl/qlearning.ts:48-67 | Body j of the trajectory stores the Bellman value of the action it chose, from the step's reward and next observation, and leaves every other value of every observation unchanged. |
| QLearning.LoopFollowsTrajectory | rl/qlearning.ts:77-92 | The loop keeps the steps already recorded. Each of its further steps is the result of the matching body of the reference trajectory on that step's draw, and it ends in the trajectory's snapshot after as many bodies as it ran. |
| QLearning.LoopFromStart | rl/qlearning.ts:77-92 | From a run with no steps, step j of the loop is the step result of body j of the trajectory on draw j, and the final agent, environment and observation are the trajectory's last snapshot. |
| QLearning.Loop | rl/qlearning.ts:77-92 | The step loop stops only when the episode is done or the hard cap is reached. It never passes the cap, only adds table rows, and keeps the environment's static parts. |
| QLearning.LoopPreservesValid | rl/qlearning.ts:77-92 | The step loop keeps the environment valid. |
| QLearning.Play | rl/qlearning.ts:70-92 | An episode starts from a reset at the start cell. It ends at the hard cap, or done on a terminal last step, with a valid environment. |
| QLearning.TrainEpisode | rl/qlearning.ts:69-98 | A training episode keeps the grid, configuration, start and goal, and never passes the hard cap. ε decays once, the table only gains rows, and the reported resources and remaining time are the final environment's. |
| QLearning.TrainEpisodeValid | rl/qlearning.ts:69-98 | A training episode leaves the environment valid. |
| QLearning.TrainEpisodeRecord | rl/qlearning.ts:70-91 | The reported record is consistent: the path starts at home with one cell per step, and the total reward and status agree with the steps' results. |
| QLearning.TrainEpisodeStopped | rl/qlearning.ts:77-92 | An episode shorter than the hard cap ended on a terminal step. |
| QLearning.TrainEpisodeSucceeded | rl/qlearning.ts:89-91 | An episode reported as succeeded ended on an ice cream cell of the grid. |
| QLearning.TrainEpisodeFollowsTrajectory | rl/qlearning.ts:69-97 | From the reset environment, step j of the episode is the step result of body j of the reference trajectory on draw j. The episode ends with that trajectory's environment and table after its last body, and ε decayed once. |
| QLearning.DecayEpsilon | rl/qlearning.ts:95 | Decay never takes ε below the configured minimum. |
| QLearning.DecayEpsilonBounds | rl/qlearning.ts:95 | With a decay factor in [0, 1], decay never raises an ε already at or above the minimum. |
| QLearning.ResetAgent | rl/qlearning.ts:104-107 | A reset forgets every value, so all read 0 and the greedy choice is the first action, and it restores the configured ε. |
| QLearning.SetConfig | rl/qlearning.ts:109-115 | Reconfiguring keeps the table. It resets ε only when the configured ε changes. |
| QLearning.SetConfigIdempotent | rl/qlearning.ts:109-115 | Setting the same configuration twice is the same as setting it once, and setting the current one changes nothing. |
| Heatmap.BandForRatio | viz/heatmap.ts:20-21 | The band is high exactly above 0.66, medium exactly in (0.33, 0.66], and low otherwise. |
| Heatmap.BandMonotone | viz/heatmap.ts:20-21 | A larger ratio never gets a lower band. |
| Heatmap.RouteWeight | viz/heatmap.ts:38-40 | A route's weight is always positive. It is three times a reward of at least 0.1, 0.3 for a smaller positive reward, and 0.1 for a non-positive one. |
| Heatmap.AddRoute | viz/heatmap.ts:36-43 | One route adds its weight exactly once to each distinct cell on it, and creates cells it reaches first. |
| Heatmap.CellScorePositive | viz/heatmap.ts:35-44 | A cell's score is never negative, and it is positive when some counted route passes through the cell. |
| Heatmap.AccumulateMatchesReference | viz/heatmap.ts:35-44 | The scores the loop accumulates cover exactly the cells some route visits. Each equals the sum of the weights of the routes through that cell. |
| Heatmap.Recent | viz/heatmap.ts:29-32 | The counted routes are a prefix of the history. A non-negative limit m keeps min(m, length) routes; a negative limit −m drops the last m, as a slice from 0 does. |
| Heatmap.ComputeRouteHeatmap | viz/heatmap.ts:29-56 | There is no heatmap exactly when the history is empty. Otherwise the heatmap is size × size. |
| Heatmap.RouteHeatmapCells | viz/heatmap.ts:29-56 | A heatmap cell is filled exactly when one of the counted routes passes through it, and its score is that cell's positive route-weight sum. |
| Heatmap.MaxScoreFacts | viz/heatmap.ts:46 | The normalising maximum bounds every score and, when any cell is scored, is a positive score of a cell in the grid. |
| Heatmap.RouteHeatmapTopIsHigh | viz/heatmap.ts:46-53 | The strongest cell of the heatmap is always in the high band. |
| Heatmap.FirstMax | viz/heatmap.ts:94-102 | The best action of a value row is absent exactly when the row is empty. Otherwise it has the largest value and comes first in action order among equal values. |
| Heatmap.AggregateMatchesReference | viz/heatmap.ts:86-112 | Aggregation keeps a cell for exactly the positions some entry yields. It counts those entries and sums their best values. |
| Heatmap.ComputePolicyHeatmap | viz/heatmap.ts:68-149 | There is no policy heatmap exactly when there is no table or no entry contributes. Otherwise it is size × size. |
| Heatmap.PolicyHeatmapCells | viz/heatmap.ts:114-146 | When some entry contributes, the heatmap exists. A policy cell is filled exactly when some entry falls on it. Its count is the number of such entries, and its value is their average best value. Its normalised value lies in [0, 1] and picks the band. |
| Heatmap.NormalizedInUnit | viz/heatmap.ts:117-127 | Min/max normalisation puts every average in [0, 1], including when all averages are equal. |
| TrainingWorker.InitialWorker | workers/trainingWorker.ts:20-31 | The worker as loaded satisfies the invariant and is idle, with no environment and no agent. |
| TrainingWorker.InitialWorkerInv | workers/trainingWorker.ts:20-31 | The worker's grid as loaded always builds an environment, and that environment starts on the world's start. |
| TrainingWorker.InitialResourcesMatchReset | workers/trainingWorker.ts:12-18 | The resources the worker starts with are those of a freshly reset environment under the same configuration. |
| TrainingWorker.ResetEnvironment | workers/trainingWorker.ts:42-50 | Rebuilding succeeds exactly when the environment can be built. It installs a fresh agent and restarts the episode count and the buffers. `lastPath` is the start and the resources are reset. A failed rebuild reports the construction error. |
| TrainingWorker.FlushBatch | workers/trainingWorker.ts:52-74 | A flush posts at most one update. Without an agent, or with nothing buffered while running, it does nothing. Otherwise it posts the buffers with the state and clears them. |
| TrainingWorker.FlushKeepsInv | workers/trainingWorker.ts:52-74 | A flush keeps the worker invariant. |
| TrainingWorker.ScheduleDelay | workers/trainingWorker.ts:78 | The delay between episodes is between 1 and 1000 ms. At speed 1 or below it is 1000 ms. Above that it is the floor of 1000 ÷ speed, raised to 1 ms when that floor is 0. |
| TrainingWorker.ScheduleNextEpisode | workers/trainingWorker.ts:76-80 | Scheduling arms the timer with the delay for the configured speed and changes nothing else. It keeps the invariant of a running worker. |
| TrainingWorker.ScheduleDelayAntitone | workers/trainingWorker.ts:78 | A higher speed never gives a longer delay. |
| TrainingWorker.AfterEpisodeFacts | workers/trainingWorker.ts:108-121 | After an episode, the worker flushes COMPLETE and stops at the limit. Below it, the worker flushes RUNNING only when the batch is full, and always schedules the next episode. |
| TrainingWorker.RunEpisodeIdle | workers/trainingWorker.ts:82-85 | A tick while stopped, or with no environment or agent, changes nothing and posts nothing. |
| TrainingWorker.RunEpisodeAtLimit | workers/trainingWorker.ts:87-91 | A tick at the episode limit stops training and flushes a COMPLETE batch without training. |
| TrainingWorker.RunEpisodeTrains | workers/trainingWorker.ts:93-121 | Below the limit a tick trains one episode and numbers it with the incremented counter. It buffers its result and route, which are either still buffered or posted. It keeps running exactly while the limit is not yet reached. |
| TrainingWorker.RunEpisodeBatchBound | workers/trainingWorker.ts:108-121 | While training keeps running, the buffer always holds fewer results than the batch size. |
| TrainingWorker.RunEpisodeKeepsInv | workers/trainingWorker.ts:82-122 | An episode keeps the buffered results numbered consecutively up to the counter, and a timer is pending exactly while running. |
| TrainingWorker.TickFacts | workers/trainingWorker.ts:76-80 | A fired timer is consumed and runs the episode. Without a pending timer nothing happens. |
| TrainingWorker.TickKeepsInv | workers/trainingWorker.ts:76-122 | A timer event keeps the worker invariant. |
| TrainingWorker.TickNeverOvershoots | workers/trainingWorker.ts:82-122 | A timer event advances the episode counter by at most one and never past the configured number of episodes. |
| TrainingWorker.EffectiveBatchSize | workers/trainingWorker.ts:128-131 | The batch size in force is always positive. A positive request is taken as is; a missing, zero or negative one falls back to 10. |
| TrainingWorker.ResetCommand | workers/trainingWorker.ts:145-153 | RESET stops training and installs the new grid and configuration. It succeeds exactly when the grid builds an environment, and then restarts everything. A failed RESET keeps the old environment, agent and buffers. |
| TrainingWorker.SetConfigCommand | workers/trainingWorker.ts:154-163 | SET_CONFIG installs the configuration in the agent and keeps what the agent learnt, or creates an agent. The agent's ε is kept when the configured ε is unchanged and is reset to it otherwise, and a new agent starts at the configured ε. It rebuilds the environment and resets the resources. Counter, buffers and running state are kept, and a failed rebuild keeps the old environment. |
| TrainingWorker.StartCommand | workers/trainingWorker.ts:124-137 | START builds an environment if one is missing and sets the batch size. It starts and schedules only when training was stopped; an existing environment and agent are kept. It throws exactly when one is missing and the grid cannot build one, changing nothing. |
| TrainingWorker.PauseCommand | workers/trainingWorker.ts:139-143 | PAUSE stops training and clears the timer. If an agent exists it posts a PAUSED batch even when nothing is buffered. |
| TrainingWorker.UnknownCommandReported | workers/trainingWorker.ts:170-174 | An unknown command changes nothing and posts one error naming it. |
| TrainingWorker.OnMessageResponds | workers/trainingWorker.ts:178-187 | A message posts at most one response. A handler that throws posts exactly one error carrying the construction failure. |
| TrainingWorker.OnMessageKeepsInv | workers/trainingWorker.ts:145-187 | Every message keeps the worker invariant. |

## Left out

- The React components, hooks, the editor and the web-worker message types are outside the core. They only feed commands in and render the responses.
- Real timers, `postMessage` and `self` are not modelled as effects. The timer is the `timer` field plus the `Tick` event, and posted messages are the returned response list.
- `Math.random()` is not modelled. Each step receives a `Draw` parameter, so choices are modelled for any sequence of draws.
- IEEE floating point is not modelled: there is no NaN, infinity or rounding. A START batch size that is missing or not a number is modelled as `None`.
- The `-Infinity` seeds of the maxima are replaced by an explicit "nothing yet" case.
- Number formatting is not modelled. `stateToString` renders integers in plain decimal; the float rendering of a non-integral number is out of scope.
- Key parsing in `computePolicyHeatmap` is not modelled. Each table entry arrives with the position its key parses to, or none when the key does not parse. An entry whose action row is empty contributes nothing, as in the source.
- The STATE response of the worker's message types is never emitted by the worker, so it is not modelled.
- `getAgentStartState`, `getRemainingSteps` and `getQTable` are plain field reads. `cloneGrid` and the constructor's grid copy are implicit, because grids are immutable values.
- The error message strings are not modelled. An unknown command is reported by its tag, and a construction failure by the missing tile.
- Env.NewEnv: requires every row to be at least as long as the number of rows (`SquareEnough`). With shorter rows the source reads `undefined` cells; that case is not modelled.
- Heatmap.ComputeRouteHeatmap: requires every cell of the counted routes to lie in the grid. In the source an off-grid row makes `heatmap[r]` undefined, so the write throws a TypeError, and an off-grid column on a valid row extends that row past the grid. Neither case is modelled.
- Heatmap.ComputePolicyHeatmap: requires every entry's position to lie in the grid, for the same reason: an off-grid row throws a TypeError, and an off-grid column extends its row.
- Heatmap.Recent: the limit is an integer. A fractional limit, which `slice` truncates, is not modelled.
- Heatmap.PolicyHeatmapCells: does not restate the cell's best action. That action is the first most frequent best action of the cell's entries, as computed by `FirstMax` over the counts.
- Heatmap.RouteHeatmapCells: states which cells are filled and their scores. The band of cells other than the strongest is stated only through `BandForRatio` of score ÷ maximum.
- Env.EnergyCapped: requires non-negative move and chore energy costs. With a negative cost the source's energy can rise above the maximum.
- TrainingWorker.TickFacts: a fired timer is consumed. The source keeps the stale handle until the next `clearTimer`, where clearing it has no effect.
- QLearning.TrainEpisode: the result also carries the step trace, which the source does not return. The trace states the consistency of steps, rewards and status, and ties each step to `Step` and the table to `UpdateQValue` through the reference trajectory (`TrainEpisodeFollowsTrajectory`). `Body` and `Outcome` leave a snapshot whose grid cannot be searched unchanged; every trajectory from a valid environment stays searchable (`TrajectoryShaped`), so that case never arises.
- The distraction table is a record over the three kinds, so the source's fallback to the default kind's entry when a kind is missing can never apply.
