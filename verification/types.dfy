/** Shared data model of the grid-world learning sandbox: tiles, actions,
    positions, the world configuration and the records that cross component
    boundaries. Numbers the program keeps as floating point are `real`;
    optional fields are `Option`. */
module Types {

  datatype Option<+T> = None | Some(value: T) {
    function GetOr(default: T): T {
      match this
      case Some(v) => v
      case None => default
    }
  }

  datatype Result<+R, +E> = Ok(value: R) | Err(error: E)

  /** Cell type of the grid. */
  datatype Tile =
    | Empty
    | Wall
    | Kid            // start / home
    | IceCream       // goal
    | TV
    | Friends
    | Playground
    | Homework
    | Chore
    | ChoreFeedDog
    | ChoreCleanRoom
    | ChoreTakeOutTrash
    | ChoreReadingPractice

  datatype Action = Up | Down | Left | Right

  /** A (row, col) position; rows and columns may leave the grid while a move
      is being tried, so they are plain integers. */
  datatype Pos = Pos(row: int, col: int)

  type Grid = seq<seq<Tile>>

  predicate InGrid(g: Grid, p: Pos) {
    0 <= p.row < |g| && 0 <= p.col < |g[p.row]|
  }

  function At(g: Grid, p: Pos): Tile
    requires InGrid(g, p)
  {
    g[p.row][p.col]
  }

  datatype DistractionKey = TVKey | FriendsKey | PlaygroundKey

  datatype DistractionTypeConfig =
    DistractionTypeConfig(name: string, funReward: real, timePenalty: real, energyBoost: real)

  /** The per-kind distraction table; a record over all three kinds, so a
      lookup never misses. */
  datatype DistractionTable =
    DistractionTable(tv: DistractionTypeConfig, friends: DistractionTypeConfig, playground: DistractionTypeConfig)
  {
    function Get(k: DistractionKey): DistractionTypeConfig {
      match k
      case TVKey => tv
      case FriendsKey => friends
      case PlaygroundKey => playground
    }
  }

  datatype RewardsConfig = RewardsConfig(
    step: real,
    distractionBonus: real,
    goal: real,
    failure: real,
    choreReward: real,
    revisitPenalty: real,
    earlyIceCreamPenalty: real,
    bedtimeFailure: Option<real>,
    meltdownFailure: Option<real>)

  datatype Config = Config(
    learningRate: real,
    discountFactor: real,
    epsilon: real,
    epsilonDecay: real,
    minEpsilon: real,
    episodes: int,
    episodeHardCap: int,
    speed: real,
    timeLimit: real,
    timeCostPerMove: real,
    choreTimeBonus: real,
    requiredChores: int,
    timeBucketSize: real,
    funRewardScale: Option<real>,
    energy: real,
    energyMoveCost: real,
    choreEnergyCost: real,
    energyBucketSize: real,
    distractionTypes: DistractionTable,
    distractionLayout: map<Pos, DistractionKey>,
    defaultDistractionType: DistractionKey,
    choreAssignments: map<Pos, string>,
    rewards: RewardsConfig)

  /** What the agent sees: position, 4-bit visited-neighbour mask (UP, DOWN,
      LEFT, RIGHT), coarse time and energy buckets, and the chore count. */
  datatype ObservedState = ObservedState(
    position: Pos,
    visitMask: nat,
    timeBucket: nat,
    energyBucket: nat,
    choresDone: nat)

  datatype ResourceSnapshot = ResourceSnapshot(
    timeRemaining: real,
    energy: real,
    choresDone: nat,
    requiredChores: int,
    funVisited: nat)

  datatype EpisodeStatus = Succeeded | Failed

  datatype EpisodeResult = EpisodeResult(episode: int, steps: nat, totalReward: real, status: EpisodeStatus)

  datatype RouteHistoryEntry = RouteHistoryEntry(path: seq<Pos>, reward: real)

  datatype TrainingState = Idle | Running | Paused | Complete

  /** Per-state action values: an action without a recorded value is absent. */
  type ActionValues = map<Action, real>

  /** The value table, keyed by the canonical string encoding of an observed state. */
  type QTable = map<string, ActionValues>
}
