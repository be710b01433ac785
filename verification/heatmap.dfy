/** The two heatmap projections: route history to a three-band score grid,
    and value table to a per-cell summary of the best action values. The
    value table arrives with each state key already reduced to its
    position, or `None` when the key names no position. */
module Heatmap {
  import opened Types
  import opened Constants
  import Env
  import QLearning

  datatype Band = Low | Medium | High

  /** Bands split the ratio at 0.33 and 0.66. */
  function BandForRatio(ratio: real): (b: Band)
    ensures b == High <==> ratio > 0.66
    ensures b == Medium <==> 0.33 < ratio <= 0.66
    ensures b == Low <==> ratio <= 0.33
  {
    if ratio > 0.66 then High else if ratio > 0.33 then Medium else Low
  }

  function BandRank(b: Band): nat {
    match b
    case Low => 0
    case Medium => 1
    case High => 2
  }

  /** A larger ratio never gets a lower band. */
  lemma BandMonotone(r1: real, r2: real)
    requires r1 <= r2
    ensures BandRank(BandForRatio(r1)) <= BandRank(BandForRatio(r2))
  {
  }

  // ------------------------------------------------------ sequences of reals

  function SeqMax(xs: seq<real>): (m: real)
    requires |xs| > 0
    ensures forall i :: 0 <= i < |xs| ==> xs[i] <= m
    ensures m in xs
    decreases |xs|
  {
    if |xs| == 1 then xs[0] else Env.Max(xs[0], SeqMax(xs[1..]))
  }

  function SeqMin(xs: seq<real>): (m: real)
    requires |xs| > 0
    ensures forall i :: 0 <= i < |xs| ==> m <= xs[i]
    ensures m in xs
    decreases |xs|
  {
    if |xs| == 1 then xs[0] else Env.Min(xs[0], SeqMin(xs[1..]))
  }

  /** A non-negative part of a positive whole is a ratio in [0, 1]. */
  lemma RatioInUnit(a: real, b: real)
    requires 0.0 <= a <= b && b > 0.0
    ensures 0.0 <= a / b <= 1.0
  {
    assert (a / b) * b == a;
  }

  // ------------------------------------------------------- route heatmap

  datatype HeatCell = HeatCell(score: real, band: Band)

  type RouteGrid = seq<seq<Option<HeatCell>>>

  /** A route's weight: its reward floored at 0.1, tripled when the reward
      is positive. Always positive. */
  function RouteWeight(reward: real): (w: real)
    ensures w > 0.0
    ensures reward >= 0.1 ==> w == 3.0 * reward
    ensures 0.0 < reward < 0.1 ==> w == 0.3
    ensures reward <= 0.0 ==> w == 0.1
  {
    var baseWeight := Env.Max(reward, 0.1);
    var successMultiplier := if reward > 0.0 then 3.0 else 1.0;
    baseWeight * successMultiplier
  }

  /** Reference score of a cell: the total weight of the routes that pass
      through it, each route counted once however often it revisits. */
  function CellScore(routes: seq<RouteHistoryEntry>, p: Pos): real
    decreases |routes|
  {
    if |routes| == 0 then 0.0
    else (if p in routes[0].path then RouteWeight(routes[0].reward) else 0.0) + CellScore(routes[1..], p)
  }

  predicate OnSomeRoute(routes: seq<RouteHistoryEntry>, p: Pos) {
    exists i :: 0 <= i < |routes| && p in routes[i].path
  }

  /** A cell on some route has a positive score. */
  lemma {:induction false} CellScorePositive(routes: seq<RouteHistoryEntry>, p: Pos)
    ensures CellScore(routes, p) >= 0.0
    ensures OnSomeRoute(routes, p) ==> CellScore(routes, p) > 0.0
    decreases |routes|
  {
    if |routes| > 0 {
      CellScorePositive(routes[1..], p);
      if OnSomeRoute(routes, p) && p !in routes[0].path {
        var i :| 0 <= i < |routes| && p in routes[i].path;
        assert routes[1..][i - 1] == routes[i];
      }
    }
  }

  function Lookup(m: map<Pos, real>, p: Pos): real {
    if p in m then m[p] else 0.0
  }

  /** Adds one route's weight once to each distinct cell on it. */
  function AddRoute(scores: map<Pos, real>, route: RouteHistoryEntry): (s': map<Pos, real>)
    ensures s'.Keys == scores.Keys + (set q | q in route.path)
    ensures forall p :: p in s' ==> s'[p] == Lookup(scores, p) + (if p in route.path then RouteWeight(route.reward) else 0.0)
  {
    var w := RouteWeight(route.reward);
    map p | p in scores.Keys + (set q | q in route.path) :: Lookup(scores, p) + (if p in route.path then w else 0.0)
  }

  /** The accumulation loop over the routes, in order. */
  function Accumulate(scores: map<Pos, real>, routes: seq<RouteHistoryEntry>): map<Pos, real>
    decreases |routes|
  {
    if |routes| == 0 then scores else Accumulate(AddRoute(scores, routes[0]), routes[1..])
  }

  /** The accumulated table holds exactly the cells on some route, and each
      cell's score is its reference score. */
  lemma {:induction false} AccumulateMatchesReference(scores: map<Pos, real>, routes: seq<RouteHistoryEntry>)
    ensures forall p :: p in Accumulate(scores, routes) <==> p in scores || OnSomeRoute(routes, p)
    ensures forall p :: p in Accumulate(scores, routes) ==>
              Accumulate(scores, routes)[p] == Lookup(scores, p) + CellScore(routes, p)
    decreases |routes|
  {
    if |routes| > 0 {
      var s1 := AddRoute(scores, routes[0]);
      AccumulateMatchesReference(s1, routes[1..]);
      forall p
        ensures OnSomeRoute(routes, p) <==> p in routes[0].path || OnSomeRoute(routes[1..], p)
      {
        if OnSomeRoute(routes, p) && p !in routes[0].path {
          var i :| 0 <= i < |routes| && p in routes[i].path;
          assert routes[1..][i - 1] == routes[i];
        }
        if OnSomeRoute(routes[1..], p) {
          var i :| 0 <= i < |routes[1..]| && p in routes[1..][i].path;
          assert routes[i + 1] == routes[1..][i];
        }
      }
    }
  }

  /** Every cell of every route, route by route. */
  function RouteCells(routes: seq<RouteHistoryEntry>): (cells: seq<Pos>)
    ensures forall p :: p in cells <==> OnSomeRoute(routes, p)
    decreases |routes|
  {
    if |routes| == 0 then []
    else
      var rest := RouteCells(routes[1..]);
      assert forall p :: OnSomeRoute(routes[1..], p) ==> OnSomeRoute(routes, p) by {
        forall p | OnSomeRoute(routes[1..], p) ensures OnSomeRoute(routes, p) {
          var i :| 0 <= i < |routes[1..]| && p in routes[1..][i].path;
          assert routes[i + 1] == routes[1..][i];
        }
      }
      assert forall p :: OnSomeRoute(routes, p) && p !in routes[0].path ==> OnSomeRoute(routes[1..], p) by {
        forall p | OnSomeRoute(routes, p) && p !in routes[0].path ensures OnSomeRoute(routes[1..], p) {
          var i :| 0 <= i < |routes| && p in routes[i].path;
          assert routes[1..][i - 1] == routes[i];
        }
      }
      routes[0].path + rest
  }

  /** The scores of the listed cells, in order. */
  function ScoresAt(scores: map<Pos, real>, cells: seq<Pos>): (xs: seq<real>)
    requires forall i :: 0 <= i < |cells| ==> cells[i] in scores
    ensures |xs| == |cells|
    ensures forall i :: 0 <= i < |cells| ==> xs[i] == scores[cells[i]]
    decreases |cells|
  {
    if |cells| == 0 then [] else [scores[cells[0]]] + ScoresAt(scores, cells[1..])
  }

  /** The routes that count: the history sliced from 0 to `maxRoutes` with
      JavaScript's slice semantics, so a non-negative count keeps the first
      `maxRoutes` routes and a negative count drops the last `-maxRoutes`. */
  function Recent(routes: seq<RouteHistoryEntry>, maxRoutes: int): (r: seq<RouteHistoryEntry>)
    ensures |r| <= |routes| && r == routes[..|r|]
    ensures maxRoutes >= 0 ==> |r| == (if maxRoutes <= |routes| then maxRoutes else |routes|)
    ensures maxRoutes < 0 ==> |r| == (if -maxRoutes <= |routes| then |routes| + maxRoutes else 0)
  {
    var end := if maxRoutes < 0 then (if |routes| + maxRoutes < 0 then 0 else |routes| + maxRoutes)
               else if maxRoutes <= |routes| then maxRoutes else |routes|;
    routes[..end]
  }

  /** Every cell of every counted route lies in the `size` x `size` grid. */
  predicate RoutesInGrid(routes: seq<RouteHistoryEntry>, size: nat) {
    forall i, p :: 0 <= i < |routes| && p in routes[i].path ==> Env.InSquare(size, p)
  }

  /** The strongest score, or 0 when no cell is scored. */
  function MaxScore(scores: map<Pos, real>, recent: seq<RouteHistoryEntry>): real
    requires scores == Accumulate(map[], recent)
  {
    var cells := RouteCells(recent);
    AccumulateMatchesReference(map[], recent);
    if |cells| == 0 then 0.0 else SeqMax(ScoresAt(scores, cells))
  }

  function HeatCellAt(scores: map<Pos, real>, divisor: real, p: Pos): Option<HeatCell>
    requires divisor != 0.0
  {
    if p in scores then Some(HeatCell(scores[p], BandForRatio(scores[p] / divisor))) else None
  }

  /** None for an empty history; otherwise a `size` x `size` grid whose
      scored cells carry their score and its band relative to the
      strongest cell. */
  function ComputeRouteHeatmap(routes: seq<RouteHistoryEntry>, size: nat, maxRoutes: int := 200): (r: Option<RouteGrid>)
    requires RoutesInGrid(Recent(routes, maxRoutes), size)
    ensures r.None? <==> |routes| == 0
    ensures r.Some? ==> |r.value| == size && forall i :: 0 <= i < size ==> |r.value[i]| == size
  {
    if |routes| == 0 then None
    else
      var recent := Recent(routes, maxRoutes);
      var scores := Accumulate(map[], recent);
      Some(RouteGridOf(scores, Divisor(MaxScore(scores, recent)), size))
  }

  /** The strongest score as a divisor; a zero maximum divides by 1. */
  function Divisor(maxScore: real): (d: real)
    ensures d != 0.0
  {
    if maxScore == 0.0 then 1.0 else maxScore
  }

  function RouteGridOf(scores: map<Pos, real>, divisor: real, size: nat): (g: RouteGrid)
    requires divisor != 0.0
    ensures |g| == size && forall i :: 0 <= i < size ==> |g[i]| == size
    ensures forall p :: Env.InSquare(size, p) ==> g[p.row][p.col] == HeatCellAt(scores, divisor, p)
  {
    seq(size, row => seq(size, col => HeatCellAt(scores, divisor, Pos(row, col))))
  }

  /** A grid cell is scored exactly when a counted route passes through it;
      its score is then the reference score, which is positive. */
  lemma RouteHeatmapCells(routes: seq<RouteHistoryEntry>, size: nat, maxRoutes: int, p: Pos)
    requires RoutesInGrid(Recent(routes, maxRoutes), size)
    requires |routes| > 0 && Env.InSquare(size, p)
    ensures var cell := ComputeRouteHeatmap(routes, size, maxRoutes).value[p.row][p.col];
      && (cell.Some? <==> OnSomeRoute(Recent(routes, maxRoutes), p))
      && (cell.Some? ==> cell.value.score == CellScore(Recent(routes, maxRoutes), p) > 0.0)
  {
    var recent := Recent(routes, maxRoutes);
    AccumulateMatchesReference(map[], recent);
    CellScorePositive(recent, p);
  }

  /** The strongest score bounds every score, and when any cell is scored
      it is the positive score of a scored cell inside the grid. */
  lemma MaxScoreFacts(recent: seq<RouteHistoryEntry>, size: nat)
    requires RoutesInGrid(recent, size)
    ensures var scores := Accumulate(map[], recent);
      forall p :: p in scores ==> scores[p] <= MaxScore(scores, recent)
    ensures var scores := Accumulate(map[], recent);
      scores != map[] ==> exists q :: q in scores && Env.InSquare(size, q) && scores[q] == MaxScore(scores, recent) > 0.0
  {
    var scores := Accumulate(map[], recent);
    AccumulateMatchesReference(map[], recent);
    var cells := RouteCells(recent);
    if |cells| > 0 {
      var xs := ScoresAt(scores, cells);
      var m := SeqMax(xs);
      forall p | p in scores ensures scores[p] <= m {
        var j :| 0 <= j < |cells| && cells[j] == p;
        assert xs[j] == scores[p];
      }
      var k :| 0 <= k < |xs| && xs[k] == m;
      var q := cells[k];
      CellScorePositive(recent, q);
      assert q in scores && scores[q] == m > 0.0;
    } else {
      assert scores == map[];
    }
  }

  /** The strongest cell is in the high band: a scored cell whose score is
      at least that of every scored cell gets band High. */
  lemma RouteHeatmapTopIsHigh(routes: seq<RouteHistoryEntry>, size: nat, maxRoutes: int, p: Pos)
    requires RoutesInGrid(Recent(routes, maxRoutes), size)
    requires |routes| > 0 && Env.InSquare(size, p)
    requires var g := ComputeRouteHeatmap(routes, size, maxRoutes).value;
      && g[p.row][p.col].Some?
      && forall r, c :: 0 <= r < size && 0 <= c < size && g[r][c].Some? ==> g[r][c].value.score <= g[p.row][p.col].value.score
    ensures ComputeRouteHeatmap(routes, size, maxRoutes).value[p.row][p.col].value.band == High
  {
    var g: RouteGrid := ComputeRouteHeatmap(routes, size, maxRoutes).value;
    var recent := Recent(routes, maxRoutes);
    var scores := Accumulate(map[], recent);
    var m := MaxScore(scores, recent);
    assert g == RouteGridOf(scores, Divisor(m), size);
    MaxScoreFacts(recent, size);
    var q :| q in scores && Env.InSquare(size, q) && scores[q] == m > 0.0;
    assert g[q.row][q.col] == HeatCellAt(scores, m, q);
    assert scores[p] == m;
    SelfRatio(m);
  }

  lemma SelfRatio(m: real)
    requires m != 0.0
    ensures m / m == 1.0
  {
  }

  // ------------------------------------------------------ policy heatmap

  /** A value-table row with its key reduced to the position it names. */
  datatype PolicyEntry = PolicyEntry(position: Option<Pos>, values: ActionValues)

  datatype PolicyCell = PolicyCell(
    row: int,
    col: int,
    bestAction: Option<Action>,
    bestValue: real,
    normalizedValue: real,
    visitCount: nat,
    band: Band)

  type PolicyGrid = seq<seq<Option<PolicyCell>>>

  /** The scan over the actions present in `m`, in action order, that
      replaces the best so far only on a strictly larger value. */
  function ScanFirstMax(m: map<Action, real>, i: nat, best: Option<Action>): (r: Option<Action>)
    requires i <= |Actions|
    requires best.Some? ==> best.value in m && QLearning.ActionIndex(best.value) < i
    requires best.Some? ==> forall j :: 0 <= j < i && Actions[j] in m ==> m[Actions[j]] <= m[best.value]
    requires best.Some? ==> forall j :: 0 <= j < QLearning.ActionIndex(best.value) && Actions[j] in m ==> m[Actions[j]] < m[best.value]
    requires best.None? ==> forall j :: 0 <= j < i ==> Actions[j] !in m
    ensures r.None? <==> forall j :: 0 <= j < |Actions| ==> Actions[j] !in m
    ensures r.Some? ==> r.value in m
    ensures r.Some? ==> forall j :: 0 <= j < |Actions| && Actions[j] in m ==> m[Actions[j]] <= m[r.value]
    ensures r.Some? ==> forall j :: 0 <= j < QLearning.ActionIndex(r.value) && Actions[j] in m ==> m[Actions[j]] < m[r.value]
    decreases |Actions| - i
  {
    if i == |Actions| then best
    else
      var a := Actions[i];
      if a !in m then ScanFirstMax(m, i + 1, best)
      else if best.None? || m[a] > m[best.value] then ScanFirstMax(m, i + 1, Some(a))
      else ScanFirstMax(m, i + 1, best)
  }

  /** The first action, in action order, holding the largest value in `m`;
      None exactly when `m` is empty. */
  function FirstMax(m: map<Action, real>): (r: Option<Action>)
    ensures r.None? <==> m == map[]
    ensures r.Some? ==> r.value in m && forall b :: b in m ==> m[b] <= m[r.value]
    ensures r.Some? ==> forall b :: b in m && QLearning.ActionIndex(b) < QLearning.ActionIndex(r.value) ==> m[b] < m[r.value]
  {
    var r := ScanFirstMax(m, 0, None);
    assert r.None? <==> m == map[] by {
      if m != map[] {
        var b :| b in m;
        assert Actions[QLearning.ActionIndex(b)] in m;
      }
    }
    assert r.Some? ==> forall b :: b in m ==> m[b] <= m[r.value] by {
      if r.Some? {
        forall b | b in m ensures m[b] <= m[r.value] {
          var j := QLearning.ActionIndex(b);
          assert Actions[j] == b && Actions[j] in m;
        }
      }
    }
    assert forall b :: b in m ==> Actions[QLearning.ActionIndex(b)] in m;
    r
  }

  /** An entry yields a cell when it names a position and records a value. */
  predicate Contributes(e: PolicyEntry) {
    e.position.Some? && e.values != map[]
  }

  /** The best value an entry records. */
  function EntryBest(e: PolicyEntry): real
    requires e.values != map[]
  {
    e.values[FirstMax(e.values).value]
  }

  /** The per-cell accumulator: sum of best values, number of entries, and
      how often each action was an entry's best. */
  datatype CellAcc = CellAcc(total: real, count: nat, actionCounts: map<Action, nat>)

  function AddEntry(cells: map<Pos, CellAcc>, e: PolicyEntry): map<Pos, CellAcc> {
    if !Contributes(e) then cells
    else
      var p := e.position.value;
      var a := FirstMax(e.values).value;
      var acc := if p in cells then cells[p] else CellAcc(0.0, 0, map[]);
      var n := if a in acc.actionCounts then acc.actionCounts[a] else 0;
      cells[p := CellAcc(acc.total + e.values[a], acc.count + 1, acc.actionCounts[a := n + 1])]
  }

  function Aggregate(cells: map<Pos, CellAcc>, entries: seq<PolicyEntry>): map<Pos, CellAcc>
    decreases |entries|
  {
    if |entries| == 0 then cells else Aggregate(AddEntry(cells, entries[0]), entries[1..])
  }

  predicate ContributesAt(e: PolicyEntry, p: Pos) {
    Contributes(e) && e.position.value == p
  }

  /** Reference: the number of entries that yield a cell at `p`. */
  function EntriesAt(entries: seq<PolicyEntry>, p: Pos): nat
    decreases |entries|
  {
    if |entries| == 0 then 0
    else (if ContributesAt(entries[0], p) then 1 else 0) + EntriesAt(entries[1..], p)
  }

  /** Reference: the sum of those entries' best values. */
  function BestSumAt(entries: seq<PolicyEntry>, p: Pos): real
    decreases |entries|
  {
    if |entries| == 0 then 0.0
    else (if ContributesAt(entries[0], p) then EntryBest(entries[0]) else 0.0) + BestSumAt(entries[1..], p)
  }

  predicate HasEntryAt(entries: seq<PolicyEntry>, p: Pos) {
    exists i :: 0 <= i < |entries| && ContributesAt(entries[i], p)
  }

  lemma {:induction false} EntriesAtPositive(entries: seq<PolicyEntry>, p: Pos)
    ensures EntriesAt(entries, p) > 0 <==> HasEntryAt(entries, p)
    decreases |entries|
  {
    if |entries| > 0 {
      EntriesAtPositive(entries[1..], p);
      if HasEntryAt(entries, p) && !ContributesAt(entries[0], p) {
        var i :| 0 <= i < |entries| && ContributesAt(entries[i], p);
        assert entries[1..][i - 1] == entries[i];
      }
      if HasEntryAt(entries[1..], p) {
        var i :| 0 <= i < |entries[1..]| && ContributesAt(entries[1..][i], p);
        assert entries[i + 1] == entries[1..][i];
      }
    }
  }

  function CountOf(cells: map<Pos, CellAcc>, p: Pos): nat {
    if p in cells then cells[p].count else 0
  }

  function TotalOf(cells: map<Pos, CellAcc>, p: Pos): real {
    if p in cells then cells[p].total else 0.0
  }

  /** Aggregation keeps a cell for exactly the positions some entry yields,
      counting those entries and summing their best values. */
  lemma {:induction false} AggregateMatchesReference(cells: map<Pos, CellAcc>, entries: seq<PolicyEntry>)
    ensures forall p :: p in Aggregate(cells, entries) <==> p in cells || EntriesAt(entries, p) > 0
    ensures forall p :: CountOf(Aggregate(cells, entries), p) == CountOf(cells, p) + EntriesAt(entries, p)
    ensures forall p :: TotalOf(Aggregate(cells, entries), p) == TotalOf(cells, p) + BestSumAt(entries, p)
    decreases |entries|
  {
    if |entries| > 0 {
      AggregateMatchesReference(AddEntry(cells, entries[0]), entries[1..]);
    }
  }

  /** The positions of the yielding entries, in table order. */
  function EntryCells(entries: seq<PolicyEntry>): (cells: seq<Pos>)
    ensures forall p :: p in cells <==> HasEntryAt(entries, p)
    decreases |entries|
  {
    if |entries| == 0 then []
    else
      var rest := EntryCells(entries[1..]);
      assert forall p :: HasEntryAt(entries[1..], p) ==> HasEntryAt(entries, p) by {
        forall p | HasEntryAt(entries[1..], p) ensures HasEntryAt(entries, p) {
          var i :| 0 <= i < |entries[1..]| && ContributesAt(entries[1..][i], p);
          assert entries[i + 1] == entries[1..][i];
        }
      }
      assert forall p :: HasEntryAt(entries, p) && !ContributesAt(entries[0], p) ==> HasEntryAt(entries[1..], p) by {
        forall p | HasEntryAt(entries, p) && !ContributesAt(entries[0], p) ensures HasEntryAt(entries[1..], p) {
          var i :| 0 <= i < |entries| && ContributesAt(entries[i], p);
          assert entries[1..][i - 1] == entries[i];
        }
      }
      (if Contributes(entries[0]) then [entries[0].position.value] else []) + rest
  }

  /** Average best value of a cell. */
  function Average(acc: CellAcc): real {
    acc.total / Env.Max(acc.count as real, 1.0)
  }

  function AveragesAt(cells: map<Pos, CellAcc>, ps: seq<Pos>): (xs: seq<real>)
    requires forall i :: 0 <= i < |ps| ==> ps[i] in cells
    ensures |xs| == |ps|
    ensures forall i :: 0 <= i < |ps| ==> xs[i] == Average(cells[ps[i]])
    decreases |ps|
  {
    if |ps| == 0 then [] else [Average(cells[ps[0]])] + AveragesAt(cells, ps[1..])
  }

  /** The action most often best in a cell, the earliest in action order on
      ties. */
  function CellBestAction(acc: CellAcc): Option<Action> {
    FirstMax(map a | a in acc.actionCounts :: acc.actionCounts[a] as real)
  }

  function PolicyCellAt(cells: map<Pos, CellAcc>, minAvg: real, range: real, p: Pos): Option<PolicyCell>
    requires range != 0.0
  {
    if p in cells then
      var acc := cells[p];
      var avg := Average(acc);
      var normalizedValue := (avg - minAvg) / range;
      Some(PolicyCell(p.row, p.col, CellBestAction(acc), avg, normalizedValue, acc.count, BandForRatio(normalizedValue)))
    else None
  }

  /** Every yielding entry names a cell of the `size` x `size` grid. */
  predicate EntriesInGrid(entries: seq<PolicyEntry>, size: nat) {
    forall i :: 0 <= i < |entries| && Contributes(entries[i]) ==> Env.InSquare(size, entries[i].position.value)
  }

  /** None for a missing table or one where no entry yields a cell;
      otherwise a `size` x `size` grid of per-cell summaries, the average
      best value normalised by the spread between the weakest and the
      strongest cell (a zero spread counts as 1). */
  function ComputePolicyHeatmap(table: Option<seq<PolicyEntry>>, size: nat): (r: Option<PolicyGrid>)
    requires table.Some? ==> EntriesInGrid(table.value, size)
    ensures r.None? <==> table.None? || forall i :: 0 <= i < |table.value| ==> !Contributes(table.value[i])
    ensures r.Some? ==> |r.value| == size && forall i :: 0 <= i < size ==> |r.value[i]| == size
  {
    if table.None? || |table.value| == 0 then None
    else
      var entries := table.value;
      var averages := PolicyAverages(entries);
      if |averages| == 0 then
        assert forall i :: 0 <= i < |entries| ==> !Contributes(entries[i]) by {
          forall i | 0 <= i < |entries| && Contributes(entries[i]) ensures false {
            assert HasEntryAt(entries, entries[i].position.value);
          }
        }
        None
      else
        assert HasEntryAt(entries, EntryCells(entries)[0]);
        Some(PolicyGridOf(Aggregate(map[], entries), SeqMin(averages), Spread(averages), size))
  }

  /** The average best value of every yielding cell, in the order the
      cells first occur in the table. */
  function PolicyAverages(entries: seq<PolicyEntry>): (xs: seq<real>)
    ensures var cells := Aggregate(map[], entries);
      var ps := EntryCells(entries);
      && |xs| == |ps|
      && forall i :: 0 <= i < |ps| ==> ps[i] in cells && xs[i] == Average(cells[ps[i]])
  {
    var cells := Aggregate(map[], entries);
    var ps := EntryCells(entries);
    AggregateMatchesReference(map[], entries);
    assert forall i :: 0 <= i < |ps| ==> ps[i] in cells by {
      forall i | 0 <= i < |ps| ensures ps[i] in cells {
        EntriesAtPositive(entries, ps[i]);
      }
    }
    AveragesAt(cells, ps)
  }

  /** The spread between the strongest and the weakest average; a zero
      spread counts as 1. */
  function Spread(averages: seq<real>): (range: real)
    requires |averages| > 0
    ensures range != 0.0
  {
    if SeqMax(averages) - SeqMin(averages) == 0.0 then 1.0 else SeqMax(averages) - SeqMin(averages)
  }

  function PolicyGridOf(cells: map<Pos, CellAcc>, minAvg: real, range: real, size: nat): (g: PolicyGrid)
    requires range != 0.0
    ensures |g| == size && forall i :: 0 <= i < size ==> |g[i]| == size
    ensures forall p :: Env.InSquare(size, p) ==> g[p.row][p.col] == PolicyCellAt(cells, minAvg, range, p)
  {
    seq(size, row => seq(size, col => PolicyCellAt(cells, minAvg, range, Pos(row, col))))
  }

  /** A grid cell is present exactly when some entry yields it. It then
      names its own row and column, counts the entries that yield it, holds
      the average of their best values, and its normalised value lies in
      [0, 1] and decides its band. */
  lemma PolicyHeatmapCells(entries: seq<PolicyEntry>, size: nat, p: Pos)
    requires EntriesInGrid(entries, size) && Env.InSquare(size, p)
    requires exists i :: 0 <= i < |entries| && Contributes(entries[i])
    ensures ComputePolicyHeatmap(Some(entries), size).Some?
    ensures var cell := ComputePolicyHeatmap(Some(entries), size).value[p.row][p.col];
      && (cell.Some? <==> HasEntryAt(entries, p))
      && (cell.Some? ==>
            && cell.value.row == p.row && cell.value.col == p.col
            && cell.value.visitCount == EntriesAt(entries, p) >= 1
            && cell.value.bestValue == BestSumAt(entries, p) / (EntriesAt(entries, p) as real)
            && 0.0 <= cell.value.normalizedValue <= 1.0
            && cell.value.band == BandForRatio(cell.value.normalizedValue))
  {
    var cells := Aggregate(map[], entries);
    var averages := PolicyAverages(entries);
    var minAvg := SeqMin(averages);
    var maxAvg := SeqMax(averages);
    var g := PolicyGridOf(cells, minAvg, Spread(averages), size);
    assert ComputePolicyHeatmap(Some(entries), size).value == g;
    assert g[p.row][p.col] == PolicyCellAt(cells, minAvg, Spread(averages), p);
    AggregateMatchesReference(map[], entries);
    EntriesAtPositive(entries, p);
    if HasEntryAt(entries, p) {
      var ps := EntryCells(entries);
      var j :| 0 <= j < |ps| && ps[j] == p;
      assert averages[j] == Average(cells[p]);
      assert Spread(averages) == if maxAvg - minAvg == 0.0 then 1.0 else maxAvg - minAvg;
      PolicyCellFacts(entries, minAvg, maxAvg, p);
    }
  }

  /** The summary of a cell some entry yields, for any spread containing
      its average. */
  lemma PolicyCellFacts(entries: seq<PolicyEntry>, minAvg: real, maxAvg: real, p: Pos)
    requires HasEntryAt(entries, p)
    requires var cells := Aggregate(map[], entries);
      p in cells && minAvg <= Average(cells[p]) <= maxAvg
    ensures var range := if maxAvg - minAvg == 0.0 then 1.0 else maxAvg - minAvg;
      var c := PolicyCellAt(Aggregate(map[], entries), minAvg, range, p);
      && c.Some?
      && c.value.row == p.row && c.value.col == p.col
      && c.value.visitCount == EntriesAt(entries, p) >= 1
      && c.value.bestValue == BestSumAt(entries, p) / (EntriesAt(entries, p) as real)
      && 0.0 <= c.value.normalizedValue <= 1.0
      && c.value.band == BandForRatio(c.value.normalizedValue)
  {
    var cells := Aggregate(map[], entries);
    AggregateMatchesReference(map[], entries);
    EntriesAtPositive(entries, p);
    NormalizedInUnit(cells, minAvg, maxAvg, p);
    assert CountOf(cells, p) == EntriesAt(entries, p);
    assert TotalOf(cells, p) == BestSumAt(entries, p);
  }

  /** A cell whose average lies between the weakest and the strongest
      average gets a normalised value in [0, 1]. */
  lemma NormalizedInUnit(cells: map<Pos, CellAcc>, minAvg: real, maxAvg: real, p: Pos)
    requires p in cells && minAvg <= Average(cells[p]) <= maxAvg
    ensures var range := if maxAvg - minAvg == 0.0 then 1.0 else maxAvg - minAvg;
      var c := PolicyCellAt(cells, minAvg, range, p);
      c.Some? && 0.0 <= c.value.normalizedValue <= 1.0
  {
    var avg := Average(cells[p]);
    if maxAvg - minAvg != 0.0 {
      RatioInUnit(avg - minAvg, maxAvg - minAvg);
    }
  }
}
