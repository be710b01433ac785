/** The constant tables of the sandbox: action offsets and order, the
    tile/distraction correspondences, the chore tile set, the built-in world
    and default configuration, and the initial grid built from them. */
module Constants {
  import opened Types

  /** The fixed action enumeration order; ties in greedy choice resolve to
      the earliest action here. */
  const Actions: seq<Action> := [Up, Down, Left, Right]

  /** Unit grid offset of each action (row grows downwards). */
  function ActionOffset(a: Action): (d: Pos)
    ensures (d.row == 0) != (d.col == 0)
    ensures -1 <= d.row <= 1 && -1 <= d.col <= 1
  {
    match a
    case Up => Pos(-1, 0)
    case Down => Pos(1, 0)
    case Left => Pos(0, -1)
    case Right => Pos(0, 1)
  }

  /** Every action appears exactly once in the enumeration, and distinct
      actions move in distinct directions. */
  lemma ActionsEnumerateAll()
    ensures |Actions| == 4
    ensures forall a: Action :: a in Actions
    ensures forall i, j :: 0 <= i < j < |Actions| ==> Actions[i] != Actions[j]
    ensures forall a: Action, b: Action :: a != b ==> ActionOffset(a) != ActionOffset(b)
  {
    forall a: Action ensures a in Actions {
      match a
      case Up => assert Actions[0] == a;
      case Down => assert Actions[1] == a;
      case Left => assert Actions[2] == a;
      case Right => assert Actions[3] == a;
    }
  }

  /** The tile that renders each distraction kind. */
  function DistractionTileType(k: DistractionKey): Tile {
    match k
    case TVKey => TV
    case FriendsKey => Friends
    case PlaygroundKey => Playground
  }

  predicate IsDistractionTile(t: Tile) {
    t == TV || t == Friends || t == Playground
  }

  /** The partial tile-to-distraction table: defined exactly on the three
      distraction tiles, and the inverse of `DistractionTileType` there. */
  function TileToDistraction(t: Tile): (r: Option<DistractionKey>)
    ensures r.Some? <==> IsDistractionTile(t)
    ensures r.Some? ==> DistractionTileType(r.value) == t
  {
    match t
    case TV => Some(TVKey)
    case Friends => Some(FriendsKey)
    case Playground => Some(PlaygroundKey)
    case _ => None
  }

  lemma DistractionTileRoundTrip(k: DistractionKey)
    ensures TileToDistraction(DistractionTileType(k)) == Some(k)
  {
  }

  const ChoreTileTypes: seq<Tile> :=
    [Chore, ChoreFeedDog, ChoreCleanRoom, ChoreTakeOutTrash, ChoreReadingPractice, Homework]

  const ChoreTileSet: set<Tile> :=
    {Chore, ChoreFeedDog, ChoreCleanRoom, ChoreTakeOutTrash, ChoreReadingPractice, Homework}

  predicate IsChoreTile(t: Tile) {
    t in ChoreTileSet
  }

  /** The chore set is the set of the listed chore tile types: the five
      chore kinds and homework, six tiles in all, none of which is a
      distraction tile. */
  lemma ChoreTileSetContents()
    ensures forall t :: t in ChoreTileSet <==> t in ChoreTileTypes
    ensures |ChoreTileSet| == |ChoreTileTypes| == 6
    ensures forall t :: IsChoreTile(t) ==> TileToDistraction(t).None?
  {
  }

  datatype FunSpot = FunSpot(position: Pos, kind: DistractionKey)
  datatype ChoreSpot = ChoreSpot(position: Pos, name: string, tile: Tile)

  datatype WorldDefinition = WorldDefinition(
    size: nat,
    kidStart: Pos,
    iceCream: Pos,
    walls: seq<Pos>,
    funSpots: seq<FunSpot>,
    chores: seq<ChoreSpot>)

  const World: WorldDefinition := WorldDefinition(
    9,
    Pos(1, 1),
    Pos(7, 4),
    [Pos(2, 3), Pos(3, 3), Pos(5, 2), Pos(5, 3)],
    [FunSpot(Pos(1, 5), TVKey), FunSpot(Pos(4, 2), FriendsKey), FunSpot(Pos(6, 3), PlaygroundKey)],
    [ ChoreSpot(Pos(2, 1), "Feed the dog", ChoreFeedDog),
      ChoreSpot(Pos(4, 5), "Clean your room", ChoreCleanRoom),
      ChoreSpot(Pos(2, 6), "Do your math worksheet", Homework),
      ChoreSpot(Pos(5, 6), "Take out the trash", ChoreTakeOutTrash),
      ChoreSpot(Pos(6, 5), "Practice reading", ChoreReadingPractice),
      ChoreSpot(Pos(7, 1), "Practice reading", ChoreReadingPractice),
      ChoreSpot(Pos(4, 4), "Practice reading", ChoreReadingPractice)])

  /** Folds (position, value) entries into a map left to right, so a later
      entry for the same position overwrites an earlier one. */
  function PositionMap<V>(entries: seq<(Pos, V)>): map<Pos, V>
  {
    if |entries| == 0 then map[]
    else PositionMap(entries[..|entries| - 1])[entries[|entries| - 1].0 := entries[|entries| - 1].1]
  }

  /** The map's keys are exactly the entries' positions. */
  lemma {:induction false} PositionMapKeys<V>(entries: seq<(Pos, V)>)
    ensures forall p :: p in PositionMap(entries) <==> exists i :: 0 <= i < |entries| && entries[i].0 == p
  {
    if |entries| > 0 {
      var n := |entries| - 1;
      var prefix := entries[..n];
      PositionMapKeys(prefix);
      assert PositionMap(entries) == PositionMap(prefix)[entries[n].0 := entries[n].1];
      forall p | p in PositionMap(entries) ensures exists i :: 0 <= i < |entries| && entries[i].0 == p {
        if p != entries[n].0 {
          var i :| 0 <= i < n && prefix[i].0 == p;
          assert entries[i].0 == p;
        }
      }
      forall p | exists i :: 0 <= i < |entries| && entries[i].0 == p ensures p in PositionMap(entries) {
        var i :| 0 <= i < |entries| && entries[i].0 == p;
        if i < n {
          assert prefix[i].0 == p;
        }
      }
    }
  }

  /** An entry whose position no later entry repeats keeps its value. */
  lemma {:induction false} PositionMapLast<V>(entries: seq<(Pos, V)>, i: int)
    requires 0 <= i < |entries|
    requires forall j :: i < j < |entries| ==> entries[j].0 != entries[i].0
    ensures entries[i].0 in PositionMap(entries) && PositionMap(entries)[entries[i].0] == entries[i].1
  {
    var n := |entries| - 1;
    var prefix := entries[..n];
    assert PositionMap(entries) == PositionMap(prefix)[entries[n].0 := entries[n].1];
    if i < n {
      PositionMapLast(prefix, i);
    }
  }

  /** The (position, kind) entry of every fun spot, in order. */
  function FunSpotEntries(spots: seq<FunSpot>): (es: seq<(Pos, DistractionKey)>)
    ensures |es| == |spots|
    ensures forall i :: 0 <= i < |spots| ==> es[i] == (spots[i].position, spots[i].kind)
  {
    if |spots| == 0 then [] else [(spots[0].position, spots[0].kind)] + FunSpotEntries(spots[1..])
  }

  /** The (position, name) entry of every chore, in order. */
  function ChoreEntries(chores: seq<ChoreSpot>): (es: seq<(Pos, string)>)
    ensures |es| == |chores|
    ensures forall i :: 0 <= i < |chores| ==> es[i] == (chores[i].position, chores[i].name)
  {
    if |chores| == 0 then [] else [(chores[0].position, chores[0].name)] + ChoreEntries(chores[1..])
  }

  const DistractionLayout: map<Pos, DistractionKey> := PositionMap(FunSpotEntries(World.funSpots))

  const ChoreAssignments: map<Pos, string> := PositionMap(ChoreEntries(World.chores))

  /** The layout maps the position of every fun spot of the built-in world,
      and nothing else, to that spot's kind. */
  lemma DistractionLayoutMatchesWorld()
    ensures forall p :: p in DistractionLayout <==> exists i :: 0 <= i < |World.funSpots| && World.funSpots[i].position == p
    ensures forall i :: 0 <= i < |World.funSpots| ==> DistractionLayout[World.funSpots[i].position] == World.funSpots[i].kind
  {
    var es := FunSpotEntries(World.funSpots);
    PositionMapKeys(es);
    assert forall i, j :: 0 <= i < j < |es| ==> es[j].0 != es[i].0;
    forall i | 0 <= i < |World.funSpots|
      ensures DistractionLayout[World.funSpots[i].position] == World.funSpots[i].kind
    {
      PositionMapLast(es, i);
    }
  }

  /** The chore assignments map the position of every chore of the built-in
      world, and nothing else, to that chore's name. */
  lemma ChoreAssignmentsMatchWorld()
    ensures forall p :: p in ChoreAssignments <==> exists i :: 0 <= i < |World.chores| && World.chores[i].position == p
    ensures forall i :: 0 <= i < |World.chores| ==> ChoreAssignments[World.chores[i].position] == World.chores[i].name
  {
    var es := ChoreEntries(World.chores);
    PositionMapKeys(es);
    ChorePositionsDistinct();
    forall i | 0 <= i < |World.chores|
      ensures ChoreAssignments[World.chores[i].position] == World.chores[i].name
    {
      PositionMapLast(es, i);
    }
  }

  const DistractionTypes: DistractionTable := DistractionTable(
    DistractionTypeConfig("Watch TV", 12.0, 3.0, 1.0),
    DistractionTypeConfig("Play with friends", 8.0, 2.0, 3.0),
    DistractionTypeConfig("Go to the playground", 5.0, 1.0, 4.0))

  const InitialRewards: RewardsConfig := RewardsConfig(
    -1.0, 5.0, 100.0, -100.0, 10.0, -1.0, -25.0, Some(-100.0), Some(-100.0))

  const DefaultConfig: Config := Config(
    0.1, 0.99, 1.0, 0.9995, 0.01,
    2000, 200, 50.0,
    35.0, 1.0, 4.0, 3, 4.0, Some(1.0),
    30.0, 1.0, 2.0, 3.0,
    DistractionTypes, DistractionLayout, PlaygroundKey, ChoreAssignments,
    InitialRewards)

  /** The default configuration never divides by a zero bucket size and
      keeps its exploration floor below its starting rate. */
  lemma DefaultConfigSane()
    ensures DefaultConfig.timeBucketSize >= 1.0 && DefaultConfig.energyBucketSize >= 1.0
    ensures 0.0 <= DefaultConfig.minEpsilon <= DefaultConfig.epsilon
  {
  }

  /** A size x size grid whose border is wall and whose interior is empty. */
  function BorderedGrid(size: nat): (g: Grid)
    ensures |g| == size && forall r :: 0 <= r < size ==> |g[r]| == size
  {
    seq(size, r requires 0 <= r < size =>
      seq(size, c requires 0 <= c < size =>
        if r == 0 || r == size - 1 || c == 0 || c == size - 1 then Wall else Empty))
  }

  /** Overwrites one cell. */
  function Place(g: Grid, p: Pos, t: Tile): (r: Grid)
    requires InGrid(g, p)
    ensures |r| == |g| && forall i :: 0 <= i < |g| ==> |r[i]| == |g[i]|
    ensures At(r, p) == t
    ensures forall q :: InGrid(g, q) && q != p ==> At(r, q) == At(g, q)
  {
    g[p.row := g[p.row][p.col := t]]
  }

  predicate AllInGrid(g: Grid, ps: seq<(Pos, Tile)>) {
    forall i :: 0 <= i < |ps| ==> InGrid(g, ps[i].0)
  }

  /** No placement after the i-th names the same cell. */
  predicate LastAt(ps: seq<(Pos, Tile)>, i: nat)
    requires i < |ps|
  {
    forall j :: i < j < |ps| ==> ps[j].0 != ps[i].0
  }

  /** Applies a list of placements in order; a cell no placement names keeps
      its tile, and a placement no later one overwrites takes effect (the
      last write wins). */
  function PlaceAll(g: Grid, ps: seq<(Pos, Tile)>): (r: Grid)
    requires AllInGrid(g, ps)
    ensures |r| == |g| && forall i :: 0 <= i < |g| ==> |r[i]| == |g[i]|
    ensures forall q :: InGrid(g, q) && (forall i :: 0 <= i < |ps| ==> ps[i].0 != q) ==> At(r, q) == At(g, q)
    ensures forall i {:trigger LastAt(ps, i)} :: 0 <= i < |ps| && LastAt(ps, i) ==> At(r, ps[i].0) == ps[i].1
    decreases |ps|
  {
    if |ps| == 0 then g
    else
      var g' := Place(g, ps[0].0, ps[0].1);
      var r := PlaceAll(g', ps[1..]);
      assert forall i :: 1 <= i < |ps| ==> ps[1..][i - 1] == ps[i];
      assert forall i :: 1 <= i < |ps| && LastAt(ps, i) ==> LastAt(ps[1..], i - 1);
      r
  }

  /** The tile placements of the chores, in order. */
  function ChorePlacements(chores: seq<ChoreSpot>): (ps: seq<(Pos, Tile)>)
    ensures |ps| == |chores|
    ensures forall i :: 0 <= i < |chores| ==> ps[i] == (chores[i].position, chores[i].tile)
  {
    if |chores| == 0 then [] else [(chores[0].position, chores[0].tile)] + ChorePlacements(chores[1..])
  }

  /** The tile placements of the fun spots, each showing its kind's tile. */
  function FunPlacements(spots: seq<FunSpot>): (ps: seq<(Pos, Tile)>)
    ensures |ps| == |spots|
    ensures forall i :: 0 <= i < |spots| ==> ps[i] == (spots[i].position, DistractionTileType(spots[i].kind))
  {
    if |spots| == 0 then [] else [(spots[0].position, DistractionTileType(spots[0].kind))] + FunPlacements(spots[1..])
  }

  /** The tile placements of the inner walls. */
  function WallPlacements(walls: seq<Pos>): (ps: seq<(Pos, Tile)>)
    ensures |ps| == |walls|
    ensures forall i :: 0 <= i < |walls| ==> ps[i] == (walls[i], Wall)
  {
    if |walls| == 0 then [] else [(walls[0], Wall)] + WallPlacements(walls[1..])
  }

  predicate Interior(p: Pos) {
    1 <= p.row <= 7 && 1 <= p.col <= 7
  }

  predicate NineByNine(g: Grid) {
    |g| == 9 && forall r :: 0 <= r < 9 ==> |g[r]| == 9
  }

  predicate OnBorder(r: int, c: int) {
    r == 0 || r == 8 || c == 0 || c == 8
  }

  lemma InteriorInGrid(g: Grid, ps: seq<(Pos, Tile)>)
    requires NineByNine(g)
    requires forall i :: 0 <= i < |ps| ==> Interior(ps[i].0)
    ensures AllInGrid(g, ps)
  {
  }

  /** A placement list that stays in the interior, never touches the start
      or goal cell, and never writes a start or goal tile. */
  predicate Spares(ps: seq<(Pos, Tile)>, start: Pos, goal: Pos) {
    forall i :: 0 <= i < |ps| ==>
      Interior(ps[i].0) && ps[i].0 != start && ps[i].0 != goal
      && ps[i].1 != Kid && ps[i].1 != IceCream
  }

  /** A world the construction below applies to: nine by nine, distinct
      start and goal inside the border, and chores, fun spots and inner
      walls that all spare the start and goal. */
  predicate WellFormedWorld(w: WorldDefinition) {
    && w.size == 9
    && Interior(w.kidStart) && Interior(w.iceCream) && w.kidStart != w.iceCream
    && Spares(ChorePlacements(w.chores), w.kidStart, w.iceCream)
    && Spares(FunPlacements(w.funSpots), w.kidStart, w.iceCream)
    && Spares(WallPlacements(w.walls), w.kidStart, w.iceCream)
  }

  /** Placement-by-placement form of `Spares`, for checking a given list. */
  predicate SparesEach(ps: seq<(Pos, Tile)>, start: Pos, goal: Pos)
    decreases |ps|
  {
    |ps| == 0 ||
    (&& Interior(ps[0].0) && ps[0].0 != start && ps[0].0 != goal
     && ps[0].1 != Kid && ps[0].1 != IceCream
     && SparesEach(ps[1..], start, goal))
  }

  lemma {:induction false} SparesEachSound(ps: seq<(Pos, Tile)>, start: Pos, goal: Pos)
    requires SparesEach(ps, start, goal)
    ensures Spares(ps, start, goal)
    decreases |ps|
  {
    if |ps| > 0 {
      SparesEachSound(ps[1..], start, goal);
      forall i | 1 <= i < |ps| ensures ps[i] == ps[1..][i - 1] {}
    }
  }

  const ChoreTiles: seq<(Pos, Tile)> :=
    [(Pos(2, 1), ChoreFeedDog), (Pos(4, 5), ChoreCleanRoom), (Pos(2, 6), Homework),
     (Pos(5, 6), ChoreTakeOutTrash), (Pos(6, 5), ChoreReadingPractice),
     (Pos(7, 1), ChoreReadingPractice), (Pos(4, 4), ChoreReadingPractice)]

  lemma ChorePlacementsOfWorld()
    ensures ChorePlacements(World.chores) == ChoreTiles
  {
  }

  predicate PositionAbsent(p: Pos, ps: seq<(Pos, Tile)>)
    decreases |ps|
  {
    |ps| == 0 || (ps[0].0 != p && PositionAbsent(p, ps[1..]))
  }

  /** Placement-by-placement check that no position is placed twice. */
  predicate DistinctEach(ps: seq<(Pos, Tile)>)
    decreases |ps|
  {
    |ps| == 0 || (PositionAbsent(ps[0].0, ps[1..]) && DistinctEach(ps[1..]))
  }

  lemma {:induction false} PositionAbsentSound(p: Pos, ps: seq<(Pos, Tile)>)
    requires PositionAbsent(p, ps)
    ensures forall j :: 0 <= j < |ps| ==> ps[j].0 != p
    decreases |ps|
  {
    if |ps| > 0 {
      PositionAbsentSound(p, ps[1..]);
      forall j | 1 <= j < |ps| ensures ps[j] == ps[1..][j - 1] {}
    }
  }

  lemma {:induction false} DistinctEachSound(ps: seq<(Pos, Tile)>)
    requires DistinctEach(ps)
    ensures forall i, j :: 0 <= i < j < |ps| ==> ps[i].0 != ps[j].0
    decreases |ps|
  {
    if |ps| > 0 {
      DistinctEachSound(ps[1..]);
      PositionAbsentSound(ps[0].0, ps[1..]);
      forall j | 1 <= j < |ps| ensures ps[j] == ps[1..][j - 1] {}
    }
  }

  lemma ChoreTilesDistinct()
    ensures forall i, j :: 0 <= i < j < |ChoreTiles| ==> ChoreTiles[i].0 != ChoreTiles[j].0
  {
    DistinctEachSound([(Pos(2, 1), ChoreFeedDog), (Pos(4, 5), ChoreCleanRoom), (Pos(2, 6), Homework),
                       (Pos(5, 6), ChoreTakeOutTrash), (Pos(6, 5), ChoreReadingPractice),
                       (Pos(7, 1), ChoreReadingPractice), (Pos(4, 4), ChoreReadingPractice)]);
  }

  /** No two chores of the built-in world share a cell. */
  lemma ChorePositionsDistinct()
    ensures forall i, j :: 0 <= i < j < |World.chores| ==> World.chores[i].position != World.chores[j].position
  {
    ChoreTilesDistinct();
    ChorePlacementsOfWorld();
    forall i, j | 0 <= i < j < |World.chores|
      ensures World.chores[i].position != World.chores[j].position
    {
      assert World.chores[i].position == ChoreTiles[i].0;
      assert World.chores[j].position == ChoreTiles[j].0;
    }
  }

  lemma ChoreTilesSpare()
    ensures Spares(ChoreTiles, Pos(1, 1), Pos(7, 4))
  {
    SparesEachSound([(Pos(2, 1), ChoreFeedDog), (Pos(4, 5), ChoreCleanRoom), (Pos(2, 6), Homework),
                     (Pos(5, 6), ChoreTakeOutTrash), (Pos(6, 5), ChoreReadingPractice),
                     (Pos(7, 1), ChoreReadingPractice), (Pos(4, 4), ChoreReadingPractice)], Pos(1, 1), Pos(7, 4));
  }

  lemma FunSpotsSpare()
    ensures Spares(FunPlacements(World.funSpots), World.kidStart, World.iceCream)
  {
    SparesEachSound([(Pos(1, 5), TV), (Pos(4, 2), Friends), (Pos(6, 3), Playground)], Pos(1, 1), Pos(7, 4));
    assert FunPlacements(World.funSpots) == [(Pos(1, 5), TV), (Pos(4, 2), Friends), (Pos(6, 3), Playground)];
  }

  lemma WallsSpare()
    ensures Spares(WallPlacements(World.walls), World.kidStart, World.iceCream)
  {
    SparesEachSound([(Pos(2, 3), Wall), (Pos(3, 3), Wall), (Pos(5, 2), Wall), (Pos(5, 3), Wall)], Pos(1, 1), Pos(7, 4));
    assert WallPlacements(World.walls) == [(Pos(2, 3), Wall), (Pos(3, 3), Wall), (Pos(5, 2), Wall), (Pos(5, 3), Wall)];
  }

  /** The built-in world is one the grid construction applies to. */
  lemma WorldWellFormed()
    ensures WellFormedWorld(World)
  {
    ChorePlacementsOfWorld();
    ChoreTilesSpare();
    FunSpotsSpare();
    WallsSpare();
  }

  /** After a placement list, a cell holds either its old tile or one of the
      tiles some placement wrote to it. */
  lemma {:induction false} PlaceAllWrites(g: Grid, ps: seq<(Pos, Tile)>, q: Pos)
    requires AllInGrid(g, ps) && InGrid(g, q)
    ensures At(PlaceAll(g, ps), q) == At(g, q) || exists i :: 0 <= i < |ps| && ps[i] == (q, At(PlaceAll(g, ps), q))
    decreases |ps|
  {
    if |ps| > 0 {
      var g' := Place(g, ps[0].0, ps[0].1);
      var rest := ps[1..];
      assert PlaceAll(g, ps) == PlaceAll(g', rest);
      PlaceAllWrites(g', rest, q);
      var t := At(PlaceAll(g', rest), q);
      if At(g', q) == t {
        if t != At(g, q) {
          assert ps[0] == (q, t);
        }
      } else {
        var i :| 0 <= i < |rest| && rest[i] == (q, t);
        assert ps[i + 1] == (q, t);
      }
    }
  }

  /** A placement list that spares start and goal keeps every border cell,
      the start and goal cells, and the absence of start/goal tiles elsewhere. */
  lemma PlaceAllSpares(g: Grid, ps: seq<(Pos, Tile)>, start: Pos, goal: Pos, q: Pos)
    requires NineByNine(g) && Spares(ps, start, goal) && InGrid(g, q)
    ensures AllInGrid(g, ps)
    ensures NineByNine(PlaceAll(g, ps))
    ensures !Interior(q) || q == start || q == goal ==> At(PlaceAll(g, ps), q) == At(g, q)
    ensures At(g, q) != Kid && At(g, q) != IceCream ==> At(PlaceAll(g, ps), q) != Kid && At(PlaceAll(g, ps), q) != IceCream
  {
    InteriorInGrid(g, ps);
    PlaceAllWrites(g, ps, q);
  }

  /** Three placement lists applied in order. */
  function PlaceThree(g: Grid, ps1: seq<(Pos, Tile)>, ps2: seq<(Pos, Tile)>, ps3: seq<(Pos, Tile)>,
                      start: Pos, goal: Pos): (g': Grid)
    requires NineByNine(g)
    requires Spares(ps1, start, goal) && Spares(ps2, start, goal) && Spares(ps3, start, goal)
    ensures NineByNine(g')
  {
    PlaceAllSpares(g, ps1, start, goal, Pos(0, 0));
    var g1 := PlaceAll(g, ps1);
    PlaceAllSpares(g1, ps2, start, goal, Pos(0, 0));
    var g2 := PlaceAll(g1, ps2);
    PlaceAllSpares(g2, ps3, start, goal, Pos(0, 0));
    PlaceAll(g2, ps3)
  }

  /** A grid whose cell q obeys the layout (wall on the border, start tile
      exactly at start, goal tile exactly at goal) still obeys it after
      three placement lists that spare start and goal. */
  lemma PlaceThreeKeepsLayout(g: Grid, ps1: seq<(Pos, Tile)>, ps2: seq<(Pos, Tile)>, ps3: seq<(Pos, Tile)>,
                              start: Pos, goal: Pos, q: Pos)
    requires NineByNine(g) && 0 <= q.row < 9 && 0 <= q.col < 9
    requires Spares(ps1, start, goal) && Spares(ps2, start, goal) && Spares(ps3, start, goal)
    requires OnBorder(q.row, q.col) ==> At(g, q) == Wall
    requires At(g, q) == Kid <==> q == start
    requires At(g, q) == IceCream <==> q == goal
    ensures var g' := PlaceThree(g, ps1, ps2, ps3, start, goal);
      && (OnBorder(q.row, q.col) ==> g'[q.row][q.col] == Wall)
      && (g'[q.row][q.col] == Kid <==> q == start)
      && (g'[q.row][q.col] == IceCream <==> q == goal)
  {
    PlaceAllSpares(g, ps1, start, goal, q);
    var g1 := PlaceAll(g, ps1);
    PlaceAllSpares(g1, ps2, start, goal, q);
    var g2 := PlaceAll(g1, ps2);
    PlaceAllSpares(g2, ps3, start, goal, q);
  }

  /** The grid after the border loop and the start and goal placements. */
  function StartAndGoalGrid(w: WorldDefinition): (g: Grid)
    requires WellFormedWorld(w)
    ensures NineByNine(g)
  {
    var g0 := BorderedGrid(w.size);
    Place(Place(g0, w.kidStart, Kid), w.iceCream, IceCream)
  }

  lemma StartAndGoalCell(w: WorldDefinition, q: Pos)
    requires WellFormedWorld(w) && 0 <= q.row < 9 && 0 <= q.col < 9
    ensures OnBorder(q.row, q.col) ==> At(StartAndGoalGrid(w), q) == Wall
    ensures At(StartAndGoalGrid(w), q) == Kid <==> q == w.kidStart
    ensures At(StartAndGoalGrid(w), q) == IceCream <==> q == w.iceCream
  {
    var g0 := BorderedGrid(w.size);
    assert InGrid(g0, q);
    assert At(g0, q) == Wall || At(g0, q) == Empty;
    assert OnBorder(q.row, q.col) ==> At(g0, q) == Wall;
    var g1 := Place(g0, w.kidStart, Kid);
    assert StartAndGoalGrid(w) == Place(g1, w.iceCream, IceCream);
  }

  /** The initial grid of a world: border walls, then start and goal, then
      the chores, the fun spots and the inner walls, in that order. The
      built-in grid is `CreateInitialGrid(World)`. */
  function CreateInitialGrid(w: WorldDefinition): (g: Grid)
    requires WellFormedWorld(w)
    ensures NineByNine(g)
  {
    PlaceThree(StartAndGoalGrid(w), ChorePlacements(w.chores), FunPlacements(w.funSpots), WallPlacements(w.walls),
               w.kidStart, w.iceCream)
  }

  /** In the initial grid of a well-formed world a border cell is wall, and
      the start and goal tiles sit exactly on the world's start and goal. */
  lemma InitialGridCell(w: WorldDefinition, q: Pos)
    requires WellFormedWorld(w) && 0 <= q.row < 9 && 0 <= q.col < 9
    ensures OnBorder(q.row, q.col) ==> CreateInitialGrid(w)[q.row][q.col] == Wall
    ensures CreateInitialGrid(w)[q.row][q.col] == Kid <==> q == w.kidStart
    ensures CreateInitialGrid(w)[q.row][q.col] == IceCream <==> q == w.iceCream
  {
    StartAndGoalCell(w, q);
    PlaceThreeKeepsLayout(StartAndGoalGrid(w), ChorePlacements(w.chores), FunPlacements(w.funSpots),
                          WallPlacements(w.walls), w.kidStart, w.iceCream, q);
  }

  /** The initial grid of a well-formed world is walled all round and holds
      exactly one start tile and exactly one goal tile: no later placement
      overwrites either of them. */
  lemma InitialGridLayout(w: WorldDefinition)
    requires WellFormedWorld(w)
    ensures forall r, c :: 0 <= r < 9 && 0 <= c < 9 && OnBorder(r, c) ==> CreateInitialGrid(w)[r][c] == Wall
    ensures forall r, c :: 0 <= r < 9 && 0 <= c < 9 ==>
              (CreateInitialGrid(w)[r][c] == Kid <==> Pos(r, c) == w.kidStart)
    ensures forall r, c :: 0 <= r < 9 && 0 <= c < 9 ==>
              (CreateInitialGrid(w)[r][c] == IceCream <==> Pos(r, c) == w.iceCream)
  {
    forall r, c | 0 <= r < 9 && 0 <= c < 9
      ensures OnBorder(r, c) ==> CreateInitialGrid(w)[r][c] == Wall
      ensures CreateInitialGrid(w)[r][c] == Kid <==> Pos(r, c) == w.kidStart
      ensures CreateInitialGrid(w)[r][c] == IceCream <==> Pos(r, c) == w.iceCream
    {
      InitialGridCell(w, Pos(r, c));
    }
  }
}
