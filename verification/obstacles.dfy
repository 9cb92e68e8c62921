/** The obstacle field of the FloppyBirb test game (`ObstaclesController`).

    The controller owns a list of (top, bottom) obstacle pairs. Every fixed
    tick slides each pair left; a pair whose top member has crossed the left
    boundary is re-anchored one step past the last pair of the list, gets new
    random scales and is moved to the end of the list. Positions and scales
    are exact reals; `random.uniform` is an input stream of draws. */
module Obstacles {
  import opened Wrappers

  datatype Vec2 = Vec2(x: real, y: real)

  /** Rigid-body settings of an engine entity, as `ConfigureRigidbody` stores them. */
  datatype Rigidbody = Rigidbody(density: real, friction: real, dynamic: bool)

  /** One engine entity created by the controller: its handle id and the
      transform and body the engine keeps for it. */
  datatype Obstacle = Obstacle(id: nat, position: Vec2, scale: Vec2, body: Option<Rigidbody>)

  datatype Pair = Pair(top: Obstacle, bottom: Obstacle)

  /** The attributes `OnCreate` assigns before spawning. */
  datatype Config = Config(
    speed: real,
    leftBoundary: real,
    rightBoundary: real,
    count: nat,
    step: real,
    yScaleMin: real,
    yScaleMax: real,
    yPosition: real,
    windowScale: real)

  const Defaults: Config := Config(0.02, -10.0, 10.0, 15, 1.5, 4.0, 6.0, 5.0, 1.0)

  /** y-scale 5.0 is the middle of the screen, so both members together cover 10. */
  const CombinedScale: real := 10.0
  const XScale: real := 0.2

  /** The successive results of `random.uniform(yScaleMin, yScaleMax)`. */
  type Draws = nat -> real

  /** The controller's list, the next fresh entity id the engine hands out,
      and how many random draws have been consumed. */
  datatype Field = Field(pairs: seq<Pair>, nextId: nat, drawn: nat)

  ghost predicate DrawsInRange(cfg: Config, rng: Draws) {
    forall k: nat :: cfg.yScaleMin <= rng(k) <= cfg.yScaleMax
  }

  function LayoutX(cfg: Config, slot: nat): real {
    cfg.rightBoundary + (slot as real) * cfg.step
  }

  function Last(pairs: seq<Pair>): Pair
    requires |pairs| > 0
  {
    pairs[|pairs| - 1]
  }

  /** The identity of a pair: Python compares the tuple's entity objects. */
  function Identity(p: Pair): (nat, nat) {
    (p.top.id, p.bottom.id)
  }

  /** Every top member sits at +yPosition and every bottom member at -yPosition. */
  predicate Upright(cfg: Config, pairs: seq<Pair>) {
    forall j :: 0 <= j < |pairs| ==>
      pairs[j].top.position.y == cfg.yPosition && pairs[j].bottom.position.y == -cfg.yPosition
  }

  /** Every pair's members share the y-scale budget left by the window: the
      bottom member's scale is whatever the top member's leaves. */
  predicate Balanced(cfg: Config, pairs: seq<Pair>) {
    forall j :: 0 <= j < |pairs| ==>
      pairs[j].top.scale.y + pairs[j].bottom.scale.y == CombinedScale - cfg.windowScale
  }

  /** The layout `SpawnInitialObstacles` produces on an empty list. */
  predicate InitialLayout(cfg: Config, pairs: seq<Pair>) {
    && |pairs| == cfg.count
    && forall j :: 0 <= j < |pairs| ==>
         && pairs[j].top.position == Vec2(LayoutX(cfg, j), cfg.yPosition)
         && pairs[j].bottom.position == Vec2(LayoutX(cfg, j), -cfg.yPosition)
  }

  /** All entity ids in the field are distinct and were handed out before `bound`. */
  predicate DistinctIds(pairs: seq<Pair>, bound: nat) {
    && (forall a :: 0 <= a < |pairs| ==>
          pairs[a].top.id < bound && pairs[a].bottom.id < bound && pairs[a].top.id != pairs[a].bottom.id)
    && (forall a, b :: 0 <= a < |pairs| && 0 <= b < |pairs| && a != b ==>
          && pairs[a].top.id != pairs[b].top.id
          && pairs[a].bottom.id != pairs[b].bottom.id
          && pairs[a].top.id != pairs[b].bottom.id)
  }

  /** Pair `p` is what spawning at layout slot `slot` with entity id `id` and
      draw number `draw` produces. */
  predicate SpawnedAt(cfg: Config, rng: Draws, p: Pair, slot: nat, id: nat, draw: nat) {
    && p.top.id == id
    && p.bottom.id == id + 1
    && p.top.position == Vec2(LayoutX(cfg, slot), cfg.yPosition)
    && p.bottom.position == Vec2(LayoutX(cfg, slot), -cfg.yPosition)
    && p.top.scale == Vec2(XScale, rng(draw))
    && p.bottom.scale == Vec2(XScale, CombinedScale - rng(draw) - cfg.windowScale)
  }

  // ---------------------------------------------------------------------------
  // Spawning

  /** `RandomizeScale`: the top member gets the drawn y-scale, the bottom member
      the rest of the combined budget; nothing but the scales changes. */
  function RandomizeScale(cfg: Config, draw: real, top: Obstacle, bottom: Obstacle): (p: Pair)
    ensures p.top == top.(scale := Vec2(XScale, draw))
    ensures p.bottom == bottom.(scale := Vec2(XScale, p.bottom.scale.y))
    ensures p.top.scale.y + p.bottom.scale.y == CombinedScale - cfg.windowScale
  {
    Pair(top.(scale := Vec2(XScale, draw)),
         bottom.(scale := Vec2(XScale, CombinedScale - draw - cfg.windowScale)))
  }

  /** A freshly created entity after `SetRigid(True)`,
      `ConfigureRigidbody(1.0, 1.0, False)` and `SetPosition(x, y)`. */
  function SpawnMember(id: nat, x: real, y: real): Obstacle {
    Obstacle(id, Vec2(x, y), Vec2(1.0, 1.0), Some(Rigidbody(1.0, 1.0, false)))
  }

  /** `SpawnObstacle(x)`: two fresh entities at (x, +y) and (x, -y), scaled by
      one draw, appended as a pair. */
  function SpawnObstacle(cfg: Config, rng: Draws, f: Field, x: real): (r: Field)
    ensures |r.pairs| == |f.pairs| + 1 && r.pairs[..|f.pairs|] == f.pairs
    ensures Last(r.pairs).top.position == Vec2(x, cfg.yPosition)
    ensures Last(r.pairs).bottom.position == Vec2(x, -cfg.yPosition)
    ensures Identity(Last(r.pairs)) == (f.nextId, f.nextId + 1)
    ensures Last(r.pairs).top.scale.y == rng(f.drawn)
    ensures r.nextId == f.nextId + 2 && r.drawn == f.drawn + 1
  {
    var top := SpawnMember(f.nextId, x, cfg.yPosition);
    var bottom := SpawnMember(f.nextId + 1, x, -cfg.yPosition);
    var p := RandomizeScale(cfg, rng(f.drawn), top, bottom);
    Field(f.pairs + [p], f.nextId + 2, f.drawn + 1)
  }

  /** The loop of `SpawnInitialObstacles` from iteration `i` on. */
  function SpawnFrom(cfg: Config, rng: Draws, f: Field, i: nat): (r: Field)
    requires i <= cfg.count
    ensures |r.pairs| == |f.pairs| + (cfg.count - i)
    ensures r.pairs[..|f.pairs|] == f.pairs
    ensures r.nextId == f.nextId + 2 * (cfg.count - i)
    ensures r.drawn == f.drawn + (cfg.count - i)
    ensures forall j :: |f.pairs| <= j < |r.pairs| ==>
              SpawnedAt(cfg, rng, r.pairs[j], i + (j - |f.pairs|),
                        f.nextId + 2 * (j - |f.pairs|), f.drawn + (j - |f.pairs|))
    decreases cfg.count - i
  {
    if i == cfg.count then f
    else
      var g := SpawnObstacle(cfg, rng, f, LayoutX(cfg, i));
      var r := SpawnFrom(cfg, rng, g, i + 1);
      assert r.pairs[..|g.pairs|] == g.pairs;
      assert r.pairs[|f.pairs|] == g.pairs[|f.pairs|];
      r
  }

  /** `SpawnInitialObstacles`: appends `count` pairs at `rightBoundary + i*step`. */
  function SpawnInitialObstacles(cfg: Config, rng: Draws, f: Field): (r: Field)
    ensures |r.pairs| == |f.pairs| + cfg.count && r.pairs[..|f.pairs|] == f.pairs
    ensures forall j :: |f.pairs| <= j < |r.pairs| ==>
              SpawnedAt(cfg, rng, r.pairs[j], j - |f.pairs|,
                        f.nextId + 2 * (j - |f.pairs|), f.drawn + (j - |f.pairs|))
    ensures f.pairs == [] ==> InitialLayout(cfg, r.pairs) && Upright(cfg, r.pairs)
    ensures r.nextId == f.nextId + 2 * cfg.count && r.drawn == f.drawn + cfg.count
  {
    var r := SpawnFrom(cfg, rng, f, 0);
    if f.pairs == [] then
      SpawnedIsInitialLayout(cfg, rng, r.pairs, f.nextId, f.drawn);
      r
    else r
  }

  lemma SpawnedIsInitialLayout(cfg: Config, rng: Draws, pairs: seq<Pair>, id: nat, draw: nat)
    requires |pairs| == cfg.count
    requires forall j :: 0 <= j < |pairs| ==> SpawnedAt(cfg, rng, pairs[j], j - 0, id + 2 * (j - 0), draw + (j - 0))
    ensures InitialLayout(cfg, pairs) && Upright(cfg, pairs)
  {
    forall j | 0 <= j < |pairs|
      ensures pairs[j].top.position == Vec2(LayoutX(cfg, j), cfg.yPosition)
      ensures pairs[j].bottom.position == Vec2(LayoutX(cfg, j), -cfg.yPosition)
    {
      assert SpawnedAt(cfg, rng, pairs[j], j - 0, id + 2 * (j - 0), draw + (j - 0));
    }
  }

  /** `OnCreate`: the default constants and the initial layout spawned on an
      empty list: 15 pairs at the layout slots, upright and within the scale
      budget. */
  function OnCreate(rng: Draws, nextId: nat, drawn: nat): (r: Field)
    ensures |r.pairs| == 15 && r.nextId == nextId + 30 && r.drawn == drawn + 15
    ensures InitialLayout(Defaults, r.pairs)
    ensures Upright(Defaults, r.pairs) && Balanced(Defaults, r.pairs)
  {
    var g := FreshLayout(Defaults, rng, nextId, drawn);
    FreshlySpawnedLayout(Defaults, rng, g, nextId, drawn);
    FreshlySpawnedScales(Defaults, rng, g, nextId, drawn);
    g
  }

  /** After `OnCreate` there are 15 pairs from x = 10 in steps of 1.5, tops at
      y = 5 and bottoms at y = -5. */
  lemma OnCreatePositions(rng: Draws, nextId: nat, drawn: nat)
    ensures var r := OnCreate(rng, nextId, drawn);
      && |r.pairs| == 15
      && forall j :: 0 <= j < |r.pairs| ==>
           && r.pairs[j].top.position == Vec2(10.0 + (j as real) * 1.5, 5.0)
           && r.pairs[j].bottom.position == Vec2(10.0 + (j as real) * 1.5, -5.0)
  {
    DefaultLayoutPositions(rng, OnCreate(rng, nextId, drawn), nextId, drawn);
  }

  lemma DefaultLayoutPositions(rng: Draws, g: Field, nextId: nat, drawn: nat)
    requires FreshlySpawned(Defaults, rng, g, nextId, drawn)
    ensures |g.pairs| == 15
    ensures forall j :: 0 <= j < |g.pairs| ==>
      && g.pairs[j].top.position == Vec2(10.0 + (j as real) * 1.5, 5.0)
      && g.pairs[j].bottom.position == Vec2(10.0 + (j as real) * 1.5, -5.0)
  {
    FreshlySpawnedLayout(Defaults, rng, g, nextId, drawn);
    forall j | 0 <= j < 15
      ensures g.pairs[j].top.position == Vec2(10.0 + (j as real) * 1.5, 5.0)
      ensures g.pairs[j].bottom.position == Vec2(10.0 + (j as real) * 1.5, -5.0)
    {
      assert g.pairs[j].top.position == Vec2(LayoutX(Defaults, j), Defaults.yPosition);
      assert g.pairs[j].bottom.position == Vec2(LayoutX(Defaults, j), -Defaults.yPosition);
    }
  }

  /** Each pair `OnCreate` spawns covers a y-scale of 9 between its two members,
      and when the draws stay within [4, 6] the bottom member's share lies in [3, 5]. */
  lemma OnCreateScales(rng: Draws, nextId: nat, drawn: nat)
    ensures var r := OnCreate(rng, nextId, drawn);
      forall j :: 0 <= j < |r.pairs| ==>
        && r.pairs[j].top.scale.y + r.pairs[j].bottom.scale.y == 9.0
        && (DrawsInRange(Defaults, rng) ==> 3.0 <= r.pairs[j].bottom.scale.y <= 5.0)
  {
    DefaultLayoutScales(rng, OnCreate(rng, nextId, drawn), nextId, drawn);
  }

  lemma DefaultLayoutScales(rng: Draws, g: Field, nextId: nat, drawn: nat)
    requires FreshlySpawned(Defaults, rng, g, nextId, drawn)
    ensures forall j :: 0 <= j < |g.pairs| ==>
      && g.pairs[j].top.scale.y + g.pairs[j].bottom.scale.y == 9.0
      && (DrawsInRange(Defaults, rng) ==> 3.0 <= g.pairs[j].bottom.scale.y <= 5.0)
  {
    FreshlySpawnedScales(Defaults, rng, g, nextId, drawn);
    assert CombinedScale - Defaults.windowScale == 9.0;
    assert CombinedScale - Defaults.yScaleMax - Defaults.windowScale == 3.0;
    assert CombinedScale - Defaults.yScaleMin - Defaults.windowScale == 5.0;
  }

  // ---------------------------------------------------------------------------
  // Recycling

  /** `ShuffleObstacle(i)`: member k of pair i moves to (anchor member k's x + step,
      anchor member k's y), where the anchor is the LAST pair in list order; the
      scales are redrawn and the pair is removed and appended. `list.remove`
      removes the first element equal to the pair, which is slot i because
      every pair holds entities of its own (see `TickKeepsDistinctIds`). */
  function ShuffleObstacle(cfg: Config, rng: Draws, f: Field, i: nat): (r: Field)
    requires i < |f.pairs|
    ensures |r.pairs| == |f.pairs|
    ensures r.pairs == f.pairs[..i] + f.pairs[i + 1..] + [Last(r.pairs)]
    ensures Identity(Last(r.pairs)) == Identity(f.pairs[i])
    ensures Last(r.pairs).top.position
            == Vec2(Last(f.pairs).top.position.x + cfg.step, Last(f.pairs).top.position.y)
    ensures Last(r.pairs).bottom.position
            == Vec2(Last(f.pairs).bottom.position.x + cfg.step, Last(f.pairs).bottom.position.y)
    ensures Last(r.pairs).top.scale == Vec2(XScale, rng(f.drawn))
    ensures Last(r.pairs).top.scale.y + Last(r.pairs).bottom.scale.y == CombinedScale - cfg.windowScale
    ensures r.nextId == f.nextId && r.drawn == f.drawn + 1
  {
    var anchor := Last(f.pairs);
    var p := f.pairs[i];
    var top := p.top.(position := Vec2(anchor.top.position.x + cfg.step, anchor.top.position.y));
    var bottom := p.bottom.(position := Vec2(anchor.bottom.position.x + cfg.step, anchor.bottom.position.y));
    var q := RandomizeScale(cfg, rng(f.drawn), top, bottom);
    Field(f.pairs[..i] + f.pairs[i + 1..] + [q], f.nextId, f.drawn + 1)
  }

  /** The movement of one pair: both members slide left by `speed`. */
  function Slide(cfg: Config, p: Pair): (q: Pair)
    ensures q.top.position == Vec2(p.top.position.x - cfg.speed, p.top.position.y)
    ensures q.bottom.position == Vec2(p.bottom.position.x - cfg.speed, p.bottom.position.y)
    ensures Identity(q) == Identity(p) && q.top.scale == p.top.scale && q.bottom.scale == p.bottom.scale
  {
    Pair(p.top.(position := Vec2(p.top.position.x - cfg.speed, p.top.position.y)),
         p.bottom.(position := Vec2(p.bottom.position.x - cfg.speed, p.bottom.position.y)))
  }

  /** The recycle test: only the top member is looked at, and the bound is strict. */
  predicate OutOfBounds(cfg: Config, p: Pair) {
    p.top.position.x < cfg.leftBoundary
  }

  /** Iteration `k` onwards of `for obstacleIndex, obstaclesPair in enumerate(self.obstacles)`.
      Python's `enumerate` reads slot k of the list as it is at that moment,
      so the loop sees the reordering done by earlier recycles. */
  function TickFrom(cfg: Config, rng: Draws, f: Field, k: nat): (r: Field)
    ensures |r.pairs| == |f.pairs|
    ensures r.nextId == f.nextId && r.drawn >= f.drawn
    decreases |f.pairs| - k
  {
    if k >= |f.pairs| then f
    else
      var moved := f.(pairs := f.pairs[k := Slide(cfg, f.pairs[k])]);
      if OutOfBounds(cfg, moved.pairs[k]) then TickFrom(cfg, rng, ShuffleObstacle(cfg, rng, moved, k), k + 1)
      else TickFrom(cfg, rng, moved, k + 1)
  }

  /** `OnFixedUpdate` of the controller. */
  function Tick(cfg: Config, rng: Draws, f: Field): (r: Field)
    ensures |r.pairs| == |f.pairs|
  {
    TickFrom(cfg, rng, f, 0)
  }

  /** `n` consecutive fixed ticks. */
  function Ticks(cfg: Config, rng: Draws, f: Field, n: nat): Field
    decreases n
  {
    if n == 0 then f else Ticks(cfg, rng, Tick(cfg, rng, f), n - 1)
  }

  /** The identities of a list's pairs, in list order. */
  function Identities(pairs: seq<Pair>): (ids: seq<(nat, nat)>)
    ensures |ids| == |pairs|
    ensures forall j :: 0 <= j < |pairs| ==> ids[j] == Identity(pairs[j])
  {
    seq(|pairs|, j requires 0 <= j < |pairs| => Identity(pairs[j]))
  }

  /** With distinct entities no earlier pair equals pair `i`, so `list.remove`
      takes out exactly slot `i`. */
  lemma RemoveTakesSlot(pairs: seq<Pair>, bound: nat, i: nat)
    requires DistinctIds(pairs, bound) && i < |pairs|
    ensures forall j :: 0 <= j < i ==> Identity(pairs[j]) != Identity(pairs[i])
  {
  }

  /** Recycling a pair permutes the identities of the list: nothing is lost,
      nothing is duplicated. */
  lemma ShuffleKeepsIdentities(cfg: Config, rng: Draws, f: Field, i: nat)
    requires i < |f.pairs|
    ensures multiset(Identities(ShuffleObstacle(cfg, rng, f, i).pairs)) == multiset(Identities(f.pairs))
  {
    var a := f.pairs;
    var r := ShuffleObstacle(cfg, rng, f, i);
    assert Identities(r.pairs) == Identities(a[..i]) + Identities(a[i + 1..]) + [Identity(a[i])];
    assert Identities(a) == Identities(a[..i]) + [Identity(a[i])] + Identities(a[i + 1..]);
  }

  lemma SlideKeepsIdentities(cfg: Config, pairs: seq<Pair>, k: nat)
    requires k < |pairs|
    ensures Identities(pairs[k := Slide(cfg, pairs[k])]) == Identities(pairs)
  {
  }

  /** Ticking from iteration `k` permutes the identities of the list. */
  lemma {:induction false} TickFromKeepsIdentities(cfg: Config, rng: Draws, f: Field, k: nat)
    ensures multiset(Identities(TickFrom(cfg, rng, f, k).pairs)) == multiset(Identities(f.pairs))
    decreases |f.pairs| - k
  {
    if k < |f.pairs| {
      var moved := f.(pairs := f.pairs[k := Slide(cfg, f.pairs[k])]);
      SlideKeepsIdentities(cfg, f.pairs, k);
      if OutOfBounds(cfg, moved.pairs[k]) {
        ShuffleKeepsIdentities(cfg, rng, moved, k);
        TickFromKeepsIdentities(cfg, rng, ShuffleObstacle(cfg, rng, moved, k), k + 1);
      } else {
        TickFromKeepsIdentities(cfg, rng, moved, k + 1);
      }
    }
  }

  /** A fixed tick never loses, duplicates or invents a pair. */
  lemma TickKeepsIdentities(cfg: Config, rng: Draws, f: Field)
    ensures multiset(Identities(Tick(cfg, rng, f).pairs)) == multiset(Identities(f.pairs))
  {
    TickFromKeepsIdentities(cfg, rng, f, 0);
  }

  /** Where slot `j` of the list after `ShuffleObstacle(i)` came from. */
  function ShuffleSource(n: nat, i: nat, j: nat): nat {
    if j < i then j else if j < n - 1 then j + 1 else i
  }

  lemma ShuffleKeepsDistinctIds(cfg: Config, rng: Draws, f: Field, i: nat)
    requires i < |f.pairs| && DistinctIds(f.pairs, f.nextId)
    ensures DistinctIds(ShuffleObstacle(cfg, rng, f, i).pairs, f.nextId)
  {
    var n := |f.pairs|;
    var r := ShuffleObstacle(cfg, rng, f, i);
    forall j | 0 <= j < n
      ensures ShuffleSource(n, i, j) < n
      ensures Identity(r.pairs[j]) == Identity(f.pairs[ShuffleSource(n, i, j)])
    {
      if j < i {
        assert r.pairs[j] == f.pairs[..i][j];
      } else if j < n - 1 {
        assert r.pairs[j] == f.pairs[i + 1..][j - i];
      }
    }
    ReindexKeepsDistinctIds(f.pairs, r.pairs, f.nextId, i);
  }

  /** Moving pair `i` to the end, as `ShuffleSource` describes, keeps the
      entities distinct. */
  lemma ReindexKeepsDistinctIds(pairs: seq<Pair>, moved: seq<Pair>, bound: nat, i: nat)
    requires i < |pairs| == |moved| && DistinctIds(pairs, bound)
    requires forall j :: 0 <= j < |moved| ==>
      ShuffleSource(|pairs|, i, j) < |pairs| && Identity(moved[j]) == Identity(pairs[ShuffleSource(|pairs|, i, j)])
    ensures DistinctIds(moved, bound)
  {
    var n := |pairs|;
    forall a, b | 0 <= a < n && 0 <= b < n && a != b
      ensures && moved[a].top.id != moved[b].top.id
              && moved[a].bottom.id != moved[b].bottom.id
              && moved[a].top.id != moved[b].bottom.id
    {
      var sa, sb := ShuffleSource(n, i, a), ShuffleSource(n, i, b);
      assert sa != sb;
      assert Identity(moved[a]) == Identity(pairs[sa]) && Identity(moved[b]) == Identity(pairs[sb]);
    }
  }

  /** Ticking from iteration `k` keeps the entities distinct. */
  lemma {:induction false} TickFromKeepsDistinctIds(cfg: Config, rng: Draws, f: Field, k: nat)
    requires DistinctIds(f.pairs, f.nextId)
    ensures DistinctIds(TickFrom(cfg, rng, f, k).pairs, f.nextId)
    decreases |f.pairs| - k
  {
    if k < |f.pairs| {
      var moved := f.(pairs := f.pairs[k := Slide(cfg, f.pairs[k])]);
      assert DistinctIds(moved.pairs, moved.nextId);
      if OutOfBounds(cfg, moved.pairs[k]) {
        ShuffleKeepsDistinctIds(cfg, rng, moved, k);
        TickFromKeepsDistinctIds(cfg, rng, ShuffleObstacle(cfg, rng, moved, k), k + 1);
      } else {
        TickFromKeepsDistinctIds(cfg, rng, moved, k + 1);
      }
    }
  }

  /** Ticking from iteration `k` keeps tops at +y and bottoms at -y: a recycled
      pair takes its heights from the anchor, which is upright itself. */
  lemma {:induction false} TickFromKeepsUpright(cfg: Config, rng: Draws, f: Field, k: nat)
    requires Upright(cfg, f.pairs)
    ensures Upright(cfg, TickFrom(cfg, rng, f, k).pairs)
    decreases |f.pairs| - k
  {
    if k < |f.pairs| {
      var moved := f.(pairs := f.pairs[k := Slide(cfg, f.pairs[k])]);
      assert Upright(cfg, moved.pairs);
      if OutOfBounds(cfg, moved.pairs[k]) {
        var g := ShuffleObstacle(cfg, rng, moved, k);
        forall j | 0 <= j < |g.pairs| - 1
          ensures g.pairs[j] == moved.pairs[ShuffleSource(|g.pairs|, k, j)]
        {
          if j < k {
            assert g.pairs[j] == moved.pairs[..k][j];
          } else {
            assert g.pairs[j] == moved.pairs[k + 1..][j - k];
          }
        }
        assert Upright(cfg, g.pairs);
        TickFromKeepsUpright(cfg, rng, g, k + 1);
      } else {
        TickFromKeepsUpright(cfg, rng, moved, k + 1);
      }
    }
  }

  /** Ticking from iteration `k` keeps every pair's scale budget: sliding
      keeps the scales and a recycled pair is rescaled by `RandomizeScale`. */
  lemma {:induction false} TickFromKeepsBalanced(cfg: Config, rng: Draws, f: Field, k: nat)
    requires Balanced(cfg, f.pairs)
    ensures Balanced(cfg, TickFrom(cfg, rng, f, k).pairs)
    decreases |f.pairs| - k
  {
    if k < |f.pairs| {
      var moved := f.(pairs := f.pairs[k := Slide(cfg, f.pairs[k])]);
      assert Balanced(cfg, moved.pairs);
      if OutOfBounds(cfg, moved.pairs[k]) {
        var g := ShuffleObstacle(cfg, rng, moved, k);
        forall j | 0 <= j < |g.pairs| - 1
          ensures g.pairs[j] == moved.pairs[ShuffleSource(|g.pairs|, k, j)]
        {
          if j < k {
            assert g.pairs[j] == moved.pairs[..k][j];
          } else {
            assert g.pairs[j] == moved.pairs[k + 1..][j - k];
          }
        }
        assert Balanced(cfg, g.pairs);
        TickFromKeepsBalanced(cfg, rng, g, k + 1);
      } else {
        TickFromKeepsBalanced(cfg, rng, moved, k + 1);
      }
    }
  }

  /** Every tick after `OnCreate` or `Restart` leaves the field upright, with
      every pair within its scale budget and distinct entities. */
  lemma TickKeepsInvariants(cfg: Config, rng: Draws, f: Field)
    requires Upright(cfg, f.pairs) && Balanced(cfg, f.pairs) && DistinctIds(f.pairs, f.nextId)
    ensures var r := Tick(cfg, rng, f);
      Upright(cfg, r.pairs) && Balanced(cfg, r.pairs) && DistinctIds(r.pairs, r.nextId)
  {
    TickFromKeepsUpright(cfg, rng, f, 0);
    TickFromKeepsBalanced(cfg, rng, f, 0);
    TickFromKeepsDistinctIds(cfg, rng, f, 0);
  }

  /** When no pair crosses the boundary, iterations `k` on slide every later
      pair once, in place, and draw nothing. */
  lemma {:induction false} TickFromWithoutRecycle(cfg: Config, rng: Draws, f: Field, k: nat)
    requires k <= |f.pairs|
    requires forall j :: k <= j < |f.pairs| ==> !OutOfBounds(cfg, Slide(cfg, f.pairs[j]))
    ensures var r := TickFrom(cfg, rng, f, k);
      && r.drawn == f.drawn
      && (forall j :: 0 <= j < k ==> r.pairs[j] == f.pairs[j])
      && (forall j :: k <= j < |f.pairs| ==> r.pairs[j] == Slide(cfg, f.pairs[j]))
    decreases |f.pairs| - k
  {
    if k < |f.pairs| {
      var moved := f.(pairs := f.pairs[k := Slide(cfg, f.pairs[k])]);
      TickFromWithoutRecycle(cfg, rng, moved, k + 1);
    }
  }

  /** A tick in which nothing is recycled moves every pair left by `speed`. */
  lemma TickWithoutRecycle(cfg: Config, rng: Draws, f: Field)
    requires forall j :: 0 <= j < |f.pairs| ==> !OutOfBounds(cfg, Slide(cfg, f.pairs[j]))
    ensures var r := Tick(cfg, rng, f);
      && r.drawn == f.drawn
      && forall j :: 0 <= j < |f.pairs| ==>
           && r.pairs[j].top.position.x == f.pairs[j].top.position.x - cfg.speed
           && r.pairs[j].bottom.position.x == f.pairs[j].bottom.position.x - cfg.speed
           && Identity(r.pairs[j]) == Identity(f.pairs[j])
  {
    TickFromWithoutRecycle(cfg, rng, f, 0);
  }

  /** The loop enumerates the list it reorders. When the pair at slot `k` is
      recycled, the pair behind it moves into slot `k` and is not slid this
      tick, the pairs after it are slid one slot earlier, and the recycled pair
      goes last, one step past the old last pair, where it is slid once more.
      Here no later pair crosses the boundary, the recycled one included. */
  lemma RecycleSkipsNext(cfg: Config, rng: Draws, f: Field, k: nat)
    requires k + 1 < |f.pairs|
    requires OutOfBounds(cfg, Slide(cfg, f.pairs[k]))
    requires forall j :: k < j < |f.pairs| ==> !OutOfBounds(cfg, Slide(cfg, f.pairs[j]))
    requires !(Last(f.pairs).top.position.x + cfg.step - cfg.speed < cfg.leftBoundary)
    ensures var r := TickFrom(cfg, rng, f, k);
      var n := |f.pairs|;
      && r.drawn == f.drawn + 1
      && (forall j :: 0 <= j < k ==> r.pairs[j] == f.pairs[j])
      && r.pairs[k] == f.pairs[k + 1]
      && (forall j :: k < j < n - 1 ==> r.pairs[j] == Slide(cfg, f.pairs[j + 1]))
      && Identity(r.pairs[n - 1]) == Identity(f.pairs[k])
      && r.pairs[n - 1].top.position
         == Vec2(Last(f.pairs).top.position.x + cfg.step - cfg.speed, Last(f.pairs).top.position.y)
      && r.pairs[n - 1].bottom.position
         == Vec2(Last(f.pairs).bottom.position.x + cfg.step - cfg.speed, Last(f.pairs).bottom.position.y)
      && r.pairs[n - 1].top.scale == Vec2(XScale, rng(f.drawn))
  {
    var n := |f.pairs|;
    var moved := f.(pairs := f.pairs[k := Slide(cfg, f.pairs[k])]);
    assert Last(moved.pairs) == Last(f.pairs);
    var g := ShuffleObstacle(cfg, rng, moved, k);
    assert TickFrom(cfg, rng, f, k) == TickFrom(cfg, rng, g, k + 1);
    forall j | 0 <= j < n - 1
      ensures g.pairs[j] == if j < k then f.pairs[j] else f.pairs[j + 1]
    {
      if j < k {
        assert g.pairs[j] == moved.pairs[..k][j];
      } else {
        assert g.pairs[j] == moved.pairs[k + 1..][j - k];
      }
    }
    TickFromWithoutRecycle(cfg, rng, g, k + 1);
  }

  /** A default pair with entity ids `id`, `id + 1` at horizontal position `x`. */
  function DefaultPair(id: nat, x: real): Pair {
    Pair(SpawnMember(id, x, 5.0), SpawnMember(id + 1, x, -5.0))
  }

  /** Because the loop enumerates the list it reorders, the pair that moves into
      the recycled slot is skipped that tick: with pairs at x = -9.99 and x = 0,
      the first is recycled to 1.5 and then slid again at the end of the list,
      while the second does not move. */
  lemma RecycleSkipsNextPair(rng: Draws)
    ensures var r := Tick(Defaults, rng, Field([DefaultPair(0, -9.99), DefaultPair(2, 0.0)], 4, 0));
      && Identities(r.pairs) == [(2, 3), (0, 1)]
      && r.pairs[0].top.position == Vec2(0.0, 5.0)
      && r.pairs[1].top.position == Vec2(1.48, 5.0)
      && r.drawn == 1
  {
    var f := Field([DefaultPair(0, -9.99), DefaultPair(2, 0.0)], 4, 0);
    var m0 := f.(pairs := f.pairs[0 := Slide(Defaults, f.pairs[0])]);
    assert OutOfBounds(Defaults, m0.pairs[0]);
    var g := ShuffleObstacle(Defaults, rng, m0, 0);
    assert g.pairs[0] == DefaultPair(2, 0.0);
    assert g.pairs[1].top.position == Vec2(1.5, 5.0);
    var m1 := g.(pairs := g.pairs[1 := Slide(Defaults, g.pairs[1])]);
    assert !OutOfBounds(Defaults, m1.pairs[1]);
    assert TickFrom(Defaults, rng, f, 0) == TickFrom(Defaults, rng, g, 1) == TickFrom(Defaults, rng, m1, 2) == m1;
  }

  // ---------------------------------------------------------------------------
  // Restart

  /** The entity handles passed to `DestroyEntity`, top before bottom, in list order. */
  function MemberIds(pairs: seq<Pair>): (ids: seq<nat>)
    ensures |ids| == 2 * |pairs|
    ensures forall j :: 0 <= j < |pairs| ==> ids[2 * j] == pairs[j].top.id && ids[2 * j + 1] == pairs[j].bottom.id
  {
    if |pairs| == 0 then []
    else
      var rest := MemberIds(pairs[1..]);
      assert forall j :: 1 <= j < |pairs| ==> pairs[j] == pairs[1..][j - 1];
      [pairs[0].top.id, pairs[0].bottom.id] + rest
  }

  datatype Restarted = Restarted(field: Field, destroyed: seq<nat>)

  /** `g` is the initial layout, spawned on an empty list with entity ids
      from `nextId` and draws from number `drawn` on. */
  predicate FreshlySpawned(cfg: Config, rng: Draws, g: Field, nextId: nat, drawn: nat) {
    && |g.pairs| == cfg.count
    && g.nextId == nextId + 2 * cfg.count
    && g.drawn == drawn + cfg.count
    && forall j :: 0 <= j < |g.pairs| ==> SpawnedAt(cfg, rng, g.pairs[j], j, nextId + 2 * j, drawn + j)
  }

  /** The list `SpawnInitialObstacles` builds after `self.obstacles = []`. */
  function FreshLayout(cfg: Config, rng: Draws, nextId: nat, drawn: nat): (g: Field)
    ensures FreshlySpawned(cfg, rng, g, nextId, drawn)
  {
    var g := SpawnInitialObstacles(cfg, rng, Field([], nextId, drawn));
    SpawnedOnEmptyIsFresh(cfg, rng, Field([], nextId, drawn), g);
    g
  }

  lemma SpawnedOnEmptyIsFresh(cfg: Config, rng: Draws, f: Field, g: Field)
    requires f.pairs == []
    requires |g.pairs| == |f.pairs| + cfg.count
    requires g.nextId == f.nextId + 2 * cfg.count && g.drawn == f.drawn + cfg.count
    requires forall j :: |f.pairs| <= j < |g.pairs| ==>
      SpawnedAt(cfg, rng, g.pairs[j], j - |f.pairs|, f.nextId + 2 * (j - |f.pairs|), f.drawn + (j - |f.pairs|))
    ensures FreshlySpawned(cfg, rng, g, f.nextId, f.drawn)
  {
    forall j | 0 <= j < |g.pairs|
      ensures SpawnedAt(cfg, rng, g.pairs[j], j, f.nextId + 2 * j, f.drawn + j)
    {
      assert SpawnedAt(cfg, rng, g.pairs[j], j - |f.pairs|, f.nextId + 2 * (j - |f.pairs|), f.drawn + (j - |f.pairs|));
    }
  }

  /** A freshly spawned list sits at the layout positions, tops at +y. */
  lemma FreshlySpawnedLayout(cfg: Config, rng: Draws, g: Field, nextId: nat, drawn: nat)
    requires FreshlySpawned(cfg, rng, g, nextId, drawn)
    ensures InitialLayout(cfg, g.pairs) && Upright(cfg, g.pairs)
  {
    forall a | 0 <= a < |g.pairs|
      ensures g.pairs[a].top.position == Vec2(LayoutX(cfg, a), cfg.yPosition)
      ensures g.pairs[a].bottom.position == Vec2(LayoutX(cfg, a), -cfg.yPosition)
    {
      assert SpawnedAt(cfg, rng, g.pairs[a], a, nextId + 2 * a, drawn + a);
    }
  }

  /** The two members of a freshly spawned pair share the y-scale budget, and
      draws within [yScaleMin, yScaleMax] bound the bottom member's share. */
  lemma FreshlySpawnedScales(cfg: Config, rng: Draws, g: Field, nextId: nat, drawn: nat)
    requires FreshlySpawned(cfg, rng, g, nextId, drawn)
    ensures forall j :: 0 <= j < |g.pairs| ==>
      && g.pairs[j].top.scale.y + g.pairs[j].bottom.scale.y == CombinedScale - cfg.windowScale
      && (DrawsInRange(cfg, rng) ==>
            CombinedScale - cfg.yScaleMax - cfg.windowScale <= g.pairs[j].bottom.scale.y
            <= CombinedScale - cfg.yScaleMin - cfg.windowScale)
  {
    forall j | 0 <= j < |g.pairs|
      ensures g.pairs[j].top.scale.y + g.pairs[j].bottom.scale.y == CombinedScale - cfg.windowScale
      ensures DrawsInRange(cfg, rng) ==>
            CombinedScale - cfg.yScaleMax - cfg.windowScale <= g.pairs[j].bottom.scale.y
            <= CombinedScale - cfg.yScaleMin - cfg.windowScale
    {
      assert SpawnedAt(cfg, rng, g.pairs[j], j, nextId + 2 * j, drawn + j);
      if DrawsInRange(cfg, rng) {
        assert cfg.yScaleMin <= rng(drawn + j) <= cfg.yScaleMax;
      }
    }
  }

  /** A freshly spawned list holds only new, pairwise distinct entities. */
  lemma FreshlySpawnedDistinct(cfg: Config, rng: Draws, g: Field, nextId: nat, drawn: nat)
    requires FreshlySpawned(cfg, rng, g, nextId, drawn)
    ensures DistinctIds(g.pairs, g.nextId)
    ensures forall a :: 0 <= a < |g.pairs| ==> g.pairs[a].top.id >= nextId && g.pairs[a].bottom.id >= nextId
  {
    forall a | 0 <= a < |g.pairs|
      ensures g.pairs[a].top.id == nextId + 2 * a && g.pairs[a].bottom.id == nextId + 2 * a + 1
    {
      assert SpawnedAt(cfg, rng, g.pairs[a], a, nextId + 2 * a, drawn + a);
    }
  }

  /** `Restart`: every old entity is destroyed, the list is emptied and the
      initial layout is spawned again with fresh entities and fresh draws. */
  function Restart(cfg: Config, rng: Draws, f: Field): (r: Restarted)
    ensures |r.destroyed| == 2 * |f.pairs|
    ensures forall j :: 0 <= j < |f.pairs| ==>
              r.destroyed[2 * j] == f.pairs[j].top.id && r.destroyed[2 * j + 1] == f.pairs[j].bottom.id
    ensures FreshlySpawned(cfg, rng, r.field, f.nextId, f.drawn)
  {
    Restarted(FreshLayout(cfg, rng, f.nextId, f.drawn), MemberIds(f.pairs))
  }

  /** Any number of fixed ticks keeps the list's length, its upright layout,
      every pair's scale budget and its distinct entities. */
  lemma {:induction false} TicksKeepInvariants(cfg: Config, rng: Draws, f: Field, n: nat)
    requires Upright(cfg, f.pairs) && Balanced(cfg, f.pairs) && DistinctIds(f.pairs, f.nextId)
    ensures var r := Ticks(cfg, rng, f, n);
      && |r.pairs| == |f.pairs|
      && Upright(cfg, r.pairs) && Balanced(cfg, r.pairs) && DistinctIds(r.pairs, r.nextId)
    decreases n
  {
    if n > 0 {
      TickKeepsInvariants(cfg, rng, f);
      TicksKeepInvariants(cfg, rng, Tick(cfg, rng, f), n - 1);
    }
  }

  /** Whatever state it starts from, `Restart` lays the field out at the
      initial positions with entities none of which existed before. */
  lemma RestartLaysOutAfresh(cfg: Config, rng: Draws, f: Field)
    ensures var g := Restart(cfg, rng, f).field;
      && InitialLayout(cfg, g.pairs) && Upright(cfg, g.pairs)
      && DistinctIds(g.pairs, g.nextId)
      && forall j :: 0 <= j < |g.pairs| ==> g.pairs[j].top.id >= f.nextId && g.pairs[j].bottom.id >= f.nextId
  {
    var g := Restart(cfg, rng, f).field;
    FreshlySpawnedLayout(cfg, rng, g, f.nextId, f.drawn);
    FreshlySpawnedDistinct(cfg, rng, g, f.nextId, f.drawn);
  }

  /** Where a restart puts the pairs does not depend on the field it starts
      from: any two restarts, two in a row among them, agree on every
      position, and only the entities and the drawn scales differ. */
  lemma RestartPositionsIgnoreState(cfg: Config, rng: Draws, f: Field, h: Field)
    ensures |Restart(cfg, rng, h).field.pairs| == |Restart(cfg, rng, f).field.pairs|
    ensures forall j :: 0 <= j < |Restart(cfg, rng, h).field.pairs| ==>
      && Restart(cfg, rng, h).field.pairs[j].top.position == Restart(cfg, rng, f).field.pairs[j].top.position
      && Restart(cfg, rng, h).field.pairs[j].bottom.position == Restart(cfg, rng, f).field.pairs[j].bottom.position
      && Restart(cfg, rng, h).field.pairs[j].top.scale.y == rng(h.drawn + j)
  {
    var a := Restart(cfg, rng, f).field;
    var b := Restart(cfg, rng, h).field;
    FreshLayoutsAgree(cfg, rng, a, b, f.nextId, f.drawn, h.nextId, h.drawn);
  }

  lemma FreshLayoutsAgree(cfg: Config, rng: Draws, g1: Field, g2: Field, id1: nat, d1: nat, id2: nat, d2: nat)
    requires FreshlySpawned(cfg, rng, g1, id1, d1) && FreshlySpawned(cfg, rng, g2, id2, d2)
    ensures |g2.pairs| == |g1.pairs|
    ensures forall j :: 0 <= j < |g2.pairs| ==>
      && g2.pairs[j].top.position == g1.pairs[j].top.position
      && g2.pairs[j].bottom.position == g1.pairs[j].bottom.position
      && g2.pairs[j].top.scale.y == rng(d2 + j)
  {
    forall j | 0 <= j < |g2.pairs|
      ensures g2.pairs[j].top.position == g1.pairs[j].top.position
      ensures g2.pairs[j].bottom.position == g1.pairs[j].bottom.position
      ensures g2.pairs[j].top.scale.y == rng(d2 + j)
    {
      assert SpawnedAt(cfg, rng, g1.pairs[j], j, id1 + 2 * j, d1 + j);
      assert SpawnedAt(cfg, rng, g2.pairs[j], j, id2 + 2 * j, d2 + j);
    }
  }
}
