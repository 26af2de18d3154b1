/**
 * PopulateRoomScene as the source runs it: the scene's world list is
 * cleared, the triple grid loop adds each site's atom and bonds one model at
 * a time, and the light list is reset and refilled with three lights.
 * The loop is proved to build exactly Lattice.Population.
 */
module Scenes {
  import opened Grid
  import opened CppInt
  import opened Lattice

  /** The part of the renderer's Scene that population touches: its world list and its light count. */
  class Scene {
    var world: seq<Entry>
    var lightCount: nat

    constructor ()
      ensures world == [] && lightCount == 0
    {
      world := [];
      lightCount := 0;
    }

    /** `World.Clear()`: drops every model and keeps the lights. */
    method Clear()
      modifies this
      ensures world == [] && lightCount == old(lightCount)
    {
      world := [];
    }

    /** `World.Add(m)`: appends one model and keeps the lights. */
    method Add(e: Entry)
      modifies this
      ensures world == old(world) + [e] && lightCount == old(lightCount)
    {
      world := world + [e];
    }

    /** `AddLight(pos, color)`: one more light; position and colour are not modelled. */
    method AddLight()
      modifies this
      ensures lightCount == old(lightCount) + 1 && world == old(world)
    {
      lightCount := lightCount + 1;
    }
  }

  /** Adds a bond when its guard holds, as each `if (...) addBond(...)` of the switch does. */
  method AddBondIf(scene: Scene, guard: bool, from: Site, to: Site)
    modifies scene
    ensures scene.world == old(scene.world) + BondIf(guard, from, to)
    ensures scene.lightCount == old(scene.lightCount)
  {
    if guard {
      scene.Add(Bond(from, to));
    }
  }

  /** One pass of the innermost loop body: the structure switch at site (ix, iy, iz). */
  method AddSiteEntries(scene: Scene, b: SceneBuilder, cells: int, ix: int, iy: int, iz: int)
    modifies scene
    ensures scene.world == old(scene.world) + SiteEntries(b, cells, Site(ix, iy, iz))
    ensures scene.lightCount == old(scene.lightCount)
  {
    var p := Site(ix, iy, iz);
    ghost var before := scene.world;
    if b.drawAtom && (b.structure != Diamond || DiamondAccepts(cells, p)) {
      scene.Add(Atom(p));
    }
    ghost var atoms := scene.world;
    assert atoms == before + AtomsAt(b, cells, p);
    if b.drawBond {
      match b.structure
      case FCC => AddFccBonds(scene, cells, ix, iy, iz);
      case BCC => AddBccBonds(scene, cells, ix, iy, iz);
      case Diamond => assert BondsAt(b, cells, p) == [];
      case _ => AddCubeBonds(scene, cells, ix, iy, iz);
    } else {
      assert BondsAt(b, cells, p) == [];
    }
    assert scene.world == atoms + BondsAt(b, cells, p);
    AppendAssoc(before, AtomsAt(b, cells, p), BondsAt(b, cells, p));
  }

  /** The Cube case (also reached through `default:`): bonds from the predecessors along x, y and z. */
  method AddCubeBonds(scene: Scene, cells: int, ix: int, iy: int, iz: int)
    modifies scene
    ensures scene.world == old(scene.world) + CubeBonds(cells, Site(ix, iy, iz))
    ensures scene.lightCount == old(scene.lightCount)
  {
    var p := Site(ix, iy, iz);
    AddBondIf(scene, -cells <= ix - 1, Site(ix - 1, iy, iz), p);
    AddBondIf(scene, -cells <= iy - 1, Site(ix, iy - 1, iz), p);
    AddBondIf(scene, -cells <= iz - 1, Site(ix, iy, iz - 1), p);
  }

  /** The FCC case: bonds from (y-1), (z-1), (y-1, z-1) and (y+1, z-1). */
  method AddFccBonds(scene: Scene, cells: int, ix: int, iy: int, iz: int)
    modifies scene
    ensures scene.world == old(scene.world) + FccBonds(cells, Site(ix, iy, iz))
    ensures scene.lightCount == old(scene.lightCount)
  {
    var p := Site(ix, iy, iz);
    AddBondIf(scene, -cells <= iy - 1, Site(ix, iy - 1, iz), p);
    AddBondIf(scene, -cells <= iz - 1, Site(ix, iy, iz - 1), p);
    AddBondIf(scene, -cells <= iz - 1 && -cells <= iy - 1, Site(ix, iy - 1, iz - 1), p);
    AddBondIf(scene, -cells <= iz - 1 && iy + 1 < cells, Site(ix, iy + 1, iz - 1), p);
  }

  /** The BCC case: bonds from the row below, shifted by the row parity where that stays in the grid. */
  method AddBccBonds(scene: Scene, cells: int, ix: int, iy: int, iz: int)
    modifies scene
    ensures scene.world == old(scene.world) + BccBonds(cells, Site(ix, iy, iz))
    ensures scene.lightCount == old(scene.lightCount)
  {
    var p := Site(ix, iy, iz);
    if -cells <= iy - 1 {
      var ymod := Rem(iy + cells, 2);
      scene.Add(Bond(Site(ix, iy - 1, iz), p));
      AddBondIf(scene, -cells <= ix + ymod < cells, Site(ix + ymod, iy - 1, iz), p);
      AddBondIf(scene, -cells <= iz + ymod < cells, Site(ix, iy - 1, iz + ymod), p);
      AddBondIf(scene, -cells <= ix + ymod < cells && -cells <= iz + ymod < cells, Site(ix + ymod, iy - 1, iz + ymod), p);
    }
  }

  /**
   * SceneBuilder::PopulateRoomScene: clears the world, walks the grid
   * [-cells, cells)^3 adding each site's entries, then resets the light
   * count and adds three lights. Whatever the scene held before, it ends up
   * holding exactly the population of b and three lights.
   */
  method PopulateRoomScene(b: SceneBuilder, scene: Scene)
    modifies scene
    ensures scene.world == Population(b) && scene.lightCount == 3
  {
    scene.Clear();
    var cells := if b.structure == Diamond then 6 else 3;
    assert cells == Cells(b.structure);
    var emit := Emitter(b);
    var ix := -cells;
    while ix < cells
      invariant -cells <= ix <= cells
      invariant scene.world == Volume(emit, cells, ix)
    {
      ghost var planes := scene.world;
      var iy := -cells;
      while iy < cells
        invariant -cells <= iy <= cells
        invariant scene.world == planes + Plane(emit, cells, ix, iy)
      {
        ghost var columns := scene.world;
        var iz := -cells;
        while iz < cells
          invariant -cells <= iz <= cells
          invariant scene.world == columns + Column(emit, cells, ix, iy, iz)
        {
          AddSiteEntries(scene, b, cells, ix, iy, iz);
          EmitterAt(b, Site(ix, iy, iz));
          ColumnStep(emit, cells, ix, iy, iz);
          AppendAssoc(columns, Column(emit, cells, ix, iy, iz), emit(Site(ix, iy, iz)));
          iz := iz + 1;
        }
        PlaneStep(emit, cells, ix, iy);
        AppendAssoc(planes, Plane(emit, cells, ix, iy), Column(emit, cells, ix, iy, cells));
        iy := iy + 1;
      }
      VolumeStep(emit, cells, ix);
      ix := ix + 1;
    }
    scene.lightCount := 0;
    scene.AddLight();
    scene.AddLight();
    scene.AddLight();
  }

  /** Running the population a second time leaves the scene exactly as the first run left it. */
  method PopulateTwice(b: SceneBuilder, scene: Scene) returns (firstWorld: seq<Entry>, firstLights: nat)
    modifies scene
    ensures firstWorld == Population(b) && firstLights == 3
    ensures scene.world == firstWorld && scene.lightCount == firstLights
  {
    PopulateRoomScene(b, scene);
    firstWorld, firstLights := scene.world, scene.lightCount;
    PopulateRoomScene(b, scene);
  }

  /** Concatenation is associative. */
  lemma AppendAssoc(a: seq<Entry>, b: seq<Entry>, c: seq<Entry>)
    ensures (a + b) + c == a + (b + c)
  {
  }

  /** One more site at the end of a column. */
  lemma ColumnStep(emit: Site -> seq<Entry>, c: int, ix: int, iy: int, n: int)
    requires -c <= n
    ensures Column(emit, c, ix, iy, n + 1) == Column(emit, c, ix, iy, n) + emit(Site(ix, iy, n))
  {
    assert Line(emit, ix, iy)(n) == emit(Site(ix, iy, n));
  }

  /** One more full column at the end of a plane. */
  lemma PlaneStep(emit: Site -> seq<Entry>, c: int, ix: int, n: int)
    requires -c <= n
    ensures Plane(emit, c, ix, n + 1) == Plane(emit, c, ix, n) + Column(emit, c, ix, n, c)
  {
    assert Columns(emit, c, ix)(n) == Column(emit, c, ix, n, c);
  }

  /** One more full plane at the end of the walk. */
  lemma VolumeStep(emit: Site -> seq<Entry>, c: int, n: int)
    requires -c <= n
    ensures Volume(emit, c, n + 1) == Volume(emit, c, n) + Plane(emit, c, n, c)
  {
    assert Planes(emit, c)(n) == Plane(emit, c, n, c);
  }
}
