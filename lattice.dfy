/**
 * The crystal lattice that PopulateRoomScene lays out: the integer grid
 * [-cells, cells)^3 is walked x-major, then y, then z, and for each grid site
 * the selected crystal structure decides which atoms and which bonds are
 * added to the scene. Entries are recorded by grid site. The source computes
 * each position in `float`; Numerators and AxisWeights give the real-valued
 * position that float computation approximates.
 */
module Lattice {
  import opened CppInt
  import opened Grid

  /** The crystal structures; NumCrystalStructure is the enumeration's count sentinel. */
  datatype CrystalStructure = Cube | FCC | BCC | Diamond | NumCrystalStructure

  /** A model added to the scene: a sphere at a site, or a cylinder from one site to another. */
  datatype Entry = Atom(at: Site) | Bond(from: Site, to: Site)

  /** The SceneBuilder parameters the population reads (the float atom scale is left out). */
  datatype SceneBuilder = SceneBuilder(structure: CrystalStructure, drawAtom: bool, drawBond: bool)

  /** Half-width of the grid: doubled for Diamond, which keeps only some sites. */
  function Cells(s: CrystalStructure): int
  {
    if s == Diamond then 6 else 3
  }

  /** The Diamond acceptance test on the C++ remainders of the shifted coordinates. */
  predicate DiamondAccepts(c: int, p: Site)
  {
    var xmod := Rem(p.x + c, 2);
    var ymod := Rem(p.y + c, 2);
    var zmod := Rem(p.z + c, 2);
    var xyzmod := Rem(p.x + c + p.y + c + p.z + c, 4);
    xmod == ymod && ymod == zmod && (xyzmod == 0 || xyzmod == 1)
  }

  /** The atom added at site p, if any: every structure but Diamond adds one whenever drawAtom is set. */
  function AtomsAt(b: SceneBuilder, c: int, p: Site): (r: seq<Entry>)
    ensures |r| <= 1 && forall e :: e in r ==> e == Atom(p)
  {
    match b.structure
    case Diamond => if b.drawAtom && DiamondAccepts(c, p) then [Atom(p)] else []
    case _ => if b.drawAtom then [Atom(p)] else []
  }

  /** Keeps a bond only when its guard holds. */
  function BondIf(guard: bool, from: Site, to: Site): seq<Entry>
  {
    if guard then [Bond(from, to)] else []
  }

  /** Cube bonds at p: from the predecessor along x, along y and along z, each when it is in the grid. */
  function CubeBonds(c: int, p: Site): (r: seq<Entry>)
    ensures |r| <= 3
    ensures forall e :: e in r ==> e.Bond? && e.to == p && e.from != p
  {
    BondIf(-c <= p.x - 1, Site(p.x - 1, p.y, p.z), p)
    + BondIf(-c <= p.y - 1, Site(p.x, p.y - 1, p.z), p)
    + BondIf(-c <= p.z - 1, Site(p.x, p.y, p.z - 1), p)
  }

  /** FCC bonds at p: from (y-1), (z-1), (y-1, z-1) and (y+1, z-1), each when it is in the grid. */
  function FccBonds(c: int, p: Site): (r: seq<Entry>)
    ensures |r| <= 4
    ensures forall e :: e in r ==> e.Bond? && e.to == p && e.from.x == p.x && e.from != p
  {
    BondIf(-c <= p.y - 1, Site(p.x, p.y - 1, p.z), p)
    + BondIf(-c <= p.z - 1, Site(p.x, p.y, p.z - 1), p)
    + BondIf(-c <= p.z - 1 && -c <= p.y - 1, Site(p.x, p.y - 1, p.z - 1), p)
    + BondIf(-c <= p.z - 1 && p.y + 1 < c, Site(p.x, p.y + 1, p.z - 1), p)
  }

  /**
   * BCC bonds at p, all from the row below (y-1): from the same x and z
   * unconditionally, then from x and z shifted by the row's parity ymod, each
   * when the shifted coordinates are in the grid.
   */
  function BccBonds(c: int, p: Site): (r: seq<Entry>)
    ensures |r| <= 4
    ensures forall e :: e in r ==> e.Bond? && e.to == p && e.from.y == p.y - 1
  {
    if -c <= p.y - 1 then
      var ymod := Rem(p.y + c, 2);
      [Bond(Site(p.x, p.y - 1, p.z), p)]
      + BondIf(-c <= p.x + ymod < c, Site(p.x + ymod, p.y - 1, p.z), p)
      + BondIf(-c <= p.z + ymod < c, Site(p.x, p.y - 1, p.z + ymod), p)
      + BondIf(-c <= p.x + ymod < c && -c <= p.z + ymod < c, Site(p.x + ymod, p.y - 1, p.z + ymod), p)
    else []
  }

  /** The bonds added at site p when drawBond is set; Diamond adds none. */
  function BondsAt(b: SceneBuilder, c: int, p: Site): (r: seq<Entry>)
    ensures forall e :: e in r ==> e.Bond? && e.to == p
  {
    if !b.drawBond then []
    else
      match b.structure
      case FCC => FccBonds(c, p)
      case BCC => BccBonds(c, p)
      case Diamond => []
      case _ => CubeBonds(c, p)
  }

  /** Everything one pass of the innermost loop body adds for site p: its atom first, then its bonds. */
  function SiteEntries(b: SceneBuilder, c: int, p: Site): (r: seq<Entry>)
    ensures |r| <= 5
    ensures forall e :: e in r ==> e == Atom(p) || (e.Bond? && e.to == p)
  {
    AtomsAt(b, c, p) + BondsAt(b, c, p)
  }

  // ---------------------------------------------------------------------
  // Real-valued geometry of the positioners

  /**
   * The position of site p as integer numerators: on each axis the
   * real-valued coordinate is numerator * sqrt(weight / 12), with the axis
   * weights of AxisWeights; the source rounds it to `float`. FCC scales by
   * sqrt(1/2) and shifts x by one step where the shifted sum
   * ix + iy + iz + 3 * cells is odd; BCC shifts x and z by half a step where
   * iy + cells is odd and scales y by sqrt(1/2); Diamond scales by sqrt(1/3).
   * No structure moves a site off its row.
   */
  function Numerators(s: CrystalStructure, c: int, p: Site): (r: Site)
    ensures r.y == p.y
    ensures s != BCC ==> r.z == p.z
  {
    match s
    case FCC => Site(p.x + Rem(p.x + c + p.y + c + p.z + c, 2), p.y, p.z)
    case BCC =>
      var ymod := Rem(p.y + c, 2);
      Site(2 * p.x + ymod, p.y, 2 * p.z + ymod)
    case _ => p
  }

  /** Twelve times the square of each axis' unit in Numerators. */
  function AxisWeights(s: CrystalStructure): (r: (int, int, int))
    ensures r.0 > 0 && r.1 > 0 && r.2 > 0 && r.0 == r.2
  {
    match s
    case FCC => (6, 6, 6)
    case BCC => (3, 6, 3)
    case Diamond => (4, 4, 4)
    case _ => (12, 12, 12)
  }

  /** Twelve times the squared distance between the real-valued positions of sites p and q. */
  function Distance12(s: CrystalStructure, c: int, p: Site, q: Site): int
  {
    var a, d, w := Numerators(s, c, p), Numerators(s, c, q), AxisWeights(s);
    w.0 * Square(d.x - a.x) + w.1 * Square(d.y - a.y) + w.2 * Square(d.z - a.z)
  }

  function Square(n: int): int
  {
    n * n
  }

  /**
   * FCC shifts the sites whose shifted coordinate sum is odd; on the grid
   * [-3, 3)^3 that sum is the plain sum plus 9, so the sites shifted are those
   * whose plain sum is even.
   */
  lemma FccShiftedSites(p: Site)
    requires InGrid(3, p)
    ensures Numerators(FCC, 3, p).x == p.x + (if (p.x + p.y + p.z) % 2 == 0 then 1 else 0)
  {
    var t := p.x + p.y + p.z;
    var s := p.x + 3 + p.y + 3 + p.z + 3;
    OddShiftRem(t, s, 4);
    assert Numerators(FCC, 3, p).x == p.x + Rem(s, 2);
  }

  /** Likewise BCC shifts x and z by half a step on the rows where y + 3 is odd, that is where y is even. */
  lemma BccShiftedRows(p: Site)
    requires InGrid(3, p)
    ensures Numerators(BCC, 3, p).x == 2 * p.x + (if p.y % 2 == 0 then 1 else 0)
    ensures Numerators(BCC, 3, p).z == 2 * p.z + (if p.y % 2 == 0 then 1 else 0)
  {
    OddShiftRem(p.y, p.y + 3, 1);
  }

  /** The C++ parity of t shifted by an odd 2k + 1 into the non-negatives is 1 exactly when t is even. */
  lemma OddShiftRem(t: int, s: int, k: int)
    requires s == t + 2 * k + 1 && s >= 0
    ensures Rem(s, 2) == if t % 2 == 0 then 1 else 0
  {
    RemOfNonNegative(s, 2);
    ParityAfterOdd(t, k);
  }

  /** Adding an odd number flips the parity. */
  lemma ParityAfterOdd(y: int, k: int)
    ensures (y + 2 * k + 1) % 2 == 1 - y % 2
  {
    var q, r := y / 2, y % 2;
    assert y == 2 * q + r;
    if r == 0 {
      ModUnique(y + 2 * k + 1, 2, q + k, 1);
    } else {
      ModUnique(y + 2 * k + 1, 2, q + k + 1, 0);
    }
  }

  // ---------------------------------------------------------------------
  // Per-site properties

  /** Twelve times the squared distance, from the numerator differences. */
  lemma DistanceFromSteps(s: CrystalStructure, c: int, p: Site, q: Site, dx: int, dy: int, dz: int)
    requires -1 <= dx <= 1 && -1 <= dy <= 1 && -1 <= dz <= 1
    requires Numerators(s, c, q).x - Numerators(s, c, p).x == dx
    requires Numerators(s, c, q).y - Numerators(s, c, p).y == dy
    requires Numerators(s, c, q).z - Numerators(s, c, p).z == dz
    ensures Distance12(s, c, p, q) == AxisWeights(s).0 * (if dx == 0 then 0 else 1)
      + AxisWeights(s).1 * (if dy == 0 then 0 else 1) + AxisWeights(s).2 * (if dz == 0 then 0 else 1)
  {
    assert Square(dx) == (if dx == 0 then 0 else 1);
    assert Square(dy) == (if dy == 0 then 0 else 1);
    assert Square(dz) == (if dz == 0 then 0 else 1);
  }

  /** Cube bonds join a grid site to its predecessor along one axis, one unit away. */
  lemma CubeBondUnit(s: CrystalStructure, c: int, p: Site, e: Entry)
    requires s == Cube || s == NumCrystalStructure
    requires InGrid(c, p) && e in CubeBonds(c, p)
    ensures e.Bond? && e.to == p && InGrid(c, e.from)
    ensures Distance12(s, c, e.from, e.to) == 12
  {
    var q := e.from;
    DistanceFromSteps(s, c, q, p, p.x - q.x, p.y - q.y, p.z - q.z);
  }

  /** FCC bonds join a grid site to one of four grid neighbours one unit away. */
  lemma FccBondUnit(c: int, p: Site, e: Entry)
    requires InGrid(c, p) && e in FccBonds(c, p)
    ensures e.Bond? && e.to == p && InGrid(c, e.from)
    ensures Distance12(FCC, c, e.from, e.to) == 12
  {
    var q := e.from;
    assert e.Bond? && e.to == p && q.x == p.x && InGrid(c, q);
    assert q.z == p.z - 1 || (q.y == p.y - 1 && q.z == p.z);
    FccStep(c, p, q);
  }

  /** An FCC site one step below in y, in z, or diagonally in y and z is one unit away. */
  lemma FccStep(c: int, p: Site, q: Site)
    requires InGrid(c, p) && InGrid(c, q) && q.x == p.x
    requires (q.z == p.z - 1 && p.y - 1 <= q.y <= p.y + 1) || (q.y == p.y - 1 && q.z == p.z)
    ensures Distance12(FCC, c, q, p) == 12
  {
    var sp, sq := p.x + c + p.y + c + p.z + c, q.x + c + q.y + c + q.z + c;
    RemOfNonNegative(sp, 2);
    RemOfNonNegative(sq, 2);
    var np, nq := Numerators(FCC, c, p), Numerators(FCC, c, q);
    assert np == Site(p.x + sp % 2, p.y, p.z);
    assert nq == Site(q.x + sq % 2, q.y, q.z);
    if q.y != p.y && q.z != p.z {
      FccDiagonalStep(sp, sq);
      DistanceFromSteps(FCC, c, q, p, 0, p.y - q.y, p.z - q.z);
    } else {
      FccAxisStep(sp, sq);
      DistanceFromSteps(FCC, c, q, p, np.x - nq.x, p.y - q.y, p.z - q.z);
    }
  }

  /** A diagonal FCC neighbour changes the coordinate sum by 0 or 2, keeping its parity. */
  lemma FccDiagonalStep(sp: int, sq: int)
    requires sq == sp || sq == sp - 2
    ensures sq % 2 == sp % 2
  {
  }

  /** An axis FCC neighbour changes the coordinate sum by 1, flipping its parity. */
  lemma FccAxisStep(sp: int, sq: int)
    requires sq == sp - 1
    ensures sp % 2 - sq % 2 == 1 || sp % 2 - sq % 2 == -1
  {
  }

  /** BCC bonds join a grid site to a grid site in the row below, one unit away. */
  lemma BccBondUnit(c: int, p: Site, e: Entry)
    requires InGrid(c, p) && e in BccBonds(c, p)
    ensures e.Bond? && e.to == p && InGrid(c, e.from)
    ensures Distance12(BCC, c, e.from, e.to) == 12
  {
    RemOfNonNegative(p.y + c, 2);
    var m := (p.y + c) % 2;
    var q := e.from;
    assert e.Bond? && e.to == p && InGrid(c, q) && q.y == p.y - 1;
    assert (q.x == p.x || q.x == p.x + m) && (q.z == p.z || q.z == p.z + m);
    BccStep(c, p, q);
  }

  /** A BCC site of the row below at the same x and z, or shifted by the row parity, is one unit away. */
  lemma BccStep(c: int, p: Site, q: Site)
    requires InGrid(c, p) && InGrid(c, q) && q.y == p.y - 1
    requires (q.x == p.x || q.x == p.x + (p.y + c) % 2) && (q.z == p.z || q.z == p.z + (p.y + c) % 2)
    ensures Distance12(BCC, c, q, p) == 12
  {
    RemOfNonNegative(p.y + c, 2);
    RemOfNonNegative(q.y + c, 2);
    var m := (p.y + c) % 2;
    assert (q.y + c) % 2 == 1 - m;
    var nq, np := Numerators(BCC, c, q), Numerators(BCC, c, p);
    assert nq == Site(2 * q.x + 1 - m, q.y, 2 * q.z + 1 - m);
    assert np == Site(2 * p.x + m, p.y, 2 * p.z + m);
    DistanceFromSteps(BCC, c, q, p, np.x - nq.x, 1, np.z - nq.z);
  }

  /** Every bond emitted at a grid site ends at that site and starts at a grid site one unit away. */
  lemma SiteBondsUnit(b: SceneBuilder, c: int, p: Site, e: Entry)
    requires InGrid(c, p) && e in BondsAt(b, c, p)
    ensures e.Bond? && e.to == p && InGrid(c, e.from)
    ensures Distance12(b.structure, c, e.from, e.to) == 12
  {
    match b.structure
    case FCC => FccBondUnit(c, p, e);
    case BCC => BccBondUnit(c, p, e);
    case Cube => CubeBondUnit(Cube, c, p, e);
    case NumCrystalStructure => CubeBondUnit(NumCrystalStructure, c, p, e);
  }

  /** The atom emitted at a site, if any, sits on that site. */
  lemma SiteAtom(b: SceneBuilder, c: int, p: Site, e: Entry)
    requires e in AtomsAt(b, c, p)
    ensures e == Atom(p)
  {
  }

  /** On the grid every operand of the Diamond test is non-negative, so C++ `%` there is Dafny's `%`. */
  lemma DiamondAcceptsInGrid(p: Site)
    requires InGrid(6, p)
    ensures DiamondAccepts(6, p) <==> DiamondSite(p)
  {
    RemOfNonNegative(p.x + 6, 2);
    RemOfNonNegative(p.y + 6, 2);
    RemOfNonNegative(p.z + 6, 2);
    RemOfNonNegative(p.x + 6 + p.y + 6 + p.z + 6, 4);
    assert p.x + 6 + p.y + 6 + p.z + 6 == p.x + p.y + p.z + 18;
  }

  /** The Diamond acceptance test with every operand non-negative, in Dafny's own arithmetic. */
  predicate DiamondSite(p: Site)
  {
    (p.x + 6) % 2 == (p.y + 6) % 2 && (p.y + 6) % 2 == (p.z + 6) % 2
    && ((p.x + p.y + p.z + 18) % 4 == 0 || (p.x + p.y + p.z + 18) % 4 == 1)
  }

  /**
   * The mod-4 test applies to the sum of the shifted coordinates, which is
   * the plain sum plus 18: the origin is rejected and (1, 1, 1) accepted,
   * although their plain sums are 0 and 3 mod 4.
   */
  lemma DiamondShiftedSum()
    ensures !DiamondAccepts(6, Site(0, 0, 0))
    ensures DiamondAccepts(6, Site(1, 1, 1))
  {
    DiamondAcceptsInGrid(Site(0, 0, 0));
    DiamondAcceptsInGrid(Site(1, 1, 1));
  }

  /** At one site Diamond emits its atom or nothing. */
  lemma DiamondSiteEntries(b: SceneBuilder, c: int, p: Site)
    requires b.structure == Diamond
    ensures SiteEntries(b, c, p) == if b.drawAtom && DiamondAccepts(c, p) then [Atom(p)] else []
  {
  }

  /** A structure the switch handles through its Cube branch. */
  predicate CubeLike(s: CrystalStructure)
  {
    s == Cube || s == NumCrystalStructure
  }

  /** Cube's entries at site q hold Atom(q) once and no other atom. */
  lemma CubeSiteAtoms(b: SceneBuilder, c: int, q: Site, p: Site)
    requires CubeLike(b.structure) && b.drawAtom
    ensures Occurrences(SiteEntries(b, c, q), Atom(p)) == if p == q then 1 else 0
  {
    var bonds := BondsAt(b, c, q);
    assert bonds == [] || bonds == CubeBonds(c, q);
    assert Atom(p) !in bonds;
    CountMember(bonds, Atom(p));
    assert SiteEntries(b, c, q) == [Atom(q)] + bonds;
    CountSplit([Atom(q)], bonds, Atom(p));
    assert Occurrences([Atom(q)], Atom(p)) == if p == q then 1 else 0 by {
      assert [Atom(q)][1..] == [];
    }
  }

  // ---------------------------------------------------------------------
  // The whole population

  /** The loop body for builder b, as a function of the site. */
  function Emitter(b: SceneBuilder): Site -> seq<Entry>
  {
    p => SiteEntries(b, Cells(b.structure), p)
  }

  /** The emitter of b at p is the loop body's output there. */
  lemma EmitterAt(b: SceneBuilder, p: Site)
    ensures Emitter(b)(p) == SiteEntries(b, Cells(b.structure), p)
  {
  }

  /** The scene content the lattice walk produces for builder b, in loop order. */
  function Population(b: SceneBuilder): seq<Entry>
  {
    var c := Cells(b.structure);
    Volume(Emitter(b), c, c)
  }

  /** The grid site that emitted an entry of the population. */
  lemma PopulationWitness(b: SceneBuilder, e: Entry) returns (p: Site)
    requires e in Population(b)
    ensures InGrid(Cells(b.structure), p) && e in SiteEntries(b, Cells(b.structure), p)
  {
    var c := Cells(b.structure);
    p := WalkWitness(Emitter(b), c, e);
    assert Emitter(b)(p) == SiteEntries(b, c, p);
  }

  /** What a grid site emits is in the population. */
  lemma PopulationContains(b: SceneBuilder, p: Site, e: Entry)
    requires InGrid(Cells(b.structure), p) && e in SiteEntries(b, Cells(b.structure), p)
    ensures e in Population(b)
  {
    var c := Cells(b.structure);
    assert Emitter(b)(p) == SiteEntries(b, c, p);
    WalkContains(Emitter(b), c, p, e);
  }

  /** An entry is in the population exactly when some site of the grid emits it. */
  lemma PopulationMember(b: SceneBuilder, e: Entry)
    ensures e in Population(b)
      <==> exists p: Site :: InGrid(Cells(b.structure), p) && e in SiteEntries(b, Cells(b.structure), p)
  {
    if e in Population(b) {
      var p := PopulationWitness(b, e);
    }
    if p: Site :| InGrid(Cells(b.structure), p) && e in SiteEntries(b, Cells(b.structure), p) {
      PopulationContains(b, p, e);
    }
  }

  /**
   * Every atom sits on a grid site, and every bond joins two grid sites one
   * unit apart (for Cube, FCC and BCC alike): the range guards keep each
   * neighbour inside [-cells, cells)^3.
   */
  lemma PopulationStaysInGrid(b: SceneBuilder)
    ensures forall e :: e in Population(b) && e.Atom? ==> InGrid(Cells(b.structure), e.at)
    ensures forall e :: e in Population(b) && e.Bond? ==>
      InGrid(Cells(b.structure), e.from) && InGrid(Cells(b.structure), e.to)
      && Distance12(b.structure, Cells(b.structure), e.from, e.to) == 12
  {
    forall e | e in Population(b)
      ensures e.Atom? ==> InGrid(Cells(b.structure), e.at)
      ensures e.Bond? ==> (InGrid(Cells(b.structure), e.from) && InGrid(Cells(b.structure), e.to)
        && Distance12(b.structure, Cells(b.structure), e.from, e.to) == 12)
    {
      EntryInGrid(b, e);
    }
  }

  /** One entry of the population: an atom on its grid site, or a unit bond between grid sites. */
  lemma EntryInGrid(b: SceneBuilder, e: Entry)
    requires e in Population(b)
    ensures e.Atom? ==> InGrid(Cells(b.structure), e.at)
    ensures e.Bond? ==> (InGrid(Cells(b.structure), e.from) && InGrid(Cells(b.structure), e.to)
      && Distance12(b.structure, Cells(b.structure), e.from, e.to) == 12)
  {
    var c := Cells(b.structure);
    var p := PopulationWitness(b, e);
    if e in AtomsAt(b, c, p) {
      SiteAtom(b, c, p, e);
    } else {
      SiteBondsUnit(b, c, p, e);
    }
  }

  /**
   * Diamond never emits bonds, and it emits an atom at p exactly when atoms
   * are drawn, p lies in [-6, 6)^3, the shifted coordinates share one parity
   * and their sum is 0 or 1 mod 4.
   */
  lemma DiamondAtoms(b: SceneBuilder)
    requires b.structure == Diamond
    ensures forall e :: e in Population(b) ==> e.Atom?
    ensures forall p :: Atom(p) in Population(b) <==> b.drawAtom && InGrid(6, p) && DiamondSite(p)
  {
    forall e | e in Population(b) ensures e.Atom? {
      DiamondEntryIsAtom(b, e);
    }
    forall p ensures Atom(p) in Population(b) <==> b.drawAtom && InGrid(6, p) && DiamondSite(p) {
      DiamondAtomSite(b, p);
    }
  }

  /** Every entry of a Diamond population is an atom. */
  lemma DiamondEntryIsAtom(b: SceneBuilder, e: Entry)
    requires b.structure == Diamond && e in Population(b)
    ensures e.Atom?
  {
    var q := PopulationWitness(b, e);
    DiamondSiteEntries(b, 6, q);
  }

  /** Diamond places an atom on p exactly when p is a grid site that passes the acceptance test. */
  lemma DiamondAtomSite(b: SceneBuilder, p: Site)
    requires b.structure == Diamond
    ensures Atom(p) in Population(b) <==> b.drawAtom && InGrid(6, p) && DiamondSite(p)
  {
    if Atom(p) in Population(b) {
      var q := PopulationWitness(b, Atom(p));
      DiamondAtomAt(b, 6, q, p);
      DiamondAcceptsInGrid(p);
    }
    if b.drawAtom && InGrid(6, p) && DiamondSite(p) {
      DiamondAcceptsInGrid(p);
      DiamondSiteEntries(b, 6, p);
      PopulationContains(b, p, Atom(p));
    }
  }

  /** An atom Diamond emits at site q sits on q, and q passed the acceptance test. */
  lemma DiamondAtomAt(b: SceneBuilder, c: int, q: Site, p: Site)
    requires b.structure == Diamond && Atom(p) in SiteEntries(b, c, q)
    ensures p == q && b.drawAtom && DiamondAccepts(c, p)
  {
    DiamondSiteEntries(b, c, q);
  }

  /** Without bonds, Cube emits exactly its atom at each site. */
  lemma CubeSiteAtomOnly(b: SceneBuilder, q: Site)
    requires CubeLike(b.structure) && b.drawAtom && !b.drawBond
    ensures Emitter(b)(q) == [Atom(q)]
  {
    assert Emitter(b)(q) == SiteEntries(b, Cells(b.structure), q);
  }

  /** With atoms drawn, Cube (and any unlisted structure) puts exactly one atom on every grid site and none elsewhere. */
  lemma CubeOneAtomPerSite(b: SceneBuilder, p: Site)
    requires CubeLike(b.structure) && b.drawAtom
    ensures Occurrences(Population(b), Atom(p)) == if InGrid(3, p) then 1 else 0
  {
    assert Cells(b.structure) == 3;
    forall q ensures Occurrences(Emitter(b)(q), Atom(p)) == if q == p then 1 else 0 {
      assert Emitter(b)(q) == SiteEntries(b, 3, q);
      CubeSiteAtoms(b, 3, q, p);
    }
    WalkCount(Emitter(b), 3, p, Atom(p));
  }

  /** Cube with atoms and without bonds yields (2 * 3)^3 = 216 entries, all atoms. */
  lemma CubeAtomCount(b: SceneBuilder)
    requires CubeLike(b.structure) && b.drawAtom && !b.drawBond
    ensures |Population(b)| == 216
  {
    forall q ensures |Emitter(b)(q)| == 1 {
      CubeSiteAtomOnly(b, q);
    }
    var c := Cells(b.structure);
    WalkLength(Emitter(b), c);
    SitesOfCube(c);
  }

  /** The Cube grid [-3, 3)^3 has 6 * 6 * 6 sites. */
  lemma SitesOfCube(c: int)
    requires c == 3
    ensures (2 * c) * ((2 * c) * (2 * c)) == 216
  {
  }

  // ---------------------------------------------------------------------
  // Behaviour of the FCC and BCC branches as written

  /**
   * FCC moves a shifted site one full step along x, onto the unshifted
   * position of its right-hand neighbour: on [-3, 3)^3 the atoms of a site
   * with an even coordinate sum and of the next site along x coincide.
   */
  lemma FccCoincidentPairs(p: Site)
    requires InGrid(3, p) && InGrid(3, Site(p.x + 1, p.y, p.z)) && (p.x + p.y + p.z) % 2 == 0
    ensures Numerators(FCC, 3, p) == Numerators(FCC, 3, Site(p.x + 1, p.y, p.z))
  {
    var q := Site(p.x + 1, p.y, p.z);
    FccShiftedSites(p);
    FccShiftedSites(q);
    ParityAfterOdd(p.x + p.y + p.z, 0);
  }

  /** The origin and (1, 0, 0) are such a pair: both atoms sit at (sqrt(1/2), 0, 0). */
  lemma FccOriginPair()
    ensures Numerators(FCC, 3, Site(0, 0, 0)) == Numerators(FCC, 3, Site(1, 0, 0)) == Site(1, 0, 0)
  {
    FccCoincidentPairs(Site(0, 0, 0));
    FccShiftedSites(Site(0, 0, 0));
  }

  /**
   * On a BCC row where iy + cells is even the row parity is 0, so the three
   * guarded bonds all repeat the unconditional one: the site gets the same
   * bond four times.
   */
  lemma BccRepeatedBond(c: int, p: Site)
    requires InGrid(c, p) && -c <= p.y - 1 && Rem(p.y + c, 2) == 0
    ensures var e := Bond(Site(p.x, p.y - 1, p.z), p); BccBonds(c, p) == [e, e, e, e]
  {
  }

  /**
   * Hence, on those rows, a unit-distance neighbour in the row below is left
   * unbonded: the site one step back along x, for instance (-1, 0, 0) for
   * (0, 1, 0), is one unit away, yet no BCC bond joins them.
   */
  lemma BccMissedNeighbour(b: SceneBuilder, p: Site)
    requires b.structure == BCC && InGrid(3, p) && -3 <= p.x - 1 && -3 <= p.y - 1 && Rem(p.y + 3, 2) == 0
    ensures Distance12(BCC, 3, Site(p.x - 1, p.y - 1, p.z), p) == 12
    ensures Bond(Site(p.x - 1, p.y - 1, p.z), p) !in Population(b)
  {
    BccMissedDistance(p);
    var e := Bond(Site(p.x - 1, p.y - 1, p.z), p);
    if e in Population(b) {
      var q := PopulationWitness(b, e);
      BccOnlyBondAt(b, p, q, e);
      assert false;
    }
  }

  /** With row parity 0, the site one step back along x in the row below is one unit away. */
  lemma BccMissedDistance(p: Site)
    requires InGrid(3, p) && -3 <= p.x - 1 && -3 <= p.y - 1 && Rem(p.y + 3, 2) == 0
    ensures Distance12(BCC, 3, Site(p.x - 1, p.y - 1, p.z), p) == 12
  {
    var q := Site(p.x - 1, p.y - 1, p.z);
    RemOfNonNegative(p.y + 3, 2);
    ParityAfterOdd(p.y, 1);
    ParityAfterOdd(p.y - 1, 0);
    BccShiftedRows(p);
    BccShiftedRows(q);
    DistanceFromSteps(BCC, 3, q, p, 1, 1, -1);
  }

  /** On a row of parity 0, every bond BCC emits at p starts straight below p. */
  lemma BccOnlyBondAt(b: SceneBuilder, p: Site, q: Site, e: Entry)
    requires b.structure == BCC && InGrid(3, p) && -3 <= p.y - 1 && Rem(p.y + 3, 2) == 0
    requires e in SiteEntries(b, 3, q) && e.Bond? && e.to == p
    ensures e.from == Site(p.x, p.y - 1, p.z)
  {
    assert q == p && e in BondsAt(b, 3, q);
    BccRepeatedBond(3, q);
  }

  /** A structure value the switch does not list falls to its `default:` label and behaves as Cube. */
  lemma DefaultIsCube(b: SceneBuilder)
    requires b.structure == NumCrystalStructure
    ensures Population(b) == Population(b.(structure := Cube))
  {
    var cube := b.(structure := Cube);
    forall q ensures Emitter(b)(q) == Emitter(cube)(q) {
      assert SiteEntries(b, 3, q) == SiteEntries(cube, 3, q);
    }
    WalkAgree(Emitter(b), Emitter(cube), 3);
    assert Cells(b.structure) == 3 && Cells(cube.structure) == 3;
  }
}
