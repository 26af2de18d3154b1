# OculusCrystal: textures, lattice and scene population

A Dafny model of the procedural core of the OculusCrystal demo, which renders
crystal lattices in VR. The model covers three parts of `OculusRoomModel.cpp`:

- **Textures** (`FillCollection::FillCollection`). Three 256x256 RGBA textures are
  filled row by row: a checkerboard, a ceiling panel and a brick wall. Each
  pixel depends only on its column `i` and row `j`, through integer `/`, `>>`,
  `^` and `&`.
- **Lattice** (`SceneBuilder::PopulateRoomScene`). The grid `[-cells, cells)^3`
  is walked x-major, then y, then z. For each site the selected
  `CrystalStructure` of `OculusTest.h:6-13` (Cube, FCC, BCC or Diamond, plus
  the count value `Num_CrystalStructure`; the datatype
  `Lattice.CrystalStructure`) decides which atom (sphere) and which bonds
  (cylinders) are added to the scene. `cells` is 6 for Diamond and
  3 otherwise.
- **Scene reset**. The world list is cleared before the walk. The light count is
  reset to zero after it, and three lights are added.

Modules:

- `CppInt` (`cpp_int.dfy`): the C++ integer operators on unbounded integers.
  `>>`, `&` and `^` are defined on non-negative operands. `%` is `Rem`, which
  truncates toward zero.
- `Textures` (`textures.dfy`): the texel functions, their geometric meaning, the
  fill loop `Synthesize` over an `array`, and the `FillCollection` class.
- `Grid` (`grid.dfy`): the triple loop as a concatenation of per-site output,
  independent of the loop body. It proves membership, counting, length and
  congruence once.
- `Lattice` (`lattice.dfy`): the structures, the entries each site emits, the
  real-valued geometry of their positions, and properties of the whole
  population.
- `Scenes` (`scenes.dfy`): the scene as a class with a world list and a light
  count. The scene belongs to the renderer, and the source never constructs
  one; the class constructor only supplies an empty scene to start from.
  `PopulateRoomScene` is an imperative triple loop proved to build exactly
  `Lattice.Population`.

### Positions

The source computes positions in `float`. The real value each float
approximates is `n * sqrt(w/12)`, with an integer numerator `n` and a fixed
per-axis weight `w`:

- Cube: `w = 12` on every axis.
- FCC: `w = 6` on every axis; x gains one step where `ix + iy + iz + 3*cells` is odd.
- BCC: `w = 3, 6, 3`; x and z are doubled and gain one where `iy + cells` is odd.
- Diamond: `w = 4` on every axis.

`Distance12` is twelve times the squared distance between these real-valued
positions, so "every bond has unit length" is the integer statement
`Distance12 == 12`. It holds for the real values; the floats differ from them
by rounding.

### Behaviour worth knowing

- **Diamond mod-4 test.** The test is on the sum of the shifted coordinates,
  which is the plain sum plus 18. So the origin is rejected and (1,1,1) is
  accepted (`Lattice.DiamondShiftedSum`).
- **No negative `%`.** The code adds `cells` to every coordinate before taking
  `%`, so no operand of `%` is negative on the grid (`CppInt.RemOfNonNegative`,
  `Lattice.DiamondAcceptsInGrid`). `CppInt.RemOfNegative` shows where C++ `%`
  and Euclidean `%` would disagree.
- **Which sites FCC and BCC shift.** With `cells = 3`, FCC shifts the sites
  whose plain sum `ix + iy + iz` is even, and BCC shifts the even rows `iy`
  (`Lattice.FccShiftedSites`, `Lattice.BccShiftedRows`).
- **FCC atoms coincide in pairs.** The FCC shift is a full step of
  `sqrt(1/2)`. A shifted site therefore lands on the unshifted position of its
  neighbour along x. For example, the origin and (1,0,0) both sit at
  (sqrt(1/2), 0, 0) (`Lattice.FccCoincidentPairs`, `Lattice.FccOriginPair`).
- **BCC repeats bonds on half the rows.** Where `iy + cells` is even, the row
  parity is 0. The three guarded bonds then repeat the unconditional one, so
  the site gets the same bond four times (`Lattice.BccRepeatedBond`).
- **BCC skips a neighbour on those rows.** The site one step back along x in
  the row below is one unit away, yet it is never bonded: for example (-1,0,0)
  and (0,1,0) (`Lattice.BccMissedNeighbour`). The guard commented out at
  `OculusRoomModel.cpp:219` refers to exactly that neighbour, `ix + ymod - 1`.
- **Panel.** The panel is dark only on the first four columns and the first
  four rows of the 256x256 texture (`Textures.PanelBorder`). Repeat sampling
  tiles it.

## Model

| member | source | states |
|---|---|---|
| CppInt.ShiftRight | OculusRoomModel.cpp:56 | `a >> k` is the unique r with `r * 2^k <= a < (r + 1) * 2^k` |
| CppInt.BitAnd | OculusRoomModel.cpp:78 | `a & b` is at most each operand; its meaning for the masks used is BitAndLowMask |
| CppInt.BitXor | OculusRoomModel.cpp:56 | `a ^ b` is at most `a + b` and has the parity of `a + b` |
| CppInt.BitAndLowMask | OculusRoomModel.cpp:78 | `x & (2^k - 1)` is `x mod 2^k`, the mask the brick test uses with 15 and 31 |
| CppInt.XorLowBit | OculusRoomModel.cpp:56 | `(a ^ b) & 1` is 1 exactly when the low bits of `a` and `b` differ |
| CppInt.Rem | OculusRoomModel.cpp:191 | C++ `%`: the remainder is smaller than the divisor in magnitude, has the sign of the dividend, and differs from it by a multiple of the divisor |
| CppInt.RemOfNonNegative | OculusRoomModel.cpp:233-236 | on a non-negative dividend, C++ `%` equals the Euclidean remainder |
| CppInt.RemOfNegative | OculusRoomModel.cpp:233 | on a negative dividend the two conventions differ: C++ gives `-1 % 2 == -1` |
| Textures.PixelIndex | OculusRoomModel.cpp:54-56 | `j*256+i` lies in the 65536-pixel buffer, and its remainder and quotient by 256 give back `i` and `j` |
| Textures.PixelIndexOnto | OculusRoomModel.cpp:53-56 | every buffer position is the index of one pixel, so the loops cover the whole buffer |
| Textures.CheckerTexel | OculusRoomModel.cpp:56-57 | a checker pixel is grey 80 or grey 180; which one is CheckerQuadrants |
| Textures.PanelTexel | OculusRoomModel.cpp:67-68 | a panel pixel is grey 80 or grey 180; which one is PanelBorder |
| Textures.BlockTexel | OculusRoomModel.cpp:78-79 | a brick pixel is grey 60 or grey 180; which one is BlockJoints |
| Textures.CheckerQuadrants | OculusRoomModel.cpp:56-57 | a checker pixel is grey 180 exactly when its column and row lie in different 128-pixel halves, and grey 80 otherwise |
| Textures.CheckerCorners | OculusRoomModel.cpp:56-57 | pixels (0,0) and (128,128) are dark; (0,128) and (128,0) are light |
| Textures.PanelBorder | OculusRoomModel.cpp:67-68 | a panel pixel is grey 80 exactly when `i < 4` or `j < 4`, and grey 180 otherwise |
| Textures.BlockJoints | OculusRoomModel.cpp:78-79 | the brick bit test is the mortar pattern: a horizontal joint every 16 blocks, and vertical joints at u mod 32 = 16 in even courses and at 0 in odd courses; otherwise grey 180 |
| Textures.ModOfMod | OculusRoomModel.cpp:78 | `u mod 16 == 0` with `u mod 32 != 0` means `u mod 32 == 16`, relating the `& 15` and `& 31` masks |
| Textures.BlockUniform | OculusRoomModel.cpp:78-79 | every aligned 4x4 block of the brick texture has one colour |
| Textures.Synthesize | OculusRoomModel.cpp:53-57 | the nested fill loops produce a fresh 65536-pixel buffer whose every position holds the texel of the pixel it indexes |
| Textures.FillCollection.constructor | OculusRoomModel.cpp:47-82 | the checker, panel and brick buffers are filled with their texel functions |
| Grid.WalkMember | OculusRoomModel.cpp:167-171 | the walk emits an entry exactly when some site of `[-c, c)^3` emits it |
| Grid.WalkCount | OculusRoomModel.cpp:167-171 | each grid site is visited exactly once, and sites outside the grid never |
| Grid.WalkLength | OculusRoomModel.cpp:167-171 | with one entry per site the walk has `(2c)^3` entries |
| Grid.WalkAgree | OculusRoomModel.cpp:167-171 | walks whose loop bodies agree at every site are equal |
| Lattice.Cells | OculusRoomModel.cpp:165 | the grid half-width, 6 for Diamond and 3 otherwise; no contract of its own, used by CubeAtomCount and DiamondAtomSite |
| Lattice.DiamondAccepts | OculusRoomModel.cpp:233-239 | the Diamond test on C++ remainders; no contract of its own, its meaning is DiamondAcceptsInGrid |
| Lattice.AtomsAt | OculusRoomModel.cpp:175-240 | a site adds at most one atom, and only on itself |
| Lattice.CubeBonds | OculusRoomModel.cpp:179-186 | the Cube branch adds at most three bonds, each ending at the site and starting elsewhere |
| Lattice.FccBonds | OculusRoomModel.cpp:196-205 | the FCC branch adds at most four bonds, each ending at the site and starting elsewhere in the same x plane |
| Lattice.BccBonds | OculusRoomModel.cpp:216-228 | the BCC branch adds at most four bonds, each ending at the site and starting in the row below |
| Lattice.BondsAt | OculusRoomModel.cpp:179-228 | every bond a site adds ends at that site |
| Lattice.SiteEntries | OculusRoomModel.cpp:173-244 | one pass of the switch adds at most five entries: the site's own atom, and bonds ending at the site |
| Lattice.Numerators | OculusRoomModel.cpp:190-240 | no positioner moves a site off its row, and only BCC moves it along z |
| Lattice.AxisWeights | OculusRoomModel.cpp:190-240 | every axis scale is positive, and x and z are scaled alike |
| Lattice.Population | OculusRoomModel.cpp:165-247 | the entries of the triple loop in order; no contract of its own, its meaning is PopulationMember and PopulateRoomScene |
| Lattice.DistanceFromSteps | OculusRoomModel.cpp:190-191 | a numerator step of at most one per axis contributes that axis' weight to the squared distance |
| Lattice.CubeBondUnit | OculusRoomModel.cpp:179-185 | each Cube bond ends at the current site and starts at a grid site one unit away |
| Lattice.FccBondUnit | OculusRoomModel.cpp:190-204 | each FCC bond ends at the current site and starts at a grid site one unit away |
| Lattice.FccStep | OculusRoomModel.cpp:190-204 | FCC neighbours one step below in y, in z, or diagonally are one unit away |
| Lattice.FccShiftedSites | OculusRoomModel.cpp:191-192 | on the grid FCC shifts x by one step exactly at sites whose plain coordinate sum is even |
| Lattice.FccCoincidentPairs | OculusRoomModel.cpp:190-192 | a site with an even plain sum and its neighbour along x get the same FCC position |
| Lattice.FccOriginPair | OculusRoomModel.cpp:191-192 | the origin and (1,0,0) both sit at (sqrt(1/2), 0, 0) |
| Lattice.BccBondUnit | OculusRoomModel.cpp:209-226 | each BCC bond ends at the current site and starts at a grid site in the row below, one unit away |
| Lattice.BccStep | OculusRoomModel.cpp:210-213 | BCC neighbours in the row below, at the same x and z or shifted by the row parity, are one unit away |
| Lattice.BccShiftedRows | OculusRoomModel.cpp:211-212 | on the grid BCC shifts x and z by half a step exactly on even rows |
| Lattice.BccRepeatedBond | OculusRoomModel.cpp:217-226 | where `iy + cells` is even, the BCC branch adds the bond from straight below four times |
| Lattice.BccMissedDistance | OculusRoomModel.cpp:210-213 | on those rows the site one step back along x in the row below is one unit away |
| Lattice.BccMissedNeighbour | OculusRoomModel.cpp:216-228 | on those rows that unit-distance neighbour is never bonded to the site |
| Lattice.SiteBondsUnit | OculusRoomModel.cpp:173-244 | whatever the structure, every bond a grid site emits ends there and starts at a grid site one unit away |
| Lattice.SiteAtom | OculusRoomModel.cpp:177-178 | the atom a site emits sits on that site |
| Lattice.DiamondAcceptsInGrid | OculusRoomModel.cpp:233-239 | on the grid, the C++ Diamond test equals the same test in Euclidean arithmetic |
| Lattice.DiamondShiftedSum | OculusRoomModel.cpp:236 | the mod-4 test is on the shifted sum: the origin is rejected and (1,1,1) is accepted |
| Lattice.DiamondSiteEntries | OculusRoomModel.cpp:231-242 | a Diamond site emits its atom when atoms are drawn and the test passes, and nothing else |
| Lattice.CubeSiteAtoms | OculusRoomModel.cpp:175-178 | a Cube site emits its own atom once and no other atom |
| Lattice.PopulationWitness | OculusRoomModel.cpp:167-244 | every entry of the population was emitted by some grid site |
| Lattice.PopulationContains | OculusRoomModel.cpp:167-244 | everything a grid site emits is in the population |
| Lattice.PopulationMember | OculusRoomModel.cpp:167-244 | an entry is in the population exactly when some grid site emits it |
| Lattice.EntryInGrid | OculusRoomModel.cpp:167-244 | an entry is an atom on a grid site, or a unit bond between two grid sites |
| Lattice.PopulationStaysInGrid | OculusRoomModel.cpp:165-244 | all atoms lie on grid sites; all bonds join two grid sites exactly one unit apart |
| Lattice.DiamondEntryIsAtom | OculusRoomModel.cpp:229-242 | a Diamond population holds atoms only |
| Lattice.DiamondAtomSite | OculusRoomModel.cpp:229-242 | Diamond places an atom on p exactly when atoms are drawn, p is in `[-6, 6)^3`, the shifted parities agree and the shifted sum is 0 or 1 mod 4 |
| Lattice.DiamondAtoms | OculusRoomModel.cpp:229-242 | both facts above for the whole Diamond population |
| Lattice.DiamondAtomAt | OculusRoomModel.cpp:233-239 | an atom Diamond emits at a site sits there, and the site passed the test |
| Lattice.CubeSiteAtomOnly | OculusRoomModel.cpp:175-179 | without bonds, a Cube site emits exactly its atom |
| Lattice.CubeOneAtomPerSite | OculusRoomModel.cpp:165-178 | with atoms drawn, Cube puts exactly one atom on every site of `[-3, 3)^3` and none elsewhere |
| Lattice.CubeAtomCount | OculusRoomModel.cpp:165-178 | Cube with atoms and no bonds yields 216 entries |
| Lattice.DefaultIsCube | OculusTest.h:6-13 | the count value `Num_CrystalStructure` falls to `default:` and populates exactly as Cube |
| Scenes.Scene.Clear | OculusRoomModel.cpp:107 | clearing the world empties it and keeps the lights |
| Scenes.Scene.Add | OculusRoomModel.cpp:148 | adding a model appends it to the world |
| Scenes.Scene.AddLight | OculusRoomModel.cpp:251-253 | each light adds one to the light count and leaves the world unchanged |
| Scenes.AddBondIf | OculusRoomModel.cpp:180-185 | a guarded `addBond` appends the bond exactly when the guard holds |
| Scenes.AddSiteEntries | OculusRoomModel.cpp:173-244 | one pass of the switch appends that site's entries, atom first |
| Scenes.AddCubeBonds | OculusRoomModel.cpp:179-186 | the Cube branch appends its guarded bonds to the x, y and z predecessors |
| Scenes.AddFccBonds | OculusRoomModel.cpp:196-205 | the FCC branch appends its four guarded bonds |
| Scenes.AddBccBonds | OculusRoomModel.cpp:216-227 | the BCC branch appends the unconditional bond and the three guarded shifted ones, all from the row below |
| Scenes.PopulateRoomScene | OculusRoomModel.cpp:103-253 | whatever the scene held, it ends with exactly the lattice population, in loop order, and three lights |
| Scenes.PopulateTwice | OculusRoomModel.cpp:103-253 | populating twice leaves the same world and light count as populating once |
| Scenes.ColumnStep | OculusRoomModel.cpp:171 | one more z step appends that site's entries to the column |
| Scenes.PlaneStep | OculusRoomModel.cpp:169 | one more y step appends a full column to the plane |
| Scenes.VolumeStep | OculusRoomModel.cpp:167 | one more x step appends a full plane to the volume |

## Left out

- The direction-to-rotation helper (`OculusRoomModel.cpp:109-137`) and the cylinder orientation it sets. This is floating-point quaternion arithmetic; bonds are modelled by their two end sites.
- Float rounding of positions. `scale`, the sphere and cylinder radii and the bond midpoints are also left out. Positions are the real values the floats approximate (`Lattice.Numerators`, `Lattice.AxisWeights`). Unit bond length is proved for those real values, not for the rounded floats.
- Texture upload and sampling: the `CreateTexture`, `SetSampleMode`, shader and lit-texture setup (`OculusRoomModel.cpp:58-59, 69-70, 80-81, 84-99`). These are calls into the renderer, and the model keeps only the pixel buffers.
- The `FillCollection` built at the top of `PopulateRoomScene`. Every model's fill is always the checker texture, so a scene entry records no fill.
- The ambient colour, and the light positions and colours. Only the number of lights is modelled.
- `Tex_None` and `Tex_Count`: they name no pixels.
- `ToggleStructure` and `ResizeAtom` are only declared in `OculusTest.h`; their bodies are not part of this model.
- `drawAtom` and `drawBond` are read by the population but not declared in `OculusTest.h`. They are fields of the model's `SceneBuilder`.
- The renderer's `Scene` is external code. Only its world list and light count are modelled, not any bound on the light array.
- Lattice.DiamondAtoms: characterises the Diamond atom sites but does not prove how many there are.
