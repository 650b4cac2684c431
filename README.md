# penrose_diffusion, modelled in Dafny

This project models the geometric core of penrose_diffusion. That core covers
two canvases, a dataset and a sampler:

- **Hexagonal rings** (`hex_rings.py`, `hex_base.py`, `hex_utils.py`). Cells
  are cube coordinates (q, r, s) with q + r + s = 0. `get_color` 2-colours
  them so that no two dark cells touch. `get_hex_ring` walks the ring at
  distance d with six sides of d steps each, and the grid builders
  concatenate rings. `Hexagon`, `HexXYA` and `HexGrid` are classes whose
  fields are updated in place.
- **Penrose P3 tiling** (`pen_base.py`). Robinson triangles (`Fatt`,
  `Thin`) are values over complex vertices. `PenroseP3` holds the list of
  triangles and changes it in place: inflation, conjugate extension,
  rotation, the two flips, and removal of mirror images.
- **ImageSet** (`ImageSet.py`). A sorted list of mask files named
  `<class>-<number>` becomes binarised masks. Class ids are numbered in order
  of first appearance. The two dictionaries of the class are mutual inverses.
- **Generator** (`Generator.py`). Each canvas unit has four corner probes.
  Its coverage is the number of probes that land on an "on" mask pixel,
  from 0 to 4. A buffer of `sample_size` rows is filled with units of
  coverage 4, then 3, 2 and 1. The module also models the unit area, the
  density and the sample name.

The files are `wrappers.dfy` (Option and Result), `utils.dfy` (complex
numbers, `deg`, `reim`, `cross`), `hex_rings.dfy`, `hex_utils.dfy`,
`hex_base.dfy`, `pen_base.dfy`, `image_set.dfy` and `generator.dfy`.

Loops that update state are methods with loop invariants. Each is proved
equal to a specification function, such as `HexRings.Ring` or
`PenBase.InflateTimes`, and the lemmas state the properties of those
functions. Irrational constants (sqrt 3, psi, pi, sin(pi/5), sin(2 pi/5)) are
the shortest decimal literals that round to the doubles Python uses. Lemmas bound their
defining identities to within 1e-14 or 1e-15.

The ring of `hex_base.get_hex_ring` repeats its starting cell at the end:
6d + 1 hexagons for d > 0, with the last one equal to the first
(`HexBase.BaseRingShape`). `HexagonGrid.from_degree(n)` therefore holds
n(3n − 2) hexagons, not 3n(n − 1) + 1. The model keeps this behaviour as the
code has it.

## Model

| member | source | states |
|---|---|---|
| Utils.ReIm | utils.py:6-7 | the pair rebuilds the complex number it came from |
| Utils.DegZeroAndLinear | utils.py:3-4 | `deg` maps 0 to 0 and is linear |
| Utils.CrossAntisymmetric | utils.py:12-13 | `cross(u, v) = -cross(v, u)`, and `cross(u, u) = 0` |
| Utils.CrossOrientation | utils.py:12-13 | counter-clockwise is positive: `cross(1, i) = 1` |
| Utils.CrossBilinear | utils.py:12-13 | `cross` is linear in each argument |
| Utils.CrossUnderRotation | utils.py:12-13 | multiplying both arguments by `rot` scales `cross` by abs(rot)^2 |
| Utils.CrossUnderConjugation | utils.py:12-13 | conjugating both arguments negates `cross` |
| HexRings.Color | hex_rings.py:1-6 | the colour is 0 or 1 |
| HexRings.ColorIsCongruence | hex_rings.py:1-6 | on the plane q + r + s = 0, a cell is dark exactly when q ≡ r (mod 3) |
| HexRings.NoAdjacentDark | hex_rings.py:1-6 | two neighbouring cells are never both dark |
| HexRings.StepAlongSide | hex_rings.py:28-34 | each step adds the side's direction, and each side ends where the next one starts |
| HexRings.SidesLength | hex_rings.py:28-34 | after k sides the walk holds k·d cells |
| HexRings.SideStep | hex_rings.py:28-34 | consecutive cells of one side are neighbours |
| HexRings.RingPointOnRing | hex_rings.py:28-34 | every cell of every side is on the plane at distance d |
| HexRings.SidesAdjacent | hex_rings.py:28-34 | consecutive cells of the walk are neighbours across the corners too, and after k sides the walk ends one step before corner k |
| HexRings.RingZero | hex_rings.py:13-14 | ring 0 is the single origin cell, coloured dark |
| HexRings.RingLength | hex_rings.py:16-36 | ring d > 0 has 6d cells and starts at (0, −d, d) |
| HexRings.RingOnRing | hex_rings.py:8-36 | every cell of ring d is on the plane at distance d and carries its own colour |
| HexRings.RingAdjacent | hex_rings.py:28-34 | consecutive cells of a ring are neighbours, and the last one touches the first |
| HexRings.RingDistinct | hex_rings.py:8-36 | a ring never repeats a cell |
| HexRings.RingsUpToLength | hex_rings.py:38-47 | rings 0..n−1 hold 1 + 3n(n−1) cells, or none when n ≤ 0 |
| HexRings.RingNonEmpty | hex_rings.py:49-60 | every ring adds at least one cell, so the count loop ends |
| HexRings.GetHexRing | hex_rings.py:8-36 | the nested loops build exactly `Ring(degree)` |
| HexRings.GetHexRingsDegree | hex_rings.py:38-47 | the result is the rings 0..max_degree−1 concatenated |
| HexRings.GetHexRingsCount | hex_rings.py:49-60 | at least `hex_count` cells, made of whole rings, and no ring more than needed |
| HexUtils.Sqrt3Accuracy | hex_utils.py:5 | the sqrt(3) literal squares to 3 within 1e-15 |
| HexUtils.CubeToXYLinear | hex_utils.py:3-7 | the centre is side·(sqrt3·(q + r/2), 1.5·r); the origin maps to (0, 0), and the centre scales with the side |
| HexUtils.HexCentersXY | hex_utils.py:9-23 | one record per input keeps q, r and s, takes colour 0 for a 3-tuple, and holds the `cube_to_xy` centre |
| HexBase.BaseRingLength | hex_base.py:55-66 | the ring of degree d ≥ 0 has 6d + 1 hexagons |
| HexBase.BaseRingShape | hex_base.py:55-66 | it starts and ends at (0, −d, d), its first 6d cells are those of `hex_rings.get_hex_ring`, and all lie at distance d |
| HexBase.BaseRingAdjacent | hex_base.py:62-64 | each appended hexagon neighbours the previous one |
| HexBase.BaseRingsUpToLength | hex_base.py:70-74 | degrees 0..n−1 give n(3n − 2) hexagons |
| HexBase.Hexagon.constructor | hex_base.py:11-18 | the hexagon keeps q, r, s, side and angle; its colour is `get_color(q, r, s)`; the assert becomes the requirement q + r + s = 0 |
| HexBase.Hexagon.Scale | hex_base.py:39-40 | the side is multiplied by the factor |
| HexBase.Hexagon.Add | hex_base.py:42-44 | a new hexagon at the shifted cell with the same side and angle; when the shift is one of the six directions, the two hexagons are not both dark |
| HexBase.AppendMove | hex_base.py:63-64 | appending last + direction keeps the earlier hexagons and adds one a move further on, with the default side and angle |
| HexBase.WalkSide | hex_base.py:62-64 | one side appends d hexagons whose cells are that side of the ring, all with the default side and angle |
| HexBase.GetHexagonRing | hex_base.py:55-66 | the cells of the result are `BaseRing(degree)`, all hexagons of side 1 and angle 0 |
| HexBase.HexagonGrid.constructor | hex_base.py:85-86 | the grid holds the given hexagons |
| HexBase.HexagonGrid.FromDegree | hex_base.py:70-74 | the grid holds the rings of degrees 0..max_degree−1 in order |
| HexBase.HexagonGrid.FromCount | hex_base.py:76-83 | at least `target_count` hexagons, made of whole rings, with no ring more than needed |
| HexBase.Hexagon.Center | hex_base.py:20-24 | cube_to_xy of the cell at the hexagon's side: x = side·√3·(q + r/2), y = side·3/2·r |
| HexBase.HexXYA.constructor | hex_base.py:92-96 | x and y are the hexagon's centre; colour, angle and side are copied |
| HexBase.HexXYA.Translate | hex_base.py:105-107 | x and y are shifted, and angle and side are unchanged |
| HexBase.HexXYA.Scale | hex_base.py:109-112 | x, y and side are multiplied by the factor, and the angle is unchanged |
| HexBase.HexGrid.constructor | hex_base.py:120-121 | one fresh, distinct HexXYA per hexagon, in order |
| HexBase.HexGrid.Translate | hex_base.py:127-129 | every element is translated |
| HexBase.HexGrid.Scale | hex_base.py:131-133 | every element is scaled |
| HexBase.HexGrid.Len | hex_base.py:138-139 | the number of elements |
| HexBase.HexGrid.Side | hex_base.py:141-143 | the side of the first element; none (IndexError) for an empty grid |
| PenBase.PsiFacts | pen_base.py:5-6 | psi + psi2 = 1, 0 < psi2 < psi < 1, and psi² = psi2 within 1e-15 |
| PenBase.Centre | pen_base.py:16-18 | the midpoint of the base: twice it is A + C, and it is equidistant from A and C |
| PenBase.ConjugateInvolution | pen_base.py:20-24 | conjugation keeps the kind, is an involution and conjugates the centre |
| PenBase.InflateTile | pen_base.py:71-100 | a Fatt gives Fatt, Thin, Fatt; a Thin gives Thin, Fatt |
| PenBase.InflateTileGeometry | pen_base.py:71-100 | the new vertices cut the old edges into parts psi and psi2 of their length (AC and AB of a Fatt, AB of a Thin), and the children are built from those points and the old vertices in the stated order |
| PenBase.MulIsRotation | pen_base.py:124-129 | multiplying by `rot` is the 2×2 rotation matrix of `rot` |
| PenBase.VertexMapsAreLinear | pen_base.py:124-143 | rotate, flip_y and conjugate apply one fixed linear map to each vertex |
| PenBase.InflateCommutes | pen_base.py:71-100 | inflating a transformed triangle is transforming its children, for any linear map |
| PenBase.FlipLaws | pen_base.py:131-143 | conjugating twice and flipping y twice give the triangle back, and flip_y after conjugate is a half turn |
| PenBase.RotateCompose | pen_base.py:124-129 | rotating by u and then by w is rotating by u·w |
| PenBase.InflateAllAppend | pen_base.py:112-118 | one inflation pass distributes over concatenation |
| PenBase.InflateAllCounts | pen_base.py:112-118 | one pass maps (fat, thin) to (2·fat + thin, fat + thin), and the list grows by a factor between 2 and 3 |
| PenBase.TileCounts | pen_base.py:71-100 | a Fatt has two Fatt children and a Thin one; a Thin has one of each |
| PenBase.InflateAllCommutes | pen_base.py:112-118 | one pass commutes with any linear map of the vertices |
| PenBase.InsertByCentre | pen_base.py:149 | insertion adds exactly the element |
| PenBase.InsertMembers | pen_base.py:149 | insertion adds nothing but the element |
| PenBase.InsertSorted | pen_base.py:149 | insertion keeps the list ordered by (centre.real, centre.imag) |
| PenBase.SortByCentre | pen_base.py:149 | the result is ordered by centre and is a permutation of the input |
| PenBase.SortStable | pen_base.py:149 | the sort is stable: the triangles with any one centre keep their input order |
| PenBase.InsertWithCentre | pen_base.py:149 | insertion places the new triangle behind every triangle with the same centre |
| PenBase.Dedup | pen_base.py:150-154 | the first element is kept, and the result has 1..n elements |
| PenBase.DedupSubMultiset | pen_base.py:150-154 | the scan only drops elements: the result is a sub-multiset of the input |
| PenBase.DedupStep | pen_base.py:152-154 | each step appends element i + 1 exactly when its centre is not near that of element i |
| PenBase.ScanDedup | pen_base.py:150-154 | the loop over the sorted list keeps exactly what `Dedup` keeps |
| PenBase.DedupCount | pen_base.py:150-154 | the result has one element plus one per adjacent pair farther apart than TOL |
| PenBase.DedupAllFar | pen_base.py:150-154 | when no adjacent pair is near, nothing is removed |
| PenBase.DedupPrefixFar | pen_base.py:150-154 | when no adjacent pair is near, every prefix is kept whole |
| PenBase.DedupAllNear | pen_base.py:150-154 | when every adjacent pair is near, only the first element remains |
| PenBase.FirstKeptIsSmallest | pen_base.py:149-150 | the first kept triangle has the smallest centre |
| PenBase.ConjugatesSymmetric | pen_base.py:120-122 | after the extension, conjugating everything gives the same multiset of triangles |
| PenBase.PenroseP3.constructor | pen_base.py:109-110 | the tiling holds the initial tiles |
| PenBase.PenroseP3.Inflate | pen_base.py:112-118 | the elements are inflated `times` times (no pass when times ≤ 0) |
| PenBase.PenroseP3.AddConjugateElements | pen_base.py:120-122 | the conjugates of the old elements are appended |
| PenBase.PenroseP3.Rotate | pen_base.py:124-129 | every vertex is multiplied by `rot` |
| PenBase.PenroseP3.FlipY | pen_base.py:131-136 | every vertex has its real part negated |
| PenBase.PenroseP3.FlipX | pen_base.py:138-143 | every triangle is conjugated in place |
| PenBase.PenroseP3.RemoveMirrorImages | pen_base.py:145-154 | fails and changes nothing on an empty tiling; otherwise the sorted list with near duplicates of their predecessor dropped |
| ImageSet.ThresholdFacts | ImageSet.py:30 | a thresholded pixel is 0 or 1, is 1 exactly when the pixel was > 0, and thresholding is idempotent |
| ImageSet.Binarized | ImageSet.py:30 | binarising keeps the shape of the grid |
| ImageSet.NewArray | ImageSet.py:20 | a fresh array holds the grid |
| ImageSet.Binarize | ImageSet.py:30 | every array entry is thresholded in place |
| ImageSet.ReadMask | ImageSet.py:19-31 | the mask is the crop of the binarised pixels |
| ImageSet.BinarySumBounds | ImageSet.py:40 | the `on` count of a binarised mask is between 0 and the number of pixels |
| ImageSet.Split | ImageSet.py:33 | `split("-")` gives at least one piece |
| ImageSet.SplitPiecesHaveNoDash | ImageSet.py:33 | no piece contains a dash |
| ImageSet.SplitCount | ImageSet.py:33 | there is one more piece than there are dashes |
| ImageSet.SplitJoin | ImageSet.py:33 | joining the pieces with dashes gives back the stem |
| ImageSet.SplitTwo | ImageSet.py:33 | two dash-free parts joined by one dash split back into those two |
| ImageSet.ParseInt | ImageSet.py:40 | without a minus sign the value is not negative; ParseDecimal states that it reads back every numeral `str()` writes, with or without a leading zero |
| ImageSet.ParseDecimal | ImageSet.py:40 | `int()` reads back a decimal numeral, with or without a leading zero |
| ImageSet.ParseStemSpec | ImageSet.py:33-40 | a stem parses exactly when it has one dash and an integer after it; the class name then has no dash, and the stem is name-dash-number |
| ImageSet.FirstAppearance | ImageSet.py:34-37 | the order of first appearance is no longer than the names |
| ImageSet.FirstAppearanceNames | ImageSet.py:34-37 | a name is in the order of first appearance exactly when it occurs |
| ImageSet.FirstAppearanceOrder | ImageSet.py:34-37 | it holds each name once, exactly the names that occur, ordered by first occurrence |
| ImageSet.ClassCount | ImageSet.py:43 | `num_classes` is the number of distinct class names |
| ImageSet.FirstBadStem | ImageSet.py:33-40 | the first file whose stem fails to parse, with every earlier stem parsing |
| ImageSet.FirstBadStemAt | ImageSet.py:33-40 | a failing stem with only good stems before it is the first bad stem |
| ImageSet.ImageSet.constructor | ImageSet.py:11-16 | both dictionaries, the counter and the sample list start empty |
| ImageSet.ImageSet.Intern | ImageSet.py:34-39 | a known name keeps its id; a new name gets the next id in both dictionaries; the dictionaries stay inverse |
| ImageSet.ImageSet.AddFile | ImageSet.py:30-41 | one file either fails on its stem or appends its sample with the interned class id |
| ImageSet.ImageSet.LoadFile | ImageSet.py:30-41 | one loop iteration fails exactly when the stem fails, with its error; otherwise it extends the loaded prefix by one file |
| ImageSet.LoadedExtend | ImageSet.py:34-41 | interning one more name and appending its sample keeps the prefix invariant of the load loop |
| ImageSet.ImageSet.Load | ImageSet.py:18-43 | fails exactly when some stem fails, with the first failing stem's error; on success the ids follow first appearance, the dictionaries are inverse, and sample i is built from file i |
| ImageSet.ImageSet.Len | ImageSet.py:50-51 | the number of samples |
| ImageSet.ImageSet.GetItem | ImageSet.py:53-54 | Python indexing: defined exactly for −n ≤ idx < n |
| ImageSet.ImageSet.GetItemWraps | ImageSet.py:53-54 | a negative index counts from the end, and −1 is the last sample |
| ImageSet.MakeSample | ImageSet.py:40 | the sample's mask is the cropped binarised grid, `on` is its sum, and the name, id and number are kept |
| Generator.UnitArea | Generator.py:129-141 | both unit areas are positive |
| Generator.RotRange | Generator.py:131-142 | both rotation ranges lie strictly between 0 and pi |
| Generator.UnitAreaValues | Generator.py:129-141 | within 1e-14, the hexagon area h has 4h² = 27, and the two sines satisfy 8 sin²(pi/5) = 5 − √5 and 8 sin²(2 pi/5) = 5 + √5 (√5 written as 2ψ + 1) |
| Generator.NewXYIsRowTimesMatrix | Generator.py:72-81 | the new position is [x, y] @ rot_mat minus (x0, y0), and a unit rotation factor keeps distances between units |
| Generator.Row | Generator.py:110-113 | a filled row has five columns |
| Generator.Probe | Generator.py:66-68 | a probe outside 0 ≤ u < H, 0 ≤ v < W adds nothing; inside it adds the mask value |
| Generator.CoverageBounds | Generator.py:65-68 | over a 0/1 mask every coverage is in [0, 4] |
| Generator.CoverageExtremes | Generator.py:66-96 | four in-bounds "on" probes give 4, and four out-of-bounds probes give 0 |
| Generator.BinarizedCoverageBounds | Generator.py:65-96 | over a binarised mask every coverage is in [0, 4] |
| Generator.UpdateCoverage | Generator.py:66-68 | each unit's count grows by exactly its probe's contribution |
| Generator.ComputeCoverage | Generator.py:65-96 | the array after the four passes holds each unit's four-probe sum |
| Generator.ClassIndicesSpec | Generator.py:98 | `flatnonzero(coverage == val)`: every entry is an index holding that value, the entries ascend, and every index holding that value appears |
| Generator.ClassIndicesCount | Generator.py:98 | it has as many entries as there are units with that value |
| Generator.UpperMembers | Generator.py:103-114 | the classes processed so far hold exactly the units whose coverage is in those classes |
| Generator.UpperOrder | Generator.py:103-114 | classes come in decreasing order, with ascending index within a class |
| Generator.UpperCount | Generator.py:103-114 | their number is the count of units in those classes |
| Generator.CandidatesSpec | Generator.py:98-114 | candidates are exactly the units of coverage 1..4, a coverage-0 unit never appears, and the order is class 4 → 1 and then ascending index |
| Generator.CandidatesInRange | Generator.py:98-114 | every candidate is a valid unit index |
| Generator.CandidatesDistinct | Generator.py:98-114 | no unit is selected twice |
| Generator.Pad2 | Generator.py:116 | `{:02d}` gives at least two characters |
| Generator.Pad2Shape | Generator.py:116 | one digit gets one leading zero; two or more digits are written as they are |
| Generator.NameRoundTrip | Generator.py:116 | a name of a dash-free class and a non-negative id parses back into both |
| Generator.Generator.constructor | Generator.py:21-35 | the generator keeps its kind, canvas, sample size and unit side |
| Generator.Generator.AreaOfOneUnit | Generator.py:48-50 | the area is non-negative, and it is zero exactly when the unit side is zero |
| Generator.Generator.Density | Generator.py:52-54 | none exactly when the unit side is zero, the case where numpy returns inf |
| Generator.Generator.AreaAndDensity | Generator.py:48-54 | the area is unit_area·side², positive for a non-zero side, and density·area = 1 |
| Generator.Generator.DensityScales | Generator.py:48-54 | doubling the unit side divides the density by four |
| Generator.Generator.GetSample | Generator.py:56-126 | `ret` has sample_size × 5 entries; `taken` = min(sample_size, number of units with coverage 1..4); row k < taken is the k-th candidate's row; later rows are zero; the name is the formatted class name and number |
| Generator.Generator.Select | Generator.py:98-114 | the class loop fills the first min(sample_size, number of candidates) rows from the candidates and leaves the rest zero |
| Generator.Generator.TakeClass | Generator.py:104-114 | one class appends its first indices, up to the free rows |
| Generator.Generator.TakenSaturates | Generator.py:104-105 | further classes do not change the first sample_size candidates |
| Generator.FillRows | Generator.py:108-114 | rows taken..taken+len(take) get the selected units' rows, and the rows after them stay zero |

## Left out

- Floating point is modelled as exact real arithmetic. IEEE rounding and NaN are not modelled, and the irrational constants are decimal literals.
- Trigonometry, square roots and `cmath.phase` are not modelled. This leaves out `reparametrize`/`from_reparametrized` (pen_base.py:26-62), the hexagon corners (`vertices`, `hex_corner_xy`, `hex_corners_xy`), `HexXYA.rotate` and `HexGrid.rotate`, and the `scaling`/`eqsqhfsd` computation in `get_sample`.
- PenBase.PenroseP3.Rotate takes the rotation factor cos θ + i sin θ instead of θ, because the cosine and sine are not modelled.
- Generator.Generator.GetSample takes the random draws θ, x0 and y0 as inputs, with the rotation factor (cos θ, sin θ) and the four rounded probe coordinates of every unit. `np.random.uniform` and `np.round` are not modelled.
- Generator.Generator.GetSample takes the sample as a parameter instead of calling `next` on the random iterator. `ImageSet.__iter__` and `get_random_sample` are random draws and are not modelled.
- Generator.Generator.constructor takes the canvas of units as a parameter. `_get_mother_tiles` is abstract in the base class (it raises NotImplementedError). `inscribed_square_halfside` is imported from utils (Generator.py:10, called at Generator.py:33) and `PenGrid` from pen_base (Generator.py:6, used at Generator.py:164), but neither is defined anywhere in the repository, so the half side and the Penrose grid cannot be modelled.
- Generator.Generator.constructor: `sample_size` is a natural number. A negative size, which makes `np.zeros` raise, is excluded by the type.
- The diagnostic prints (Generator.py:37-40, 117-123; ImageSet.py:22-28, 45-48) and the unused `take_now` are left out. They do not affect the results.
- ImageSet.ImageSet.Load takes the files as (stem, pixel grid) pairs that are already sorted. Globbing, `sorted(Path.glob)` and PIL decoding are I/O.
- ImageSet.ImageSet.Load takes `zealous_crop` as an arbitrary function parameter. It is imported from utils (ImageSet.py:6, called at ImageSet.py:31) but defined nowhere in the repository, so its behaviour is unknown and not modelled.
- HexUtils.HexCentersXY takes entries with three or four fields only. In the source, an entry of any other length fails the `q, r, s = hex_data` unpacking with ValueError (hex_utils.py:14-17); the input type excludes those entries, so that error path is not modelled.
- ImageSet.ParseInt accepts an optional sign, ASCII digits and single underscores between digits. Surrounding whitespace and non-ASCII digits, which Python's `int()` also accepts, are not modelled.
- PenBase.PenroseP3: triangles are values. The source's constructor stores the caller's own list (pen_base.py:109-110), so `add_conjugate_elements`, `rotate` and the flips also change the caller's list and its triangle objects in place. The model copies the list and does not capture that aliasing.
- Generator.Generator.Density: a zero unit side gives None. The source divides by a numpy float there, which returns inf with a warning and raises nothing; infinity is not modelled.
- HexBase.Hexagon.constructor and HexBase.Hexagon.Add require q + r + s = 0. The source checks this with `assert` (hex_base.py:11-18), so a call that breaks it raises AssertionError there; the model leaves that error path out and makes the sum a precondition.
- `intreim` (utils.py:9-10) rounds to integers and is not used by the modelled code.
- All of the SVG writers (`hex_svg.py`, `pen_svg.py`), `HexGenerator.py`, the pre-generation scripts and the example drivers are out of scope. They are I/O or call functions that do not exist in the repository.
- `HexagonGrid.__iter__` and `HexGrid.__iter__` only expose the stored lists. The model exposes the same lists as fields.
