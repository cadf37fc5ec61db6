# A verified model of the MBTR indexing engine and the SOAP dispatch layer

This project models two parts of the DScribe descriptor library in Dafny:

1. **`CMBTR`**, the C++ class behind the many-body tensor representation
   (`describe/libmbtr/cmbtr.cpp`). It holds the atom positions, the atomic
   numbers, a species-to-index map and a `cellLimit`, and it lazily builds
   and caches the following:
   - the displacement tensor and the distance matrix;
   - the lists of atom pairs (k=2) and triples (k=3) that touch the original
     cell;
   - the k=2 and k=3 maps, which file one geometry value and one weight per
     pair or triple under a canonical species-index key;
   - the same maps re-keyed by the strings `"i,j"` and `"i,j,k"` for Cython.

   The class is a Dafny `class` with the same fields and flags. Each method
   is proved to move the object from its state before the call to the state
   that a pure step function of `MbtrState` gives. The properties are lemmas
   about those steps:
   - the exact enumeration rules;
   - the flag state machine;
   - key canonicalisation;
   - one stored value per enumerated index;
   - the error paths;
   - the string round trip.
2. **soaplite** (`dscribe/descriptors/soaplite.py`), which is modelled in
   three parts:
   - `_format_ase2clusgeo`, which partitions atoms by species;
   - the parameter checks, kernel-variant choice, buffer sizes and reshape
     shapes of the GTO and polynomial entry points, and of their structure
     and periodic wrappers;
   - the tables of `get_basis_poly`: the overlap matrix, the 100 abscissas,
     the radii and the shape-function table.

Floating-point numbers are modelled as `real`. The float library calls are
function-valued parameters:
- in the MBTR model, `sqrt`, `exp` and division are the fields of
  `Numerics`;
- in SOAP, `math.sqrt` is a `sqrt` parameter;
- `sqrtm(inv(S))` is an opaque `lowdin` oracle that returns a real root, a
  complex root, or a singular matrix;
- `get_extended_system` is an `extend` parameter.

The native SOAP kernel is not modelled. An entry point's result is the
`KernelCall` it would make: every argument passed, the buffer length
allocated, and the reshape shape.

Files:
- `wrappers.dfy`: Option/Result.
- `grouping.dfy`: `map[key].push_back(v)` and grouping lemmas.
- `mbtr_indices.dfy`: pair and triple enumeration.
- `mbtr_geometry.dfy`: tensor, distances, geometry and weight maps.
- `mbtr_maps.dfy`: the species map, keys and the assembly loops.
- `mbtr_strings.dfy`: decimal keys and re-keying.
- `mbtr_state.dfy`: the pure state machine.
- `mbtr.dfy`: the `CMBTR` class.
- `soap_marshal.dfy`: `_format_ase2clusgeo`.
- `soap_basis.dfy`: `get_basis_poly`.
- `soap_dispatch.dfy`: the entry points.

## Behaviour of the code worth knowing

- **When `_format_ase2clusgeo` fails.** It fails exactly when the species
  universe is empty, because `np.concatenate` of an empty list raises. An
  empty structure with `all_atomtypes` given does not fail, and
  `all_atomtypes=[]` fails even for a non-empty structure.
- **Per-species counts.** They sum to the number of atoms only when
  `all_atomtypes` is absent or covers every species present. `totalAN` is
  always `len(obj)`.
- **Symmetry of the abscissas.** As decimal literals they are not exactly
  symmetric: for example `x[49]` and `x[50]` differ in the last digit. The
  model proves `|x[k] + x[99-k]| < 1e-17`.
- **Range of `nmax` in `get_basis_poly`.** Only a negative `nmax` raises,
  in `np.zeros`. `nmax = 0` is passed on to the matrix root.
- **Order of checks in the polynomial path.** `get_basis_poly` runs before
  the range checks, so its errors are reported first.
- **Order of checks in the periodic wrappers.** They compute
  `sqrt(1.0/(2*eta))` before any range check. So `eta == 0` raises a
  division error, `eta < 0` raises a math domain error, and in those cases
  the `eta` assertion is never reached.
- **The displacement-tensor loop.** Its comment speaks of the "upper
  triangular" part, but the loop computes the cells with `i > j` and mirrors
  them. `getk2Indices` keeps `j > i`.

## Model

| member | source | states |
|---|---|---|
| MbtrIndices.K2Pairs | describe/libmbtr/cmbtr.cpp:194-208 | every listed pair names two existing atoms |
| MbtrIndices.K2PairsEnumerate | describe/libmbtr/cmbtr.cpp:194-208 | the pair list holds exactly the pairs 0 <= i < j < nAtoms with i < cellLimit or j < cellLimit, in strictly increasing lexicographic order (hence without duplicates) |
| MbtrIndices.EnumerateK2 | describe/libmbtr/cmbtr.cpp:189-208 | the nested loops with their filters produce that pair list |
| MbtrIndices.K2EnumerationUnique | describe/libmbtr/cmbtr.cpp:194-208 | any two lists with the enumeration property are equal, so the property fixes the result |
| MbtrIndices.K3Triples | describe/libmbtr/cmbtr.cpp:225-246 | every listed triple names three existing atoms |
| MbtrIndices.K3TriplesEnumerate | describe/libmbtr/cmbtr.cpp:225-246 | the triple list holds exactly the triples of existing atoms that are pairwise distinct, have k > i and have one index below cellLimit, in strictly increasing lexicographic order |
| MbtrIndices.EnumerateK3 | describe/libmbtr/cmbtr.cpp:220-246 | the triple-nested loops with their filters produce that triple list |
| MbtrIndices.K3EnumerationUnique | describe/libmbtr/cmbtr.cpp:225-246 | any two lists with the k=3 enumeration property are equal |
| MbtrGeometry.Displacements | describe/libmbtr/cmbtr.cpp:35-61 | the tensor is n x n, antisymmetric (t[a][b] == -t[b][a]) and zero on the diagonal |
| MbtrGeometry.ComputeDisplacementTensor | describe/libmbtr/cmbtr.cpp:35-61 | filling cells with i > j as pos[j] - pos[i] and mirroring the negation gives exactly that tensor |
| MbtrGeometry.Distances | describe/libmbtr/cmbtr.cpp:72-94 | the distance matrix is n x n, symmetric, with a zero diagonal |
| MbtrGeometry.DistanceIsLength | describe/libmbtr/cmbtr.cpp:72-94 | off the diagonal each entry is sqrt of the squared length of the atoms' difference vector |
| MbtrGeometry.ComputeDistanceMatrix | describe/libmbtr/cmbtr.cpp:72-94 | the loops over the tensor give exactly that matrix |
| MbtrGeometry.K2GeomInverseDistanceLoop | describe/libmbtr/cmbtr.cpp:253-267 | the loop maps every listed pair to 1 / distance |
| MbtrGeometry.K3GeomCosineLoop | describe/libmbtr/cmbtr.cpp:269-288 | the loop maps every listed triple to the cosine of the angle at atom j |
| MbtrGeometry.K2WeightUnity | describe/libmbtr/cmbtr.cpp:290-299 | every listed pair gets weight 1 |
| MbtrGeometry.K3WeightUnity | describe/libmbtr/cmbtr.cpp:301-310 | every listed triple gets weight 1 |
| MbtrGeometry.K2WeightExponentialLoop | describe/libmbtr/cmbtr.cpp:312-329 | the loop builds the map holding exp(-scale * d) for exactly the pairs whose weight is <= cutoff |
| MbtrGeometry.K3WeightExponentialLoop | describe/libmbtr/cmbtr.cpp:331-352 | the same for triples, with the perimeter d_ij + d_jk + d_ki |
| MbtrGeometry.ExponentialMap2Snoc | describe/libmbtr/cmbtr.cpp:320-326 | one more pair enters the exponential map exactly when its weight passes the cutoff |
| MbtrGeometry.ExponentialMap3Snoc | describe/libmbtr/cmbtr.cpp:341-349 | one more triple enters the exponential map exactly when its weight passes the cutoff |
| MbtrMaps.Referenced2Members | describe/libmbtr/cmbtr.cpp:394-397 | a number is read by the k=2 loop exactly when some processed pair has an atom of that number |
| MbtrMaps.TouchedFacts | describe/libmbtr/cmbtr.cpp:396-397 | `operator[]` adds the numbers read with index 0 and changes no existing entry or later read |
| MbtrMaps.K2KeyCanonical | describe/libmbtr/cmbtr.cpp:399-405 | the k=2 key is the sorted pair of the two species indices (key.i <= key.j) and does not depend on the pair's order |
| MbtrMaps.K3KeyCanonical | describe/libmbtr/cmbtr.cpp:469-475 | the k=3 key keeps j's species index in the middle, swaps the outer two when the last is smaller (first <= third), and is the same for (i,j,k) and (k,j,i) |
| MbtrMaps.ChooseWeighting | describe/libmbtr/cmbtr.cpp:375-383 | no weighting exactly for a name other than "exponential" and "unity"; unity exactly for "unity"; exponential with `parameters["scale"]`, `parameters["cutoff"]` (0 when missing) |
| MbtrMaps.K2ColumnValues | describe/libmbtr/cmbtr.cpp:390-391 | the value read for a pair is its geometry value, and its weight when it has one, else the default 0 |
| MbtrMaps.K3ColumnValues | describe/libmbtr/cmbtr.cpp:457-458 | the value read for a triple is its geometry value, and its weight when it has one, else 0 |
| MbtrMaps.SpeciesAfter2Spec | describe/libmbtr/cmbtr.cpp:386-397 | after t iterations the species map holds exactly the old entries plus the numbers read so far, with 0 |
| MbtrMaps.SpeciesAfter3Spec | describe/libmbtr/cmbtr.cpp:453-466 | the same for the k=3 loop |
| MbtrMaps.MapAfter2Spec | describe/libmbtr/cmbtr.cpp:386-410 | after t iterations each value map groups the first t pairs' values under their keys, in order |
| MbtrMaps.MapAfter3Spec | describe/libmbtr/cmbtr.cpp:453-480 | the same for triples |
| MbtrMaps.AssembleK2 | describe/libmbtr/cmbtr.cpp:386-410 | the saving loop builds both maps by grouping the pairs' values under their keys and leaves the species map with every number it read |
| MbtrMaps.AssembleK3 | describe/libmbtr/cmbtr.cpp:453-480 | the same for triples |
| MbtrState.Initial | describe/libmbtr/cmbtr.cpp:15-26 | a new object has all five flags false and the given species map |
| MbtrState.GrowsTransitive | describe/libmbtr/cmbtr.cpp:31-65 | "nothing set is undone" composes over call sequences |
| MbtrState.DisplacementTensorStep | describe/libmbtr/cmbtr.cpp:28-66 | returns the displacement tensor, and caches it when not yet cached |
| MbtrState.DistanceMatrixStep | describe/libmbtr/cmbtr.cpp:67-98 | returns the distance matrix and caches the tensor it reads |
| MbtrState.K2IndicesStep | describe/libmbtr/cmbtr.cpp:184-213 | returns a k=2 enumeration and stores it with its flag set (a stored list is returned unchanged) |
| MbtrState.K3IndicesStep | describe/libmbtr/cmbtr.cpp:215-251 | returns a k=3 enumeration and stores it with its flag set |
| MbtrState.K2GeomInverseDistanceStep | describe/libmbtr/cmbtr.cpp:253-267 | inverse distances of the listed pairs; caches the tensor |
| MbtrState.K3GeomCosineStep | describe/libmbtr/cmbtr.cpp:269-288 | cosines of the listed triples; caches the tensor |
| MbtrState.K2WeightExponentialStep | describe/libmbtr/cmbtr.cpp:312-329 | the filtered exponential weights; caches the tensor |
| MbtrState.K3WeightExponentialStep | describe/libmbtr/cmbtr.cpp:331-352 | the filtered exponential weights of triples; caches the tensor |
| MbtrState.K2WeightStep | describe/libmbtr/cmbtr.cpp:374-383 | the weights of the chosen weighting; unity touches no state |
| MbtrState.K3WeightStep | describe/libmbtr/cmbtr.cpp:441-450 | the same for triples |
| MbtrState.CachedStepsGrow | describe/libmbtr/cmbtr.cpp:31-65 | tensor, matrix and index calls keep the object valid, undo nothing, set their own flag and leave the other index flag alone |
| MbtrState.K2MapGrows | describe/libmbtr/cmbtr.cpp:354-416 | getK2Map keeps the object valid, undoes nothing, leaves the pair flag set and the k=3 state untouched |
| MbtrState.K3MapGrows | describe/libmbtr/cmbtr.cpp:418-486 | getK3Map keeps the object valid, undoes nothing, leaves the triple flag set and the k=2 state untouched |
| MbtrState.K2MapErrors | describe/libmbtr/cmbtr.cpp:357-383 | getK2Map throws "Invalid geometry function." iff it is a first call with a geometry other than "inverse_distance"; it throws "Invalid weighting function." iff it is a first call with that geometry and an unknown weighting; it throws nothing else, and when it throws the pair list is stored and the maps are not |
| MbtrState.K3MapErrors | describe/libmbtr/cmbtr.cpp:421-450 | the same for getK3Map with "cosine" |
| MbtrState.K2MapThrows | describe/libmbtr/cmbtr.cpp:359-383 | the exact state a throwing first getK2Map leaves: pair list stored, and the tensor cached as well when the weighting was the bad argument |
| MbtrState.K3MapThrows | describe/libmbtr/cmbtr.cpp:423-450 | the same for getK3Map |
| MbtrState.K2MapRepeat | describe/libmbtr/cmbtr.cpp:354-416 | after any getK2Map call every later call returns the stored maps, whatever its arguments, and changes nothing; those are the first result on success and the old maps on failure |
| MbtrState.K3MapRepeat | describe/libmbtr/cmbtr.cpp:418-486 | the same for getK3Map |
| MbtrState.K2MapAfterIndices | describe/libmbtr/cmbtr.cpp:357 | on a new object, getk2Indices then getK2Map returns two empty maps whatever the arguments, because the guard tests the index flag |
| MbtrState.K3MapAfterIndices | describe/libmbtr/cmbtr.cpp:421 | the same for getk3Indices then getK3Map |
| MbtrState.K2MapAfterFailure | describe/libmbtr/cmbtr.cpp:357-383 | on a new object, once getK2Map has thrown, every later call returns two empty maps |
| MbtrState.K3MapAfterFailure | describe/libmbtr/cmbtr.cpp:421-450 | the same for getK3Map |
| MbtrState.K2MapResult | describe/libmbtr/cmbtr.cpp:354-416 | a first getK2Map with "inverse_distance" and a known weighting returns the maps assembled from the enumerated pairs, their inverse distances and weights, and leaves exactly the resulting state |
| MbtrState.K3MapResult | describe/libmbtr/cmbtr.cpp:418-486 | the same for getK3Map with "cosine" |
| MbtrState.K2AssemblyShape | describe/libmbtr/cmbtr.cpp:386-410 | both maps have the same keys, namely the pairs' keys, each with i <= j; under each key both hold, in list order, one value per pair with that key |
| MbtrState.K3AssemblyShape | describe/libmbtr/cmbtr.cpp:453-480 | the same for triples, with key.i <= key.k |
| MbtrState.K2AssemblyTotal | describe/libmbtr/cmbtr.cpp:386-410 | conservation: the list lengths of each map sum to the number of listed pairs |
| MbtrState.K3AssemblyTotal | describe/libmbtr/cmbtr.cpp:453-480 | conservation for triples |
| MbtrStrings.IntToString | describe/libmbtr/cmbtr.cpp:498-501 | `ss << n` is non-empty, has no comma, and starts with '-' exactly for a negative n |
| MbtrStrings.IntRoundTrip | describe/libmbtr/cmbtr.cpp:498-501 | parsing the decimal string of any int gives it back |
| MbtrStrings.Key2RoundTrip | describe/libmbtr/cmbtr.cpp:498-502 | the "i,j" key string parses back to its pair |
| MbtrStrings.Key3RoundTrip | describe/libmbtr/cmbtr.cpp:519-525 | the "i,j,k" key string parses back to its triple |
| MbtrStrings.Key2Injective | describe/libmbtr/cmbtr.cpp:498-502 | two pairs have the same string iff they are equal |
| MbtrStrings.Key3Injective | describe/libmbtr/cmbtr.cpp:519-525 | two triples have the same string iff they are equal |
| MbtrStrings.ImageSize | describe/libmbtr/cmbtr.cpp:497-505 | a set of keys has as many strings as keys |
| MbtrStrings.StringKeyedFacts | describe/libmbtr/cmbtr.cpp:497-505 | a string-keyed map has one entry per key, each string reads back the key's value, and the map is unique |
| MbtrStrings.Stringify | describe/libmbtr/cmbtr.cpp:494-506 | the loop gives cythonGeom as the geometry map re-keyed and cythonDist as `distValues[key]` (default empty) under each geometry key |
| Mbtr.CMBTR.constructor | describe/libmbtr/cmbtr.cpp:15-26 | stores the positions, atomic numbers, cell limit and float library given; the state is the initial one with the given species map |
| Mbtr.CMBTR.GetDisplacementTensor | describe/libmbtr/cmbtr.cpp:28-66 | returns the value and leaves the state of DisplacementTensorStep |
| Mbtr.CMBTR.GetDistanceMatrix | describe/libmbtr/cmbtr.cpp:67-98 | returns the value and leaves the state of DistanceMatrixStep |
| Mbtr.CMBTR.GetK2Indices | describe/libmbtr/cmbtr.cpp:184-213 | returns the value and leaves the state of K2IndicesStep |
| Mbtr.CMBTR.GetK3Indices | describe/libmbtr/cmbtr.cpp:215-251 | returns the value and leaves the state of K3IndicesStep |
| Mbtr.CMBTR.K2GeomInverseDistance | describe/libmbtr/cmbtr.cpp:253-267 | as K2GeomInverseDistanceStep |
| Mbtr.CMBTR.K3GeomCosine | describe/libmbtr/cmbtr.cpp:269-288 | as K3GeomCosineStep |
| Mbtr.CMBTR.K2WeightExponential | describe/libmbtr/cmbtr.cpp:312-329 | as K2WeightExponentialStep |
| Mbtr.CMBTR.K3WeightExponential | describe/libmbtr/cmbtr.cpp:331-352 | as K3WeightExponentialStep |
| Mbtr.CMBTR.K2Weighting | describe/libmbtr/cmbtr.cpp:374-383 | nothing and no change for an unknown weighting, otherwise the value and state of K2WeightStep |
| Mbtr.CMBTR.K3Weighting | describe/libmbtr/cmbtr.cpp:441-450 | the same for triples |
| Mbtr.CMBTR.StoreK2Map | describe/libmbtr/cmbtr.cpp:386-413 | stores the assembled maps, sets the map flag and the species map; nothing else changes |
| Mbtr.CMBTR.StoreK3Map | describe/libmbtr/cmbtr.cpp:453-483 | the same for triples |
| Mbtr.CMBTR.GetK2Map | describe/libmbtr/cmbtr.cpp:354-416 | returns the result and leaves the state of K2MapStep |
| Mbtr.CMBTR.GetK3Map | describe/libmbtr/cmbtr.cpp:418-486 | returns the result and leaves the state of K3MapStep |
| Mbtr.CMBTR.GetK2MapCython | describe/libmbtr/cmbtr.cpp:488-507 | the state of K2MapStep; its error, or its maps re-keyed by "i,j" |
| Mbtr.CMBTR.GetK3MapCython | describe/libmbtr/cmbtr.cpp:509-530 | the state of K3MapStep; its error, or its maps re-keyed by "i,j,k" |
| SoapMarshal.SortedDistinctSpec | dscribe/descriptors/soaplite.py:27-32 | `np.sort(list(set(xs)))` is strictly increasing and holds exactly the members of xs |
| SoapMarshal.SortedDistinctUnique | dscribe/descriptors/soaplite.py:32 | it is the only strictly increasing list with those members |
| SoapMarshal.WhereExact | dscribe/descriptors/soaplite.py:35-36 | the mask selects exactly the indices of the atoms with that number, in increasing order |
| SoapMarshal.BlockInOrder | dscribe/descriptors/soaplite.py:36 | the k-th position of a species block is the position of the k-th atom of that species |
| SoapMarshal.FormatAse2Clusgeo | dscribe/descriptors/soaplite.py:15-48 | the loop over species and the concatenation give exactly ClusGeoOf |
| SoapMarshal.FormatSpecies | dscribe/descriptors/soaplite.py:26-45 | fails iff the universe (all_atomtypes, or the numbers present) is empty; otherwise the species are strictly ascending and are exactly the universe, Ntypes == number of species == number of counts, each count is the number of atoms of its species, and totalAN == len(obj) |
| SoapMarshal.AposLength | dscribe/descriptors/soaplite.py:46 | Apos has 3 * sum(counts) entries |
| SoapMarshal.AposLayout | dscribe/descriptors/soaplite.py:35-46 | the u-th atom of block t sits at 3 * (counts before t + u) and is the u-th atom of species t, in structure order |
| SoapMarshal.CountsTotal | dscribe/descriptors/soaplite.py:26-45 | sum(counts) is the number of atoms whose species is in the universe, at most totalAN, and equal to it without all_atomtypes |
| SoapBasis.OverlapSymmetric | dscribe/descriptors/soaplite.py:378-381 | S is symmetric, since an entry depends on i + j only |
| SoapBasis.OverlapPositive | dscribe/descriptors/soaplite.py:378-381 | every entry of S is positive for rcut > 0 |
| SoapBasis.OverlapMatrix | dscribe/descriptors/soaplite.py:378-381 | the loops fill S with 2 rcut^(7+i+j) / ((5+i+j)(6+i+j)(7+i+j)) |
| SoapBasis.AbscissaTable | dscribe/descriptors/soaplite.py:397-497 | 100 strictly increasing abscissas in (-1, 1); entries 0-49 negative and 50-99 positive; and abs(x[k] + x[99-k]) < 1e-17 |
| SoapBasis.RadiiInRange | dscribe/descriptors/soaplite.py:499-500 | rx = (rcut+5)/2 (x+1) maps an increasing table in (-1, 1) to increasing radii in (0, rcut+5) |
| SoapBasis.ShapeNonNegative | dscribe/descriptors/soaplite.py:502-504 | (rcut - clip(r, 0, rcut))^(n+2) is never negative |
| SoapBasis.ShapeVanishes | dscribe/descriptors/soaplite.py:502-504 | for r >= 0 the shape value is zero iff r >= rcut |
| SoapBasis.ShapeTable | dscribe/descriptors/soaplite.py:502-504 | the loop fills fs row by row with the shape values |
| SoapBasis.GetBasisPoly | dscribe/descriptors/soaplite.py:366-508 | returns exactly BasisPoly: error or (nmax, rx, betas, fs) |
| SoapBasis.BasisPolyErrors | dscribe/descriptors/soaplite.py:378-393 | fails iff nmax < 0 or the root is not real; a complex root gives the ValueError message |
| SoapBasis.TablesFrom | dscribe/descriptors/soaplite.py:499-504 | from any increasing table in (-1, 1): increasing radii in (0, rcut+5), fs of nmax rows of 100, never negative, zero iff rx >= rcut |
| SoapBasis.BasisPolyTables | dscribe/descriptors/soaplite.py:366-508 | on success nmax is returned unchanged, rx has 100 increasing radii in (0, rcut+5), and fs is nmax x 100, never negative, and zero exactly where rx >= rcut |
| SoapDispatch.PairsExact | dscribe/descriptors/soaplite.py:119 | int(n(n+1)/2) is exact, equals 0 + 1 + ... + n, and grows by n+1 |
| SoapDispatch.PairsOne | dscribe/descriptors/soaplite.py:126-134 | T(T+1)/2 == T iff T <= 1 |
| SoapDispatch.GtoCheck | dscribe/descriptors/soaplite.py:72-79 | passes iff 0 <= Lmax <= 9, 1.999 < rcut+5 < 17.0001, 2 <= nMax <= 13 and eta >= 0.0001; Lmax > 9 is reported first; eta is checked last |
| SoapDispatch.LocalsGtoErrors | dscribe/descriptors/soaplite.py:72-82 | fails iff a range check fails or there are no species; a range failure is reported before formatting |
| SoapDispatch.LocalsGtoCall | dscribe/descriptors/soaplite.py:81-134 | the PySig kernel is used iff Ntypes == 1 or not crossOver; the buffer length equals rows x cols; rows == number of query points; cols is the non-cross or cross width; the formatted atoms and the flattened query points are passed |
| SoapDispatch.PolyCheck | dscribe/descriptors/soaplite.py:236-239 | passes iff 0 <= Lmax <= 20 and 1.9999 < rcut+5 < 17.0001 (no nMax or eta check) |
| SoapDispatch.LocalsPolyErrors | dscribe/descriptors/soaplite.py:232-241 | fails iff the basis, a range check or the formatting fails, in that priority |
| SoapDispatch.LocalsPolyCall | dscribe/descriptors/soaplite.py:232-289 | the general kernel with the basis tables; always the cross width; buffer length == rows x cols; one row per query point |
| SoapDispatch.Reshape | dscribe/descriptors/soaplite.py:136-137 | a rows x cols reshape is row-major: a[i][j] == c[i*cols + j] |
| SoapDispatch.Output | dscribe/descriptors/soaplite.py:136-137 | the reshaped kernel buffer has one row per query point, of the shape's width |
| SoapDispatch.Positions | dscribe/descriptors/soaplite.py:162-163 | the query points of the structure wrappers are the atoms' positions |
| SoapDispatch.StructureGtoRows | dscribe/descriptors/soaplite.py:142-165 | one row per atom, at the atoms' own positions, and the buffer fits the reshape |
| SoapDispatch.StructurePolyRows | dscribe/descriptors/soaplite.py:292-296 | the same for the polynomial basis |
| SoapDispatch.RadialCutoff | dscribe/descriptors/soaplite.py:191-192 | fails iff eta <= 0 |
| SoapDispatch.RadialCutoffBeyond | dscribe/descriptors/soaplite.py:191-192 | for eta > 0 the cutoff is rcut + 3 sqrt(1/(2 eta)), and with a non-negative root it is at least rcut |
| SoapDispatch.PeriodicGto | dscribe/descriptors/soaplite.py:168-229 | eta == 0 raises the division error and eta < 0 the domain error, before any range check; otherwise the GTO call on the system extended by rcut + 3 sigma; the structure variant has one row per ORIGINAL atom |
| SoapDispatch.PeriodicPoly | dscribe/descriptors/soaplite.py:299-322 | the same for the polynomial wrappers |

## Left out

- **Floating point.** All float arithmetic is exact `real` arithmetic. The
  decimal abscissas are taken as exact decimals, and `float` and `double`
  rounding is not modelled.
- **Library functions in the MBTR model.** `sqrt`, `exp` and division are
  arbitrary functions, so no property of their values (such as
  positivity) is proved.
- **`cmbtr.h` and map order.** `cmbtr.h` is not part of the model. `index2d`
  and `index3d` are plain records, and `std::map` is a Dafny `map`, so
  nothing depends on C++ map iteration order.
- **Dead code.** The commented-out inverse-distance code of `cmbtr.cpp`
  (lines 100-182) is not modelled.
- **Native kernel and library loading.** The ctypes `CDLL` loading by glob
  and the native SOAP kernels are foreign code that is not shown. Their
  output is modelled only through its length and the reshape.
- **ctypes conversions.** `c_int`/`c_double` conversions are not modelled,
  including any 32-bit wrap of very large sizes.
- **`get_basis_gto`.** Its numerics are `linspace`, `log`, `gamma`, `inv`
  and `sqrtm`. The GTO entry points take alphas and betas as already
  flattened sequences.
- **The matrix root.** `sqrtm(np.linalg.inv(S))` is the `lowdin` oracle. Its
  singular-matrix error is kept, and `dtype == complex128` is its
  `ComplexRoot` answer.
- **`gss = np.dot(betas, fs)`.** The product is not formed: the basis value
  carries `betas` and `fs`, which determine it. The length check of the
  `gss` ctypes array is left out with it.
- **Abscissa storage.** The abscissas are a constant table, not 100 writes
  into `np.zeros(100)`.
- **`get_extended_system`.** It is a function parameter, and the cell and
  periodicity of a system are read only by it. `math.sqrt` for `sigma` is a
  parameter too. Its failures for `eta <= 0` are modelled.
- **Query points.** The model takes them as a sequence of 3-vectors.
  NumPy's handling of other array shapes for `Hpos` (for example a single
  flat position) is not modelled.
- **Short position lists.** The `CMBTR` constructor requires at least as
  many positions as atomic numbers. With fewer positions the C++ reads out
  of bounds in `getDisplacementTensor`. `getk2Indices` and `getk3Indices`
  do not read positions and would be well defined even then, but the model
  does not cover such objects.
- **Out-of-range index lists.** The geometry and weighting methods
  (`k2GeomInverseDistance`, `k3GeomCosine`, `k2WeightExponential`,
  `k3WeightExponential`, the weighting dispatch) require every index of the
  given list to name an existing atom (`InRange2`/`InRange3`). The C++ has
  undefined behaviour otherwise, and the model does not describe it.
- **Python assertions.** The SOAP range checks are Python `assert`
  statements, which `python -O` removes. The model assumes assertions are
  enabled.
- SoapDispatch.GtoCheck, SoapDispatch.PolyCheck: an assertion message keeps
  the integer value formatted after its text, but for a float (`rCutHard`,
  `eta`) only the text before the formatted value.

## Findings

None. The misspelled assertion texts ("cuttof", "redius", "cannot exceed
12" for the bound 13, and "nMax=" for eta) affect only messages, and the
model keeps them as written.
