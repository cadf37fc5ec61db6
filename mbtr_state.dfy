/**
 * The CMBTR object of describe/libmbtr/cmbtr.cpp as a state machine on
 * values: its fields form a `State`, and each member function is a function
 * from the state before the call to the state after it and the value the
 * call returns (or the exception it throws).  The class `CMBTR` in module
 * Mbtr is proved to follow these functions call by call; the lemmas here
 * state what the caching flags, the error paths and the assembled maps
 * promise.
 */
module MbtrState {
  import opened Wrappers
  import opened Grouping
  import opened MbtrIndices
  import opened MbtrGeometry
  import opened MbtrMaps
  import opened MbtrStrings

  /** The constructor arguments that no call changes, and the float library. */
  datatype Setup = Setup(positions: seq<Vec3>, atomicNumbers: seq<int>, cellLimit: int, num: Numerics)

  /** Every atom i < atomicNumbers.size() has a position. */
  predicate WellFormed(c: Setup)
  {
    |c.atomicNumbers| <= |c.positions|
  }

  /** The positions the loops read: one per atom. */
  function Atoms(c: Setup): seq<Vec3>
    requires WellFormed(c)
  {
    c.positions[..|c.atomicNumbers|]
  }

  function NAtoms(c: Setup): nat
  {
    |c.atomicNumbers|
  }

  /** The geometry map and the weight map of a term. */
  type K2Maps = (map<Index2, seq<real>>, map<Index2, seq<real>>)
  type K3Maps = (map<Index3, seq<real>>, map<Index3, seq<real>>)

  /** The mutable fields of CMBTR. */
  datatype State = State(
    atomicNumberToIndexMap: map<int, int>,
    displacementTensorInitialized: bool,
    k2IndicesInitialized: bool,
    k3IndicesInitialized: bool,
    k2MapInitialized: bool,
    k3MapInitialized: bool,
    displacementTensor: seq<seq<Vec3>>,
    k2Indices: seq<Index2>,
    k3Indices: seq<Index3>,
    k2Map: K2Maps,
    k3Map: K3Maps)

  /** The state a call leaves and the value it returns. */
  datatype Call<T> = Call(state: State, value: T)

  /** The constructor: all five flags false, every cache empty. */
  function Initial(atomicNumberToIndexMap: map<int, int>): (s: State)
    ensures !s.displacementTensorInitialized && !s.k2IndicesInitialized && !s.k3IndicesInitialized
    ensures !s.k2MapInitialized && !s.k3MapInitialized
    ensures s.atomicNumberToIndexMap == atomicNumberToIndexMap
  {
    State(atomicNumberToIndexMap, false, false, false, false, false, [], [], [], (map[], map[]), (map[], map[]))
  }

  /**
   * What the object keeps true: a cached tensor or index list is the one a
   * fresh computation gives, and a map is only ever stored after its index
   * list.
   */
  predicate Valid(c: Setup, s: State)
  {
    && WellFormed(c)
    && (s.displacementTensorInitialized ==> s.displacementTensor == Displacements(Atoms(c)))
    && (s.k2IndicesInitialized ==> s.k2Indices == K2Pairs(NAtoms(c), c.cellLimit))
    && (s.k3IndicesInitialized ==> s.k3Indices == K3Triples(NAtoms(c), c.cellLimit))
    && (s.k2MapInitialized ==> s.k2IndicesInitialized)
    && (s.k3MapInitialized ==> s.k3IndicesInitialized)
  }

  /**
   * What no call undoes: a set flag stays set and the value it guards stays
   * as it is; once the pair (triple) list exists, the k=2 (k=3) map and its
   * flag never change again.
   */
  predicate Grows(s: State, s': State)
  {
    && (s.displacementTensorInitialized ==>
          s'.displacementTensorInitialized && s'.displacementTensor == s.displacementTensor)
    && (s.k2IndicesInitialized ==>
          s'.k2IndicesInitialized && s'.k2Indices == s.k2Indices &&
          s'.k2Map == s.k2Map && s'.k2MapInitialized == s.k2MapInitialized)
    && (s.k3IndicesInitialized ==>
          s'.k3IndicesInitialized && s'.k3Indices == s.k3Indices &&
          s'.k3Map == s.k3Map && s'.k3MapInitialized == s.k3MapInitialized)
    && (s.k2MapInitialized ==> s'.k2MapInitialized)
    && (s.k3MapInitialized ==> s'.k3MapInitialized)
  }

  lemma GrowsTransitive(s1: State, s2: State, s3: State)
    requires Grows(s1, s2) && Grows(s2, s3)
    ensures Grows(s1, s3)
  {
  }

  // ---------------------------------------------------------------------
  // The cached computations
  // ---------------------------------------------------------------------

  /** The state with the displacement tensor of the atoms cached. */
  function WithTensor(c: Setup, s: State): State
    requires WellFormed(c)
  {
    s.(displacementTensorInitialized := true, displacementTensor := Displacements(Atoms(c)))
  }

  /**
   * getDisplacementTensor: whether computed now or cached, the result is the
   * displacement tensor of the atoms, and afterwards it is cached.
   */
  function DisplacementTensorStep(c: Setup, s: State): (r: Call<seq<seq<Vec3>>>)
    requires Valid(c, s)
    ensures r.value == Displacements(Atoms(c))
    ensures r.state == WithTensor(c, s)
  {
    if s.displacementTensorInitialized then Call(s, s.displacementTensor)
    else
      var tensor := Displacements(Atoms(c));
      Call(s.(displacementTensorInitialized := true, displacementTensor := tensor), tensor)
  }

  /**
   * getDistanceMatrix: the distance matrix of the atoms, computed from the
   * (possibly cached) displacement tensor, which the call caches.
   */
  function DistanceMatrixStep(c: Setup, s: State): (r: Call<seq<seq<real>>>)
    requires Valid(c, s)
    ensures r.value == Distances(c.num, Atoms(c))
    ensures r.state == WithTensor(c, s)
  {
    var tensor := DisplacementTensorStep(c, s);
    Call(tensor.state, Distances(c.num, Atoms(c)))
  }

  /**
   * getk2Indices: whether computed now or cached, the result lists exactly
   * the k=2 pairs in lexicographic order, and afterwards it is cached.
   */
  function K2IndicesStep(c: Setup, s: State): (r: Call<seq<Index2>>)
    requires Valid(c, s)
    ensures IsK2Enumeration(r.value, NAtoms(c), c.cellLimit)
    ensures r.state == s.(k2IndicesInitialized := true, k2Indices := r.value)
  {
    K2PairsEnumerate(NAtoms(c), c.cellLimit);
    if s.k2IndicesInitialized then Call(s, s.k2Indices)
    else
      var indexList := K2Pairs(NAtoms(c), c.cellLimit);
      Call(s.(k2IndicesInitialized := true, k2Indices := indexList), indexList)
  }

  /** getk3Indices, likewise for the k=3 triples. */
  function K3IndicesStep(c: Setup, s: State): (r: Call<seq<Index3>>)
    requires Valid(c, s)
    ensures IsK3Enumeration(r.value, NAtoms(c), c.cellLimit)
    ensures r.state == s.(k3IndicesInitialized := true, k3Indices := r.value)
  {
    K3TriplesEnumerate(NAtoms(c), c.cellLimit);
    if s.k3IndicesInitialized then Call(s, s.k3Indices)
    else
      var indexList := K3Triples(NAtoms(c), c.cellLimit);
      Call(s.(k3IndicesInitialized := true, k3Indices := indexList), indexList)
  }

  // ---------------------------------------------------------------------
  // Geometry and weighting functions
  // ---------------------------------------------------------------------

  /** k2GeomInverseDistance: reads the distance matrix, so it caches the tensor. */
  function K2GeomInverseDistanceStep(c: Setup, s: State, indexList: seq<Index2>): (r: Call<map<Index2, real>>)
    requires Valid(c, s) && InRange2(indexList, NAtoms(c))
    ensures r.state == WithTensor(c, s)
    ensures r.value == InverseDistanceMap(c.num, Distances(c.num, Atoms(c)), indexList)
  {
    var d := DistanceMatrixStep(c, s);
    Call(d.state, InverseDistanceMap(c.num, d.value, indexList))
  }

  /** k3GeomCosine: reads the distance matrix and the displacement tensor. */
  function K3GeomCosineStep(c: Setup, s: State, indexList: seq<Index3>): (r: Call<map<Index3, real>>)
    requires Valid(c, s) && InRange3(indexList, NAtoms(c))
    ensures r.state == WithTensor(c, s)
    ensures r.value == CosineMap(c.num, Displacements(Atoms(c)), Distances(c.num, Atoms(c)), indexList)
  {
    var d := DistanceMatrixStep(c, s);
    var t := DisplacementTensorStep(c, d.state);
    Call(t.state, CosineMap(c.num, t.value, d.value, indexList))
  }

  /** k2WeightExponential: reads the distance matrix. */
  function K2WeightExponentialStep(c: Setup, s: State, indexList: seq<Index2>, scale: real, cutoff: real)
    : (r: Call<map<Index2, real>>)
    requires Valid(c, s) && InRange2(indexList, NAtoms(c))
    ensures r.state == WithTensor(c, s)
    ensures r.value == ExponentialMap2(c.num, Distances(c.num, Atoms(c)), indexList, scale, cutoff)
  {
    var d := DistanceMatrixStep(c, s);
    Call(d.state, ExponentialMap2(c.num, d.value, indexList, scale, cutoff))
  }

  /** k3WeightExponential: reads the distance matrix. */
  function K3WeightExponentialStep(c: Setup, s: State, indexList: seq<Index3>, scale: real, cutoff: real)
    : (r: Call<map<Index3, real>>)
    requires Valid(c, s) && InRange3(indexList, NAtoms(c))
    ensures r.state == WithTensor(c, s)
    ensures r.value == ExponentialMap3(c.num, Distances(c.num, Atoms(c)), indexList, scale, cutoff)
  {
    var d := DistanceMatrixStep(c, s);
    Call(d.state, ExponentialMap3(c.num, d.value, indexList, scale, cutoff))
  }

  /** The weighting getK2Map chose; k2WeightUnity touches no state. */
  function K2WeightStep(c: Setup, s: State, indexList: seq<Index2>, w: Weighting): (r: Call<map<Index2, real>>)
    requires Valid(c, s) && InRange2(indexList, NAtoms(c))
    ensures r.state == if w.Unity? then s else WithTensor(c, s)
    ensures r.value == K2Weights(c.num, Distances(c.num, Atoms(c)), indexList, w)
  {
    match w
    case Unity => Call(s, UnityMap2(indexList))
    case Exponential(scale, cutoff) => K2WeightExponentialStep(c, s, indexList, scale, cutoff)
  }

  function K3WeightStep(c: Setup, s: State, indexList: seq<Index3>, w: Weighting): (r: Call<map<Index3, real>>)
    requires Valid(c, s) && InRange3(indexList, NAtoms(c))
    ensures r.state == if w.Unity? then s else WithTensor(c, s)
    ensures r.value == K3Weights(c.num, Distances(c.num, Atoms(c)), indexList, w)
  {
    match w
    case Unity => Call(s, UnityMap3(indexList))
    case Exponential(scale, cutoff) => K3WeightExponentialStep(c, s, indexList, scale, cutoff)
  }

  // ---------------------------------------------------------------------
  // getK2Map and getK3Map
  // ---------------------------------------------------------------------

  /** The maps the assembly loop of getK2Map builds from the species map `m`. */
  function K2Assembly(m: map<int, int>, atomicNumbers: seq<int>, indexList: seq<Index2>,
                      geomValues: map<Index2, real>, weightValues: map<Index2, real>): K2Maps
    requires InRange2(indexList, |atomicNumbers|)
  {
    var keys := K2Keys(m, atomicNumbers, indexList);
    (GroupBy(keys, Column(geomValues, indexList)), GroupBy(keys, Column(weightValues, indexList)))
  }

  function K3Assembly(m: map<int, int>, atomicNumbers: seq<int>, indexList: seq<Index3>,
                      geomValues: map<Index3, real>, weightValues: map<Index3, real>): K3Maps
    requires InRange3(indexList, |atomicNumbers|)
  {
    var keys := K3Keys(m, atomicNumbers, indexList);
    (GroupBy(keys, Column(geomValues, indexList)), GroupBy(keys, Column(weightValues, indexList)))
  }

  /**
   * getK2Map.  Guarded by the pair-list flag: once the pairs exist, the call
   * returns the stored maps.  Otherwise it lists the pairs (setting that
   * flag), throws on an unknown geometry and then on an unknown weighting,
   * and else assembles, stores and returns the maps, having inserted every
   * atomic number it read into the species map.
   */
  function K2MapStep(c: Setup, s: State, geomFunc: string, weightFunc: string, parameters: map<string, real>)
    : Call<Result<K2Maps, string>>
    requires Valid(c, s)
  {
    if s.k2IndicesInitialized then Call(s, Success(s.k2Map))
    else
      var indices := K2IndicesStep(c, s);
      var indexList := indices.value;
      if geomFunc != "inverse_distance" then Call(indices.state, Failure("Invalid geometry function."))
      else
        var geom := K2GeomInverseDistanceStep(c, indices.state, indexList);
        match ChooseWeighting(weightFunc, parameters)
        case None => Call(geom.state, Failure("Invalid weighting function."))
        case Some(w) =>
          var weight := K2WeightStep(c, geom.state, indexList, w);
          var m := weight.state.atomicNumberToIndexMap;
          var maps := K2Assembly(m, c.atomicNumbers, indexList, geom.value, weight.value);
          var m' := Touched(m, Referenced2(c.atomicNumbers, indexList, |indexList|));
          Call(weight.state.(atomicNumberToIndexMap := m', k2Map := maps, k2MapInitialized := true), Success(maps))
  }

  /** getK3Map, likewise for the triples and the "cosine" geometry. */
  function K3MapStep(c: Setup, s: State, geomFunc: string, weightFunc: string, parameters: map<string, real>)
    : Call<Result<K3Maps, string>>
    requires Valid(c, s)
  {
    if s.k3IndicesInitialized then Call(s, Success(s.k3Map))
    else
      var indices := K3IndicesStep(c, s);
      var indexList := indices.value;
      if geomFunc != "cosine" then Call(indices.state, Failure("Invalid geometry function."))
      else
        var geom := K3GeomCosineStep(c, indices.state, indexList);
        match ChooseWeighting(weightFunc, parameters)
        case None => Call(geom.state, Failure("Invalid weighting function."))
        case Some(w) =>
          var weight := K3WeightStep(c, geom.state, indexList, w);
          var m := weight.state.atomicNumberToIndexMap;
          var maps := K3Assembly(m, c.atomicNumbers, indexList, geom.value, weight.value);
          var m' := Touched(m, Referenced3(c.atomicNumbers, indexList, |indexList|));
          Call(weight.state.(atomicNumberToIndexMap := m', k3Map := maps, k3MapInitialized := true), Success(maps))
  }

  /** The Cython wrappers' result: the same error, or the maps re-keyed by their key strings. */
  ghost predicate K2CythonResult(r: Result<K2Maps, string>,
                                 out: Result<(map<string, seq<real>>, map<string, seq<real>>), string>)
  {
    match r
    case Failure(e) => out == Failure(e)
    case Success(maps) =>
      && out.Success?
      && IsStringKeyed(out.value.0, maps.0, FormatKey2)
      && IsStringKeyed(out.value.1, Aligned(maps.0, maps.1), FormatKey2)
  }

  ghost predicate K3CythonResult(r: Result<K3Maps, string>,
                                 out: Result<(map<string, seq<real>>, map<string, seq<real>>), string>)
  {
    match r
    case Failure(e) => out == Failure(e)
    case Success(maps) =>
      && out.Success?
      && IsStringKeyed(out.value.0, maps.0, FormatKey3)
      && IsStringKeyed(out.value.1, Aligned(maps.0, maps.1), FormatKey3)
  }

  // ---------------------------------------------------------------------
  // What the calls promise
  // ---------------------------------------------------------------------

  /**
   * The cached computations keep the object valid and undo nothing; each
   * sets its own flag and leaves every other flag as it was.
   */
  lemma CachedStepsGrow(c: Setup, s: State)
    requires Valid(c, s)
    ensures var s' := DisplacementTensorStep(c, s).state;
      Valid(c, s') && Grows(s, s') && s'.displacementTensorInitialized
    ensures var s' := DistanceMatrixStep(c, s).state;
      Valid(c, s') && Grows(s, s') && s'.displacementTensorInitialized
    ensures var s' := K2IndicesStep(c, s).state;
      Valid(c, s') && Grows(s, s') && s'.k2IndicesInitialized && s'.k3IndicesInitialized == s.k3IndicesInitialized
    ensures var s' := K3IndicesStep(c, s).state;
      Valid(c, s') && Grows(s, s') && s'.k3IndicesInitialized && s'.k2IndicesInitialized == s.k2IndicesInitialized
  {
  }

  /**
   * getK2Map keeps the object valid and undoes nothing; afterwards the pair
   * list exists, and the k=3 state is as it was.
   */
  lemma K2MapGrows(c: Setup, s: State, geomFunc: string, weightFunc: string, parameters: map<string, real>)
    requires Valid(c, s)
    ensures var s' := K2MapStep(c, s, geomFunc, weightFunc, parameters).state;
      && Valid(c, s') && Grows(s, s') && s'.k2IndicesInitialized
      && s'.k3IndicesInitialized == s.k3IndicesInitialized && s'.k3Indices == s.k3Indices
      && s'.k3MapInitialized == s.k3MapInitialized && s'.k3Map == s.k3Map
  {
    if !s.k2IndicesInitialized && geomFunc == "inverse_distance" {
      var s1 := K2IndicesStep(c, s).state;
      var s2 := K2GeomInverseDistanceStep(c, s1, s1.k2Indices).state;
      assert s2 == s1.(displacementTensorInitialized := true, displacementTensor := Displacements(Atoms(c)));
      match ChooseWeighting(weightFunc, parameters)
      case None =>
      case Some(w) =>
        assert K2WeightStep(c, s2, s1.k2Indices, w).state == s2;
    }
  }

  lemma K3MapGrows(c: Setup, s: State, geomFunc: string, weightFunc: string, parameters: map<string, real>)
    requires Valid(c, s)
    ensures var s' := K3MapStep(c, s, geomFunc, weightFunc, parameters).state;
      && Valid(c, s') && Grows(s, s') && s'.k3IndicesInitialized
      && s'.k2IndicesInitialized == s.k2IndicesInitialized && s'.k2Indices == s.k2Indices
      && s'.k2MapInitialized == s.k2MapInitialized && s'.k2Map == s.k2Map
  {
    if !s.k3IndicesInitialized && geomFunc == "cosine" {
      var s1 := K3IndicesStep(c, s).state;
      var s2 := K3GeomCosineStep(c, s1, s1.k3Indices).state;
      assert s2 == s1.(displacementTensorInitialized := true, displacementTensor := Displacements(Atoms(c)));
      match ChooseWeighting(weightFunc, parameters)
      case None =>
      case Some(w) =>
        assert K3WeightStep(c, s2, s1.k3Indices, w).state == s2;
    }
  }

  /**
   * getK2Map throws exactly on a first call with an unknown geometry (which
   * is checked first) or with a known geometry and an unknown weighting, and
   * throws nothing else; when it throws, the pair list is already stored and
   * the maps are not.
   */
  lemma K2MapErrors(c: Setup, s: State, geomFunc: string, weightFunc: string, parameters: map<string, real>)
    requires Valid(c, s)
    ensures var r := K2MapStep(c, s, geomFunc, weightFunc, parameters);
      && (r.value == Failure("Invalid geometry function.") <==>
            !s.k2IndicesInitialized && geomFunc != "inverse_distance")
      && (r.value == Failure("Invalid weighting function.") <==>
            !s.k2IndicesInitialized && geomFunc == "inverse_distance" &&
            weightFunc != "exponential" && weightFunc != "unity")
      && (r.value.Failure? ==>
            (r.value == Failure("Invalid geometry function.") || r.value == Failure("Invalid weighting function.")) &&
            r.state.k2IndicesInitialized && !r.state.k2MapInitialized && r.state.k2Map == s.k2Map)
  {
  }

  lemma K3MapErrors(c: Setup, s: State, geomFunc: string, weightFunc: string, parameters: map<string, real>)
    requires Valid(c, s)
    ensures var r := K3MapStep(c, s, geomFunc, weightFunc, parameters);
      && (r.value == Failure("Invalid geometry function.") <==>
            !s.k3IndicesInitialized && geomFunc != "cosine")
      && (r.value == Failure("Invalid weighting function.") <==>
            !s.k3IndicesInitialized && geomFunc == "cosine" &&
            weightFunc != "exponential" && weightFunc != "unity")
      && (r.value.Failure? ==>
            (r.value == Failure("Invalid geometry function.") || r.value == Failure("Invalid weighting function.")) &&
            r.state.k3IndicesInitialized && !r.state.k3MapInitialized && r.state.k3Map == s.k3Map)
  {
  }

  /**
   * What a throwing first getK2Map leaves: an unknown geometry throws once
   * the pair list is stored; an unknown weighting throws once the geometry
   * values are computed, which caches the displacement tensor too.
   */
  lemma K2MapThrows(c: Setup, s: State, geomFunc: string, weightFunc: string, parameters: map<string, real>)
    requires Valid(c, s) && !s.k2IndicesInitialized
    ensures var s1 := K2IndicesStep(c, s).state;
      && (geomFunc != "inverse_distance" ==>
            K2MapStep(c, s, geomFunc, weightFunc, parameters) == Call(s1, Failure("Invalid geometry function.")))
      && (geomFunc == "inverse_distance" && weightFunc != "exponential" && weightFunc != "unity" ==>
            K2MapStep(c, s, geomFunc, weightFunc, parameters) == Call(WithTensor(c, s1), Failure("Invalid weighting function.")))
  {
  }

  lemma K3MapThrows(c: Setup, s: State, geomFunc: string, weightFunc: string, parameters: map<string, real>)
    requires Valid(c, s) && !s.k3IndicesInitialized
    ensures var s1 := K3IndicesStep(c, s).state;
      && (geomFunc != "cosine" ==>
            K3MapStep(c, s, geomFunc, weightFunc, parameters) == Call(s1, Failure("Invalid geometry function.")))
      && (geomFunc == "cosine" && weightFunc != "exponential" && weightFunc != "unity" ==>
            K3MapStep(c, s, geomFunc, weightFunc, parameters) == Call(WithTensor(c, s1), Failure("Invalid weighting function.")))
  {
  }

  /**
   * After one getK2Map call, whatever it did, every later call returns the
   * stored maps, whatever its arguments, and changes nothing; the stored
   * maps are the first call's result when it succeeded, and the maps from
   * before it when it threw.
   */
  lemma K2MapRepeat(c: Setup, s: State, geomFunc: string, weightFunc: string, parameters: map<string, real>,
                    geomFunc': string, weightFunc': string, parameters': map<string, real>)
    requires Valid(c, s)
    ensures var first := K2MapStep(c, s, geomFunc, weightFunc, parameters);
      && Valid(c, first.state)
      && K2MapStep(c, first.state, geomFunc', weightFunc', parameters') == Call(first.state, Success(first.state.k2Map))
      && (first.value.Success? ==> first.value.value == first.state.k2Map)
      && (first.value.Failure? ==> first.state.k2Map == s.k2Map)
  {
    K2MapGrows(c, s, geomFunc, weightFunc, parameters);
  }

  lemma K3MapRepeat(c: Setup, s: State, geomFunc: string, weightFunc: string, parameters: map<string, real>,
                    geomFunc': string, weightFunc': string, parameters': map<string, real>)
    requires Valid(c, s)
    ensures var first := K3MapStep(c, s, geomFunc, weightFunc, parameters);
      && Valid(c, first.state)
      && K3MapStep(c, first.state, geomFunc', weightFunc', parameters') == Call(first.state, Success(first.state.k3Map))
      && (first.value.Success? ==> first.value.value == first.state.k3Map)
      && (first.value.Failure? ==> first.state.k3Map == s.k3Map)
  {
    K3MapGrows(c, s, geomFunc, weightFunc, parameters);
  }

  /**
   * The guard on the pair-list flag: on a new object, getk2Indices followed
   * by getK2Map returns two empty maps, whatever the arguments.
   */
  lemma K2MapAfterIndices(c: Setup, m: map<int, int>, geomFunc: string, weightFunc: string, parameters: map<string, real>)
    requires WellFormed(c)
    ensures Valid(c, Initial(m))
    ensures var s := K2IndicesStep(c, Initial(m)).state;
      Valid(c, s) && K2MapStep(c, s, geomFunc, weightFunc, parameters) == Call(s, Success((map[], map[])))
  {
    CachedStepsGrow(c, Initial(m));
  }

  lemma K3MapAfterIndices(c: Setup, m: map<int, int>, geomFunc: string, weightFunc: string, parameters: map<string, real>)
    requires WellFormed(c)
    ensures Valid(c, Initial(m))
    ensures var s := K3IndicesStep(c, Initial(m)).state;
      Valid(c, s) && K3MapStep(c, s, geomFunc, weightFunc, parameters) == Call(s, Success((map[], map[])))
  {
    CachedStepsGrow(c, Initial(m));
  }

  /**
   * On a new object, a getK2Map call that throws leaves the maps empty for
   * good: every later call returns two empty maps.
   */
  lemma K2MapAfterFailure(c: Setup, m: map<int, int>, geomFunc: string, weightFunc: string, parameters: map<string, real>,
                          geomFunc': string, weightFunc': string, parameters': map<string, real>)
    requires WellFormed(c) && K2MapStep(c, Initial(m), geomFunc, weightFunc, parameters).value.Failure?
    ensures var s := K2MapStep(c, Initial(m), geomFunc, weightFunc, parameters).state;
      Valid(c, s) && K2MapStep(c, s, geomFunc', weightFunc', parameters').value == Success((map[], map[]))
  {
    K2MapRepeat(c, Initial(m), geomFunc, weightFunc, parameters, geomFunc', weightFunc', parameters');
  }

  lemma K3MapAfterFailure(c: Setup, m: map<int, int>, geomFunc: string, weightFunc: string, parameters: map<string, real>,
                          geomFunc': string, weightFunc': string, parameters': map<string, real>)
    requires WellFormed(c) && K3MapStep(c, Initial(m), geomFunc, weightFunc, parameters).value.Failure?
    ensures var s := K3MapStep(c, Initial(m), geomFunc, weightFunc, parameters).state;
      Valid(c, s) && K3MapStep(c, s, geomFunc', weightFunc', parameters').value == Success((map[], map[]))
  {
    K3MapRepeat(c, Initial(m), geomFunc, weightFunc, parameters, geomFunc', weightFunc', parameters');
  }

  /**
   * A first getK2Map with the known geometry and a known weighting succeeds:
   * it returns the maps the assembly builds from the enumerated pairs, their
   * inverse distances and their weights under the chosen weighting, with the
   * species map as it was before the call; afterwards the species map holds
   * every atomic number the assembly read.
   */
  lemma K2MapResult(c: Setup, s: State, weightFunc: string, parameters: map<string, real>)
    requires Valid(c, s) && !s.k2IndicesInitialized
    requires ChooseWeighting(weightFunc, parameters).Some?
    ensures var pairs, d := K2Pairs(NAtoms(c), c.cellLimit), Distances(c.num, Atoms(c));
      var m := s.atomicNumberToIndexMap;
      var maps := K2Assembly(m, c.atomicNumbers, pairs, InverseDistanceMap(c.num, d, pairs),
                             K2Weights(c.num, d, pairs, ChooseWeighting(weightFunc, parameters).value));
      K2MapStep(c, s, "inverse_distance", weightFunc, parameters) ==
        Call(WithTensor(c, s).(k2IndicesInitialized := true, k2Indices := pairs,
                               atomicNumberToIndexMap := Touched(m, Referenced2(c.atomicNumbers, pairs, |pairs|)),
                               k2Map := maps, k2MapInitialized := true),
             Success(maps))
  {
    var s1 := K2IndicesStep(c, s).state;
    assert WithTensor(c, s1).atomicNumberToIndexMap == s.atomicNumberToIndexMap;
  }

  /** A first getK3Map with the "cosine" geometry and a known weighting succeeds, likewise. */
  lemma K3MapResult(c: Setup, s: State, weightFunc: string, parameters: map<string, real>)
    requires Valid(c, s) && !s.k3IndicesInitialized
    requires ChooseWeighting(weightFunc, parameters).Some?
    ensures var triples, d := K3Triples(NAtoms(c), c.cellLimit), Distances(c.num, Atoms(c));
      var m := s.atomicNumberToIndexMap;
      var maps := K3Assembly(m, c.atomicNumbers, triples, CosineMap(c.num, Displacements(Atoms(c)), d, triples),
                             K3Weights(c.num, d, triples, ChooseWeighting(weightFunc, parameters).value));
      K3MapStep(c, s, "cosine", weightFunc, parameters) ==
        Call(WithTensor(c, s).(k3IndicesInitialized := true, k3Indices := triples,
                               atomicNumberToIndexMap := Touched(m, Referenced3(c.atomicNumbers, triples, |triples|)),
                               k3Map := maps, k3MapInitialized := true),
             Success(maps))
  {
    var s1 := K3IndicesStep(c, s).state;
    assert WithTensor(c, s1).atomicNumberToIndexMap == s.atomicNumberToIndexMap;
  }

  /**
   * What the assembly of getK2Map builds: a geometry map and a weight map
   * with the same keys, namely the keys of the listed pairs, each with the
   * smaller species index first; under every key both hold, in list order,
   * the values of the pairs with that key, one value per pair.
   */
  lemma K2AssemblyShape(m: map<int, int>, atomicNumbers: seq<int>, indexList: seq<Index2>,
                        geomValues: map<Index2, real>, weightValues: map<Index2, real>, k: Index2)
    requires InRange2(indexList, |atomicNumbers|)
    ensures var maps, keys := K2Assembly(m, atomicNumbers, indexList, geomValues, weightValues),
                              K2Keys(m, atomicNumbers, indexList);
      && maps.0.Keys == maps.1.Keys == set x | x in keys
      && (forall key :: key in maps.0 ==> key.i <= key.j)
      && Get(maps.0, k) == Select(keys, Column(geomValues, indexList), k)
      && Get(maps.1, k) == Select(keys, Column(weightValues, indexList), k)
      && |Get(maps.0, k)| == |Get(maps.1, k)| == Count(keys, k)
  {
    var keys := K2Keys(m, atomicNumbers, indexList);
    AssembledShape(keys, indexList, geomValues, weightValues, k);
    forall key | key in GroupBy(keys, Column(geomValues, indexList)) ensures key.i <= key.j {
      var t :| 0 <= t < |keys| && keys[t] == key;
      assert indexList[t] in indexList;
      K2KeyCanonical(m, atomicNumbers, indexList[t]);
    }
  }

  /**
   * What the assembly of getK3Map builds: likewise, with keys whose outer
   * species indices are in ascending order.
   */
  lemma K3AssemblyShape(m: map<int, int>, atomicNumbers: seq<int>, indexList: seq<Index3>,
                        geomValues: map<Index3, real>, weightValues: map<Index3, real>, k: Index3)
    requires InRange3(indexList, |atomicNumbers|)
    ensures var maps, keys := K3Assembly(m, atomicNumbers, indexList, geomValues, weightValues),
                              K3Keys(m, atomicNumbers, indexList);
      && maps.0.Keys == maps.1.Keys == set x | x in keys
      && (forall key :: key in maps.0 ==> key.i <= key.k)
      && Get(maps.0, k) == Select(keys, Column(geomValues, indexList), k)
      && Get(maps.1, k) == Select(keys, Column(weightValues, indexList), k)
      && |Get(maps.0, k)| == |Get(maps.1, k)| == Count(keys, k)
  {
    var keys := K3Keys(m, atomicNumbers, indexList);
    AssembledShape(keys, indexList, geomValues, weightValues, k);
    forall key | key in GroupBy(keys, Column(geomValues, indexList)) ensures key.i <= key.k {
      var t :| 0 <= t < |keys| && keys[t] == key;
      assert indexList[t] in indexList;
      K3KeyCanonical(m, atomicNumbers, indexList[t]);
    }
  }

  /**
   * Conservation: summed over any duplicate-free list covering their keys,
   * both assembled maps hold exactly one value per listed pair.
   */
  lemma K2AssemblyTotal(m: map<int, int>, atomicNumbers: seq<int>, indexList: seq<Index2>,
                        geomValues: map<Index2, real>, weightValues: map<Index2, real>, ks: seq<Index2>)
    requires InRange2(indexList, |atomicNumbers|)
    requires Distinct(ks) && forall x :: x in K2Keys(m, atomicNumbers, indexList) ==> x in ks
    ensures var maps := K2Assembly(m, atomicNumbers, indexList, geomValues, weightValues);
      SumLengths(maps.0, ks) == SumLengths(maps.1, ks) == |indexList|
  {
    var keys := K2Keys(m, atomicNumbers, indexList);
    AssembledTotal(keys, indexList, geomValues, ks);
    AssembledTotal(keys, indexList, weightValues, ks);
  }

  lemma K3AssemblyTotal(m: map<int, int>, atomicNumbers: seq<int>, indexList: seq<Index3>,
                        geomValues: map<Index3, real>, weightValues: map<Index3, real>, ks: seq<Index3>)
    requires InRange3(indexList, |atomicNumbers|)
    requires Distinct(ks) && forall x :: x in K3Keys(m, atomicNumbers, indexList) ==> x in ks
    ensures var maps := K3Assembly(m, atomicNumbers, indexList, geomValues, weightValues);
      SumLengths(maps.0, ks) == SumLengths(maps.1, ks) == |indexList|
  {
    var keys := K3Keys(m, atomicNumbers, indexList);
    AssembledTotal(keys, indexList, geomValues, ks);
    AssembledTotal(keys, indexList, weightValues, ks);
  }
}
