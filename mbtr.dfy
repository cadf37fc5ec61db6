/**
 * The CMBTR class of describe/libmbtr/cmbtr.cpp: atom positions, atomic
 * numbers, the species-to-index map and the cell limit, with the lazily
 * computed and cached displacement tensor, pair and triple lists and k=2 and
 * k=3 maps.  Each method is proved to take the object from the state before
 * the call to the state that the corresponding function of MbtrState gives,
 * and to return that function's value; a thrown `invalid_argument` is a
 * `Failure` carrying its message.
 */
module Mbtr {
  import opened Wrappers
  import opened MbtrIndices
  import opened MbtrGeometry
  import opened MbtrMaps
  import opened MbtrStrings
  import opened MbtrState

  class CMBTR {
    const positions: seq<Vec3>
    const atomicNumbers: seq<int>
    const cellLimit: int
    /** The float library the computations call. */
    const num: Numerics

    var atomicNumberToIndexMap: map<int, int>
    var displacementTensorInitialized: bool
    var k2IndicesInitialized: bool
    var k3IndicesInitialized: bool
    var k2MapInitialized: bool
    var k3MapInitialized: bool
    var displacementTensor: seq<seq<Vec3>>
    var k2Indices: seq<Index2>
    var k3Indices: seq<Index3>
    var k2Map: K2Maps
    var k3Map: K3Maps

    /** The constructor arguments. */
    function Config(): Setup
    {
      Setup(positions, atomicNumbers, cellLimit, num)
    }

    /** The mutable fields, as a value. */
    function Snapshot(): State
      reads this
    {
      State(atomicNumberToIndexMap, displacementTensorInitialized, k2IndicesInitialized, k3IndicesInitialized,
            k2MapInitialized, k3MapInitialized, displacementTensor, k2Indices, k3Indices, k2Map, k3Map)
    }

    ghost predicate Valid()
      reads this
    {
      MbtrState.Valid(Config(), Snapshot())
    }

    /** Stores the arguments; all five flags start false. */
    constructor(positions: seq<Vec3>, atomicNumbers: seq<int>, atomicNumberToIndexMap: map<int, int>,
                cellLimit: int, num: Numerics)
      requires |atomicNumbers| <= |positions|
      ensures Valid()
      ensures this.positions == positions && this.atomicNumbers == atomicNumbers && this.cellLimit == cellLimit
      ensures this.num == num
      ensures Snapshot() == Initial(atomicNumberToIndexMap)
    {
      this.positions := positions;
      this.atomicNumbers := atomicNumbers;
      this.cellLimit := cellLimit;
      this.num := num;
      this.atomicNumberToIndexMap := atomicNumberToIndexMap;
      displacementTensorInitialized := false;
      k2IndicesInitialized := false;
      k3IndicesInitialized := false;
      k2MapInitialized := false;
      k3MapInitialized := false;
      displacementTensor := [];
      k2Indices := [];
      k3Indices := [];
      k2Map := (map[], map[]);
      k3Map := (map[], map[]);
    }

    /** getDisplacementTensor */
    method GetDisplacementTensor() returns (tensor: seq<seq<Vec3>>)
      requires Valid()
      modifies this
      ensures Valid()
      ensures var call := DisplacementTensorStep(Config(), old(Snapshot()));
        Snapshot() == call.state && tensor == call.value
    {
      if !displacementTensorInitialized {
        var computed := ComputeDisplacementTensor(positions[..|atomicNumbers|]);
        displacementTensor := computed;
        displacementTensorInitialized := true;
      }
      tensor := displacementTensor;
    }

    /** getDistanceMatrix */
    method GetDistanceMatrix() returns (distanceMatrix: seq<seq<real>>)
      requires Valid()
      modifies this
      ensures Valid()
      ensures var call := DistanceMatrixStep(Config(), old(Snapshot()));
        Snapshot() == call.state && distanceMatrix == call.value
    {
      var tensor := GetDisplacementTensor();
      distanceMatrix := ComputeDistanceMatrix(num, positions[..|atomicNumbers|], tensor);
    }

    /** getk2Indices */
    method GetK2Indices() returns (indexList: seq<Index2>)
      requires Valid()
      modifies this
      ensures Valid()
      ensures var call := K2IndicesStep(Config(), old(Snapshot()));
        Snapshot() == call.state && indexList == call.value
    {
      if !k2IndicesInitialized {
        var computed := EnumerateK2(|atomicNumbers|, cellLimit);
        k2Indices := computed;
        k2IndicesInitialized := true;
      }
      indexList := k2Indices;
    }

    /** getk3Indices */
    method GetK3Indices() returns (indexList: seq<Index3>)
      requires Valid()
      modifies this
      ensures Valid()
      ensures var call := K3IndicesStep(Config(), old(Snapshot()));
        Snapshot() == call.state && indexList == call.value
    {
      if !k3IndicesInitialized {
        var computed := EnumerateK3(|atomicNumbers|, cellLimit);
        k3Indices := computed;
        k3IndicesInitialized := true;
      }
      indexList := k3Indices;
    }

    /** k2GeomInverseDistance */
    method K2GeomInverseDistance(indexList: seq<Index2>) returns (valueMap: map<Index2, real>)
      requires Valid() && InRange2(indexList, |atomicNumbers|)
      modifies this
      ensures Valid()
      ensures var call := K2GeomInverseDistanceStep(Config(), old(Snapshot()), indexList);
        Snapshot() == call.state && valueMap == call.value
    {
      var distMatrix := GetDistanceMatrix();
      valueMap := K2GeomInverseDistanceLoop(num, distMatrix, indexList);
    }

    /** k3GeomCosine */
    method K3GeomCosine(indexList: seq<Index3>) returns (valueMap: map<Index3, real>)
      requires Valid() && InRange3(indexList, |atomicNumbers|)
      modifies this
      ensures Valid()
      ensures var call := K3GeomCosineStep(Config(), old(Snapshot()), indexList);
        Snapshot() == call.state && valueMap == call.value
    {
      var distMatrix := GetDistanceMatrix();
      var dispTensor := GetDisplacementTensor();
      valueMap := K3GeomCosineLoop(num, dispTensor, distMatrix, indexList);
    }

    /** k2WeightExponential */
    method K2WeightExponential(indexList: seq<Index2>, scale: real, cutoff: real) returns (valueMap: map<Index2, real>)
      requires Valid() && InRange2(indexList, |atomicNumbers|)
      modifies this
      ensures Valid()
      ensures var call := K2WeightExponentialStep(Config(), old(Snapshot()), indexList, scale, cutoff);
        Snapshot() == call.state && valueMap == call.value
    {
      var distMatrix := GetDistanceMatrix();
      valueMap := K2WeightExponentialLoop(num, distMatrix, indexList, scale, cutoff);
    }

    /** k3WeightExponential */
    method K3WeightExponential(indexList: seq<Index3>, scale: real, cutoff: real) returns (valueMap: map<Index3, real>)
      requires Valid() && InRange3(indexList, |atomicNumbers|)
      modifies this
      ensures Valid()
      ensures var call := K3WeightExponentialStep(Config(), old(Snapshot()), indexList, scale, cutoff);
        Snapshot() == call.state && valueMap == call.value
    {
      var distMatrix := GetDistanceMatrix();
      valueMap := K3WeightExponentialLoop(num, distMatrix, indexList, scale, cutoff);
    }

    /**
     * The weighting dispatch of getK2Map: "exponential" with the parameters
     * "scale" and "cutoff", "unity", or no weighting for any other name.
     */
    method K2Weighting(indexList: seq<Index2>, weightFunc: string, parameters: map<string, real>)
      returns (weightValues: Option<map<Index2, real>>)
      requires Valid() && InRange2(indexList, |atomicNumbers|)
      modifies this
      ensures Valid()
      ensures match ChooseWeighting(weightFunc, parameters)
        case None => weightValues.None? && Snapshot() == old(Snapshot())
        case Some(w) =>
          var call := K2WeightStep(Config(), old(Snapshot()), indexList, w);
          Snapshot() == call.state && weightValues == Some(call.value)
    {
      if weightFunc == "exponential" {
        var scale := Param(parameters, "scale");
        var cutoff := Param(parameters, "cutoff");
        var values := K2WeightExponential(indexList, scale, cutoff);
        weightValues := Some(values);
      } else if weightFunc == "unity" {
        var values := K2WeightUnity(indexList);
        weightValues := Some(values);
      } else {
        weightValues := None;
      }
    }

    /**
     * The save loop of getK2Map: read the species index of every atom of
     * every listed pair, append its values under its key, then store the two
     * maps and set the flag.
     */
    method StoreK2Map(indexList: seq<Index2>, geomValues: map<Index2, real>, weightValues: map<Index2, real>)
      requires Valid() && k2IndicesInitialized && InRange2(indexList, |atomicNumbers|)
      modifies this
      ensures Valid()
      ensures Snapshot() == old(Snapshot()).(
        atomicNumberToIndexMap :=
          Touched(old(atomicNumberToIndexMap), Referenced2(atomicNumbers, indexList, |indexList|)),
        k2Map := K2Assembly(old(atomicNumberToIndexMap), atomicNumbers, indexList, geomValues, weightValues),
        k2MapInitialized := true)
    {
      var geomMap, distMap, newSpeciesMap :=
        AssembleK2(atomicNumbers, atomicNumberToIndexMap, indexList, geomValues, weightValues);
      assert (geomMap, distMap) == K2Assembly(atomicNumberToIndexMap, atomicNumbers, indexList, geomValues, weightValues);
      ghost var after := Snapshot().(atomicNumberToIndexMap := newSpeciesMap, k2Map := (geomMap, distMap),
                                     k2MapInitialized := true);
      assert MbtrState.Valid(Config(), after);
      atomicNumberToIndexMap := newSpeciesMap;
      k2Map := (geomMap, distMap);
      k2MapInitialized := true;
      assert Snapshot() == after;
    }

    /** getK2Map */
    method GetK2Map(geomFunc: string, weightFunc: string, parameters: map<string, real>)
      returns (r: Result<K2Maps, string>)
      requires Valid()
      modifies this
      ensures Valid()
      ensures var call := K2MapStep(Config(), old(Snapshot()), geomFunc, weightFunc, parameters);
        Snapshot() == call.state && r == call.value
    {
      if !k2IndicesInitialized {
        ghost var before := Snapshot();
        var indexList := GetK2Indices();
        var geomValues: map<Index2, real>;
        if geomFunc == "inverse_distance" {
          geomValues := K2GeomInverseDistance(indexList);
        } else {
          K2MapThrows(Config(), before, geomFunc, weightFunc, parameters);
          return Failure("Invalid geometry function.");
        }
        var weighted := K2Weighting(indexList, weightFunc, parameters);
        if weighted.None? {
          K2MapThrows(Config(), before, geomFunc, weightFunc, parameters);
          return Failure("Invalid weighting function.");
        }
        var weightValues := weighted.value;
        ghost var pairs, d := K2Pairs(|atomicNumbers|, cellLimit), Distances(num, Atoms(Config()));
        assert Snapshot() == WithTensor(Config(), before).(k2IndicesInitialized := true, k2Indices := pairs);
        assert geomValues == InverseDistanceMap(num, d, pairs);
        assert weightValues == K2Weights(num, d, pairs, ChooseWeighting(weightFunc, parameters).value);
        StoreK2Map(indexList, geomValues, weightValues);
        K2MapResult(Config(), before, weightFunc, parameters);
      }
      r := Success(k2Map);
    }

    /**
     * The weighting dispatch of getK3Map: "exponential" with the parameters
     * "scale" and "cutoff", "unity", or no weighting for any other name.
     */
    method K3Weighting(indexList: seq<Index3>, weightFunc: string, parameters: map<string, real>)
      returns (weightValues: Option<map<Index3, real>>)
      requires Valid() && InRange3(indexList, |atomicNumbers|)
      modifies this
      ensures Valid()
      ensures match ChooseWeighting(weightFunc, parameters)
        case None => weightValues.None? && Snapshot() == old(Snapshot())
        case Some(w) =>
          var call := K3WeightStep(Config(), old(Snapshot()), indexList, w);
          Snapshot() == call.state && weightValues == Some(call.value)
    {
      if weightFunc == "exponential" {
        var scale := Param(parameters, "scale");
        var cutoff := Param(parameters, "cutoff");
        var values := K3WeightExponential(indexList, scale, cutoff);
        weightValues := Some(values);
      } else if weightFunc == "unity" {
        var values := K3WeightUnity(indexList);
        weightValues := Some(values);
      } else {
        weightValues := None;
      }
    }

    /**
     * The save loop of getK3Map: read the species index of every atom of
     * every listed triple, append its values under its key, then store the two
     * maps and set the flag.
     */
    method StoreK3Map(indexList: seq<Index3>, geomValues: map<Index3, real>, weightValues: map<Index3, real>)
      requires Valid() && k3IndicesInitialized && InRange3(indexList, |atomicNumbers|)
      modifies this
      ensures Valid()
      ensures Snapshot() == old(Snapshot()).(
        atomicNumberToIndexMap :=
          Touched(old(atomicNumberToIndexMap), Referenced3(atomicNumbers, indexList, |indexList|)),
        k3Map := K3Assembly(old(atomicNumberToIndexMap), atomicNumbers, indexList, geomValues, weightValues),
        k3MapInitialized := true)
    {
      var geomMap, distMap, newSpeciesMap :=
        AssembleK3(atomicNumbers, atomicNumberToIndexMap, indexList, geomValues, weightValues);
      assert (geomMap, distMap) == K3Assembly(atomicNumberToIndexMap, atomicNumbers, indexList, geomValues, weightValues);
      ghost var after := Snapshot().(atomicNumberToIndexMap := newSpeciesMap, k3Map := (geomMap, distMap),
                                     k3MapInitialized := true);
      assert MbtrState.Valid(Config(), after);
      atomicNumberToIndexMap := newSpeciesMap;
      k3Map := (geomMap, distMap);
      k3MapInitialized := true;
      assert Snapshot() == after;
    }

    /** getK3Map */
    method GetK3Map(geomFunc: string, weightFunc: string, parameters: map<string, real>)
      returns (r: Result<K3Maps, string>)
      requires Valid()
      modifies this
      ensures Valid()
      ensures var call := K3MapStep(Config(), old(Snapshot()), geomFunc, weightFunc, parameters);
        Snapshot() == call.state && r == call.value
    {
      if !k3IndicesInitialized {
        ghost var before := Snapshot();
        var indexList := GetK3Indices();
        var geomValues: map<Index3, real>;
        if geomFunc == "cosine" {
          geomValues := K3GeomCosine(indexList);
        } else {
          K3MapThrows(Config(), before, geomFunc, weightFunc, parameters);
          return Failure("Invalid geometry function.");
        }
        var weighted := K3Weighting(indexList, weightFunc, parameters);
        if weighted.None? {
          K3MapThrows(Config(), before, geomFunc, weightFunc, parameters);
          return Failure("Invalid weighting function.");
        }
        var weightValues := weighted.value;
        ghost var pairs, d := K3Triples(|atomicNumbers|, cellLimit), Distances(num, Atoms(Config()));
        assert Snapshot() == WithTensor(Config(), before).(k3IndicesInitialized := true, k3Indices := pairs);
        assert geomValues == CosineMap(num, Displacements(Atoms(Config())), d, pairs);
        assert weightValues == K3Weights(num, d, pairs, ChooseWeighting(weightFunc, parameters).value);
        StoreK3Map(indexList, geomValues, weightValues);
        K3MapResult(Config(), before, weightFunc, parameters);
      }
      r := Success(k3Map);
    }

    /** getK2MapCython: getK2Map, with the maps re-keyed by the strings "i,j". */
    method GetK2MapCython(geomFunc: string, weightFunc: string, parameters: map<string, real>)
      returns (r: Result<(map<string, seq<real>>, map<string, seq<real>>), string>)
      requires Valid()
      modifies this
      ensures Valid()
      ensures var call := K2MapStep(Config(), old(Snapshot()), geomFunc, weightFunc, parameters);
        Snapshot() == call.state && K2CythonResult(call.value, r)
    {
      var cMap := GetK2Map(geomFunc, weightFunc, parameters);
      if cMap.Failure? {
        return Failure(cMap.error);
      }
      var geomValues, distValues := cMap.value.0, cMap.value.1;
      AllKeys2RoundTrip();
      var cythonGeom, cythonDist := Stringify(geomValues, distValues, FormatKey2, ParseKey2);
      r := Success((cythonGeom, cythonDist));
    }

    /** getK3MapCython: getK3Map, with the maps re-keyed by the strings "i,j,k". */
    method GetK3MapCython(geomFunc: string, weightFunc: string, parameters: map<string, real>)
      returns (r: Result<(map<string, seq<real>>, map<string, seq<real>>), string>)
      requires Valid()
      modifies this
      ensures Valid()
      ensures var call := K3MapStep(Config(), old(Snapshot()), geomFunc, weightFunc, parameters);
        Snapshot() == call.state && K3CythonResult(call.value, r)
    {
      var cMap := GetK3Map(geomFunc, weightFunc, parameters);
      if cMap.Failure? {
        return Failure(cMap.error);
      }
      var geomValues, distValues := cMap.value.0, cMap.value.1;
      AllKeys3RoundTrip();
      var cythonGeom, cythonDist := Stringify(geomValues, distValues, FormatKey3, ParseKey3);
      r := Success((cythonGeom, cythonDist));
    }
  }
}
