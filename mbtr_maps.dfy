/**
 * The assembly step of getK2Map and getK3Map (describe/libmbtr/cmbtr.cpp):
 * each atom index of the index list is turned into a key of species indices,
 * and its geometry value and weight are appended to the lists stored under
 * that key.  Species indices come from the member map
 * `atomicNumberToIndexMap` through `operator[]`, which reads a missing atomic
 * number as index 0 and inserts it with that value.
 */
module MbtrMaps {
  import opened Wrappers
  import opened Grouping
  import opened MbtrIndices
  import opened MbtrGeometry

  // ---------------------------------------------------------------------
  // Species indices
  // ---------------------------------------------------------------------

  /** `atomicNumberToIndexMap[z]` as read: a missing number reads as 0. */
  function SpeciesIndex(m: map<int, int>, z: int): int
  {
    if z in m then m[z] else 0
  }

  /** The member map after `atomicNumberToIndexMap[z]`: a missing key is inserted with 0. */
  function Touch(m: map<int, int>, z: int): map<int, int>
  {
    if z in m then m else m[z := 0]
  }

  /** The atomic numbers of the atoms of the first `t` pairs of `indexList`. */
  function Referenced2(atomicNumbers: seq<int>, indexList: seq<Index2>, t: nat): set<int>
    requires InRange2(indexList, |atomicNumbers|) && t <= |indexList|
  {
    if t == 0 then {}
    else
      assert indexList[t - 1] in indexList;
      Referenced2(atomicNumbers, indexList, t - 1) + {atomicNumbers[indexList[t - 1].i], atomicNumbers[indexList[t - 1].j]}
  }

  /** The atomic numbers of the atoms of the first `t` triples of `indexList`. */
  function Referenced3(atomicNumbers: seq<int>, indexList: seq<Index3>, t: nat): set<int>
    requires InRange3(indexList, |atomicNumbers|) && t <= |indexList|
  {
    if t == 0 then {}
    else
      assert indexList[t - 1] in indexList;
      Referenced3(atomicNumbers, indexList, t - 1)
        + {atomicNumbers[indexList[t - 1].i], atomicNumbers[indexList[t - 1].j], atomicNumbers[indexList[t - 1].k]}
  }

  /** A number is referenced exactly when one of the first `t` pairs has an atom of that number. */
  lemma {:induction false} Referenced2Members(atomicNumbers: seq<int>, indexList: seq<Index2>, t: nat, z: int)
    requires InRange2(indexList, |atomicNumbers|) && t <= |indexList|
    ensures z in Referenced2(atomicNumbers, indexList, t) <==>
      exists s :: 0 <= s < t && (atomicNumbers[indexList[s].i] == z || atomicNumbers[indexList[s].j] == z)
  {
    if t > 0 {
      Referenced2Members(atomicNumbers, indexList, t - 1, z);
    }
  }

  /** A number is referenced exactly when one of the first `t` triples has an atom of that number. */
  lemma {:induction false} Referenced3Members(atomicNumbers: seq<int>, indexList: seq<Index3>, t: nat, z: int)
    requires InRange3(indexList, |atomicNumbers|) && t <= |indexList|
    ensures z in Referenced3(atomicNumbers, indexList, t) <==>
      exists s :: 0 <= s < t && (atomicNumbers[indexList[s].i] == z || atomicNumbers[indexList[s].j] == z
                                 || atomicNumbers[indexList[s].k] == z)
  {
    if t > 0 {
      Referenced3Members(atomicNumbers, indexList, t - 1, z);
    }
  }

  /**
   * The species map `m0` after reading the atomic numbers `zs`: the missing
   * ones are inserted with index 0.
   */
  function Touched(m0: map<int, int>, zs: set<int>): map<int, int>
  {
    map z | z in m0.Keys + zs :: SpeciesIndex(m0, z)
  }

  /**
   * Reading the numbers `zs` adds exactly those keys, keeps every entry, and
   * so changes no index that is read afterwards.
   */
  lemma TouchedFacts(m0: map<int, int>, zs: set<int>, y: int)
    ensures Touched(m0, zs).Keys == m0.Keys + zs
    ensures forall z :: z in m0 ==> Touched(m0, zs)[z] == m0[z]
    ensures SpeciesIndex(Touched(m0, zs), y) == SpeciesIndex(m0, y)
  {
  }

  /** Reading no numbers leaves the map as it is. */
  lemma TouchedNone(m0: map<int, int>)
    ensures Touched(m0, {}) == m0
  {
    assert Touched(m0, {}).Keys == m0.Keys;
  }

  /** One more read adds its number to the touched set. */
  lemma TouchTouched(m0: map<int, int>, zs: set<int>, z: int)
    ensures Touch(Touched(m0, zs), z) == Touched(m0, zs + {z})
  {
    TouchedFacts(m0, zs, z);
  }

  // ---------------------------------------------------------------------
  // Keys
  // ---------------------------------------------------------------------

  /** The key of a pair: its two species indices, the smaller first. */
  function K2Key(m: map<int, int>, atomicNumbers: seq<int>, x: Index2): Index2
    requires 0 <= x.i < |atomicNumbers| && 0 <= x.j < |atomicNumbers|
  {
    var iIndex := SpeciesIndex(m, atomicNumbers[x.i]);
    var jIndex := SpeciesIndex(m, atomicNumbers[x.j]);
    if jIndex < iIndex then Index2(jIndex, iIndex) else Index2(iIndex, jIndex)
  }

  /** The key of a triple: its species indices, the outer two swapped when the last is smaller. */
  function K3Key(m: map<int, int>, atomicNumbers: seq<int>, x: Index3): Index3
    requires 0 <= x.i < |atomicNumbers| && 0 <= x.j < |atomicNumbers| && 0 <= x.k < |atomicNumbers|
  {
    var iIndex := SpeciesIndex(m, atomicNumbers[x.i]);
    var jIndex := SpeciesIndex(m, atomicNumbers[x.j]);
    var kIndex := SpeciesIndex(m, atomicNumbers[x.k]);
    if kIndex < iIndex then Index3(kIndex, jIndex, iIndex) else Index3(iIndex, jIndex, kIndex)
  }

  /**
   * A pair's key is its species indices in ascending order; the order of the
   * two atoms does not matter.
   */
  lemma K2KeyCanonical(m: map<int, int>, atomicNumbers: seq<int>, x: Index2)
    requires 0 <= x.i < |atomicNumbers| && 0 <= x.j < |atomicNumbers|
    ensures var a, b := SpeciesIndex(m, atomicNumbers[x.i]), SpeciesIndex(m, atomicNumbers[x.j]);
      var r := K2Key(m, atomicNumbers, x);
      r.i <= r.j && ((r.i == a && r.j == b) || (r.i == b && r.j == a))
    ensures K2Key(m, atomicNumbers, Index2(x.j, x.i)) == K2Key(m, atomicNumbers, x)
  {
  }

  /**
   * A triple's key keeps the middle atom's species in the middle and the
   * outer two in ascending order; the triples (i, j, k) and (k, j, i), which
   * describe the same angle, get the same key.
   */
  lemma K3KeyCanonical(m: map<int, int>, atomicNumbers: seq<int>, x: Index3)
    requires 0 <= x.i < |atomicNumbers| && 0 <= x.j < |atomicNumbers| && 0 <= x.k < |atomicNumbers|
    ensures var a, b, c := SpeciesIndex(m, atomicNumbers[x.i]), SpeciesIndex(m, atomicNumbers[x.j]),
        SpeciesIndex(m, atomicNumbers[x.k]);
      var r := K3Key(m, atomicNumbers, x);
      r.i <= r.k && r.j == b && ((r.i == a && r.k == c) || (r.i == c && r.k == a))
    ensures K3Key(m, atomicNumbers, Index3(x.k, x.j, x.i)) == K3Key(m, atomicNumbers, x)
  {
  }

  /** The keys of the pairs of `indexList`, position by position. */
  function K2Keys(m: map<int, int>, atomicNumbers: seq<int>, indexList: seq<Index2>): (r: seq<Index2>)
    requires InRange2(indexList, |atomicNumbers|)
    ensures |r| == |indexList|
  {
    seq(|indexList|, t requires 0 <= t < |indexList| => K2Key(m, atomicNumbers, indexList[t]))
  }

  /** The keys of the triples of `indexList`, position by position. */
  function K3Keys(m: map<int, int>, atomicNumbers: seq<int>, indexList: seq<Index3>): (r: seq<Index3>)
    requires InRange3(indexList, |atomicNumbers|)
    ensures |r| == |indexList|
  {
    seq(|indexList|, t requires 0 <= t < |indexList| => K3Key(m, atomicNumbers, indexList[t]))
  }

  /** `values[index]` on a local value map: a missing index reads as 0. */
  function Lookup<I(==)>(values: map<I, real>, index: I): real
  {
    if index in values then values[index] else 0.0
  }

  /** The values read for the indices of `indexList`, position by position. */
  function Column<I(==)>(values: map<I, real>, indexList: seq<I>): (r: seq<real>)
    ensures |r| == |indexList|
  {
    seq(|indexList|, t requires 0 <= t < |indexList| => Lookup(values, indexList[t]))
  }

  // ---------------------------------------------------------------------
  // Weighting choice
  // ---------------------------------------------------------------------

  datatype Weighting = Unity | Exponential(scale: real, cutoff: real)

  /** `parameters[name]` on the by-value parameter map: a missing name reads as 0. */
  function Param(parameters: map<string, real>, name: string): real
  {
    if name in parameters then parameters[name] else 0.0
  }

  /**
   * The weighting named by `weightFunc`: "exponential" reads the parameters
   * "scale" and "cutoff", "unity" takes none, any other name is invalid.
   */
  function ChooseWeighting(weightFunc: string, parameters: map<string, real>): (r: Option<Weighting>)
    ensures r.None? <==> weightFunc != "exponential" && weightFunc != "unity"
    ensures r == Some(Unity) <==> weightFunc == "unity"
    ensures r.Some? && r.value.Exponential? ==>
      r.value.scale == Param(parameters, "scale") && r.value.cutoff == Param(parameters, "cutoff")
  {
    if weightFunc == "exponential" then
      Some(Exponential(Param(parameters, "scale"), Param(parameters, "cutoff")))
    else if weightFunc == "unity" then Some(Unity)
    else None
  }

  /** The weight map of the k=2 term under a weighting. */
  function K2Weights(num: Numerics, dist: seq<seq<real>>, indexList: seq<Index2>, w: Weighting): map<Index2, real>
    requires IsSquare(dist, |dist|) && InRange2(indexList, |dist|)
  {
    match w
    case Unity => UnityMap2(indexList)
    case Exponential(scale, cutoff) => ExponentialMap2(num, dist, indexList, scale, cutoff)
  }

  /** The weight map of the k=3 term under a weighting. */
  function K3Weights(num: Numerics, dist: seq<seq<real>>, indexList: seq<Index3>, w: Weighting): map<Index3, real>
    requires IsSquare(dist, |dist|) && InRange3(indexList, |dist|)
  {
    match w
    case Unity => UnityMap3(indexList)
    case Exponential(scale, cutoff) => ExponentialMap3(num, dist, indexList, scale, cutoff)
  }

  /**
   * The values the assembly reads for the pairs: the inverse distance of
   * every pair, and its weight, which is 0 for a pair the exponential
   * weighting dropped.
   */
  lemma K2ColumnValues(num: Numerics, dist: seq<seq<real>>, indexList: seq<Index2>, w: Weighting, t: nat)
    requires IsSquare(dist, |dist|) && InRange2(indexList, |dist|) && t < |indexList|
    ensures var x := indexList[t];
      Column(InverseDistanceMap(num, dist, indexList), indexList)[t] == num.div(1.0, dist[x.i][x.j])
    ensures var x := indexList[t];
      Column(K2Weights(num, dist, indexList, w), indexList)[t] ==
        if w.Unity? then 1.0
        else if ExpWeight2(num, dist, x, w.scale) <= w.cutoff then ExpWeight2(num, dist, x, w.scale) else 0.0
  {
    assert indexList[t] in indexList;
  }

  /**
   * The values the assembly reads for the triples: the cosine of every
   * triple's angle, and its weight, which is 0 for a triple the exponential
   * weighting dropped.
   */
  lemma K3ColumnValues(num: Numerics, tensor: seq<seq<Vec3>>, dist: seq<seq<real>>, indexList: seq<Index3>,
                       w: Weighting, t: nat)
    requires IsSquare(dist, |dist|) && IsSquare(tensor, |dist|) && InRange3(indexList, |dist|) && t < |indexList|
    ensures var x := indexList[t];
      Column(CosineMap(num, tensor, dist, indexList), indexList)[t] == Cosine(num, tensor, dist, x)
    ensures var x := indexList[t];
      Column(K3Weights(num, dist, indexList, w), indexList)[t] ==
        if w.Unity? then 1.0
        else if ExpWeight3(num, dist, x, w.scale) <= w.cutoff then ExpWeight3(num, dist, x, w.scale) else 0.0
  {
    assert indexList[t] in indexList;
  }

  // ---------------------------------------------------------------------
  // The assembly loops
  // ---------------------------------------------------------------------

  /** The species map after the reads of the first `t` iterations of the getK2Map loop. */
  function SpeciesAfter2(m0: map<int, int>, atomicNumbers: seq<int>, indexList: seq<Index2>, t: nat): map<int, int>
    requires InRange2(indexList, |atomicNumbers|) && t <= |indexList|
  {
    if t == 0 then m0
    else
      var m := SpeciesAfter2(m0, atomicNumbers, indexList, t - 1);
      var x := indexList[t - 1];
      assert x in indexList;
      Touch(Touch(m, atomicNumbers[x.i]), atomicNumbers[x.j])
  }

  /** A value map of the getK2Map loop (geometry or weights) after its first `t` iterations. */
  function MapAfter2(m0: map<int, int>, atomicNumbers: seq<int>, indexList: seq<Index2>, values: map<Index2, real>, t: nat)
    : map<Index2, seq<real>>
    requires InRange2(indexList, |atomicNumbers|) && t <= |indexList|
  {
    if t == 0 then map[]
    else
      assert indexList[t - 1] in indexList;
      Push(MapAfter2(m0, atomicNumbers, indexList, values, t - 1), K2Key(m0, atomicNumbers, indexList[t - 1]),
           Lookup(values, indexList[t - 1]))
  }

  /** The loop's reads insert exactly the atomic numbers of the pairs read so far and change no index. */
  lemma {:induction false} SpeciesAfter2Spec(m0: map<int, int>, atomicNumbers: seq<int>, indexList: seq<Index2>, t: nat)
    requires InRange2(indexList, |atomicNumbers|) && t <= |indexList|
    ensures SpeciesAfter2(m0, atomicNumbers, indexList, t) == Touched(m0, Referenced2(atomicNumbers, indexList, t))
  {
    if t == 0 {
      TouchedNone(m0);
    } else {
      SpeciesAfter2Spec(m0, atomicNumbers, indexList, t - 1);
      SpeciesStep2(m0, atomicNumbers, indexList, t);
      assert indexList[t - 1] in indexList;
      assert SpeciesAfter2(m0, atomicNumbers, indexList, t) == Touch(Touch(SpeciesAfter2(m0, atomicNumbers, indexList, t - 1), atomicNumbers[indexList[t - 1].i]), atomicNumbers[indexList[t - 1].j]);
    }
  }

  /** One more pair: reading its numbers touches them. */
  lemma SpeciesStep2(m0: map<int, int>, atomicNumbers: seq<int>, indexList: seq<Index2>, t: nat)
    requires InRange2(indexList, |atomicNumbers|) && 0 < t <= |indexList|
    ensures assert indexList[t - 1] in indexList;
      Touch(Touch(Touched(m0, Referenced2(atomicNumbers, indexList, t - 1)), atomicNumbers[indexList[t - 1].i]), atomicNumbers[indexList[t - 1].j]) == Touched(m0, Referenced2(atomicNumbers, indexList, t))
  {
    var x := indexList[t - 1];
    assert x in indexList;
    var zs := Referenced2(atomicNumbers, indexList, t - 1);
    TouchTouched(m0, zs, atomicNumbers[x.i]);
    TouchTouched(m0, zs + {atomicNumbers[x.i]}, atomicNumbers[x.j]);
    assert Referenced2(atomicNumbers, indexList, t) == zs + {atomicNumbers[x.i]} + {atomicNumbers[x.j]};
  }


  /**
   * Iteration `t` reads the species indices of its pair as the map the loop
   * started with holds them, so it files its values under the pair's key.
   */
  lemma Reads2(m0: map<int, int>, atomicNumbers: seq<int>, indexList: seq<Index2>, t: nat)
    requires InRange2(indexList, |atomicNumbers|) && t < |indexList|
    ensures var m, x := SpeciesAfter2(m0, atomicNumbers, indexList, t), indexList[t];
      assert x in indexList;
      SpeciesIndex(m, atomicNumbers[x.i]) == SpeciesIndex(m0, atomicNumbers[x.i]) &&
      SpeciesIndex(Touch(m, atomicNumbers[x.i]), atomicNumbers[x.j]) == SpeciesIndex(m0, atomicNumbers[x.j])
  {
    var x := indexList[t];
    assert x in indexList;
    SpeciesAfter2Spec(m0, atomicNumbers, indexList, t);
    var zs := Referenced2(atomicNumbers, indexList, t);
    TouchedFacts(m0, zs, atomicNumbers[x.i]);
    TouchTouched(m0, zs, atomicNumbers[x.i]);
    TouchedFacts(m0, zs + {atomicNumbers[x.i]}, atomicNumbers[x.j]);
  }

  /** After `t` iterations a value map groups the values of the first `t` pairs by their keys. */
  lemma {:induction false} MapAfter2Spec(m0: map<int, int>, atomicNumbers: seq<int>, indexList: seq<Index2>,
                                        values: map<Index2, real>, t: nat)
    requires InRange2(indexList, |atomicNumbers|) && t <= |indexList|
    ensures MapAfter2(m0, atomicNumbers, indexList, values, t)
      == GroupBy(K2Keys(m0, atomicNumbers, indexList[..t]), Column(values, indexList[..t]))
  {
    if t > 0 {
      MapAfter2Spec(m0, atomicNumbers, indexList, values, t - 1);
      GroupStep2(m0, atomicNumbers, indexList, values, t);
    }
  }

  /** Iteration `t` of the loop: what it reads and what it files. */
  lemma Iteration2(m0: map<int, int>, atomicNumbers: seq<int>, indexList: seq<Index2>,
                    geomValues: map<Index2, real>, weightValues: map<Index2, real>, t: nat)
    requires InRange2(indexList, |atomicNumbers|) && t < |indexList|
    ensures 0 <= indexList[t].i < |atomicNumbers| && 0 <= indexList[t].j < |atomicNumbers|
    ensures SpeciesAfter2(m0, atomicNumbers, indexList, t + 1) == Touch(Touch(SpeciesAfter2(m0, atomicNumbers, indexList, t), atomicNumbers[indexList[t].i]), atomicNumbers[indexList[t].j])
    ensures MapAfter2(m0, atomicNumbers, indexList, geomValues, t + 1)
      == Push(MapAfter2(m0, atomicNumbers, indexList, geomValues, t), K2Key(m0, atomicNumbers, indexList[t]), Lookup(geomValues, indexList[t]))
    ensures MapAfter2(m0, atomicNumbers, indexList, weightValues, t + 1)
      == Push(MapAfter2(m0, atomicNumbers, indexList, weightValues, t), K2Key(m0, atomicNumbers, indexList[t]), Lookup(weightValues, indexList[t]))
    ensures var m, x := SpeciesAfter2(m0, atomicNumbers, indexList, t), indexList[t];
      var iIndex := SpeciesIndex(m, atomicNumbers[x.i]);
      var jIndex := SpeciesIndex(Touch(m, atomicNumbers[x.i]), atomicNumbers[x.j]);
      (if jIndex < iIndex then Index2(jIndex, iIndex) else Index2(iIndex, jIndex)) == K2Key(m0, atomicNumbers, x)
  {
    assert indexList[t] in indexList;
    Reads2(m0, atomicNumbers, indexList, t);
  }

  /** After the last iteration the loop's state is that of the specification. */
  lemma Assembled2(m0: map<int, int>, atomicNumbers: seq<int>, indexList: seq<Index2>,
                    geomValues: map<Index2, real>, weightValues: map<Index2, real>)
    requires InRange2(indexList, |atomicNumbers|)
    ensures var keys := K2Keys(m0, atomicNumbers, indexList);
      MapAfter2(m0, atomicNumbers, indexList, geomValues, |indexList|) == GroupBy(keys, Column(geomValues, indexList)) &&
      MapAfter2(m0, atomicNumbers, indexList, weightValues, |indexList|) == GroupBy(keys, Column(weightValues, indexList))
    ensures SpeciesAfter2(m0, atomicNumbers, indexList, |indexList|) == Touched(m0, Referenced2(atomicNumbers, indexList, |indexList|))
  {
    SpeciesAfter2Spec(m0, atomicNumbers, indexList, |indexList|);
    MapAfter2Spec(m0, atomicNumbers, indexList, geomValues, |indexList|);
    MapAfter2Spec(m0, atomicNumbers, indexList, weightValues, |indexList|);
    assert indexList[..|indexList|] == indexList;
  }

  /** One more pair pushes its value under its key. */
  lemma GroupStep2(m: map<int, int>, atomicNumbers: seq<int>, indexList: seq<Index2>, values: map<Index2, real>, t: nat)
    requires InRange2(indexList, |atomicNumbers|) && 0 < t <= |indexList|
    ensures assert indexList[t - 1] in indexList;
      GroupBy(K2Keys(m, atomicNumbers, indexList[..t]), Column(values, indexList[..t]))
      == Push(GroupBy(K2Keys(m, atomicNumbers, indexList[..t - 1]), Column(values, indexList[..t - 1])),
              K2Key(m, atomicNumbers, indexList[t - 1]), Lookup(values, indexList[t - 1]))
  {
    var prefix, x := indexList[..t - 1], indexList[t - 1];
    assert indexList[..t] == prefix + [x];
    assert x in indexList;
    assert K2Keys(m, atomicNumbers, prefix + [x]) == K2Keys(m, atomicNumbers, prefix) + [K2Key(m, atomicNumbers, x)];
    assert Column(values, prefix + [x]) == Column(values, prefix) + [Lookup(values, x)];
    GroupBySnoc(K2Keys(m, atomicNumbers, prefix), Column(values, prefix), K2Key(m, atomicNumbers, x), Lookup(values, x));
  }

  /**
   * The loop of getK2Map that files every pair's geometry value and weight
   * under its key.  It returns the two maps and the member species map after
   * the loop's `operator[]` reads.
   */
  method AssembleK2(atomicNumbers: seq<int>, speciesMap: map<int, int>, indexList: seq<Index2>,
                    geomValues: map<Index2, real>, weightValues: map<Index2, real>)
    returns (geomMap: map<Index2, seq<real>>, distMap: map<Index2, seq<real>>, newSpeciesMap: map<int, int>)
    requires InRange2(indexList, |atomicNumbers|)
    ensures var keys := K2Keys(speciesMap, atomicNumbers, indexList);
      geomMap == GroupBy(keys, Column(geomValues, indexList)) &&
      distMap == GroupBy(keys, Column(weightValues, indexList))
    ensures newSpeciesMap == Touched(speciesMap, Referenced2(atomicNumbers, indexList, |indexList|))
  {
    geomMap, distMap, newSpeciesMap := map[], map[], speciesMap;
    for t := 0 to |indexList|
      invariant newSpeciesMap == SpeciesAfter2(speciesMap, atomicNumbers, indexList, t)
      invariant geomMap == MapAfter2(speciesMap, atomicNumbers, indexList, geomValues, t)
      invariant distMap == MapAfter2(speciesMap, atomicNumbers, indexList, weightValues, t)
    {
      Iteration2(speciesMap, atomicNumbers, indexList, geomValues, weightValues, t);
      var index := indexList[t];
      var geomValue := Lookup(geomValues, index);
      var distValue := Lookup(weightValues, index);
      var iElem, jElem := atomicNumbers[index.i], atomicNumbers[index.j];
      var iIndex := SpeciesIndex(newSpeciesMap, iElem);
      newSpeciesMap := Touch(newSpeciesMap, iElem);
      var jIndex := SpeciesIndex(newSpeciesMap, jElem);
      newSpeciesMap := Touch(newSpeciesMap, jElem);
      var indexKey := if jIndex < iIndex then Index2(jIndex, iIndex) else Index2(iIndex, jIndex);
      geomMap := Push(geomMap, indexKey, geomValue);
      distMap := Push(distMap, indexKey, distValue);
    }
    Assembled2(speciesMap, atomicNumbers, indexList, geomValues, weightValues);
  }

  /** The species map after the reads of the first `t` iterations of the getK3Map loop. */
  function SpeciesAfter3(m0: map<int, int>, atomicNumbers: seq<int>, indexList: seq<Index3>, t: nat): map<int, int>
    requires InRange3(indexList, |atomicNumbers|) && t <= |indexList|
  {
    if t == 0 then m0
    else
      var m := SpeciesAfter3(m0, atomicNumbers, indexList, t - 1);
      var x := indexList[t - 1];
      assert x in indexList;
      Touch(Touch(Touch(m, atomicNumbers[x.i]), atomicNumbers[x.j]), atomicNumbers[x.k])
  }

  /** A value map of the getK3Map loop (geometry or weights) after its first `t` iterations. */
  function MapAfter3(m0: map<int, int>, atomicNumbers: seq<int>, indexList: seq<Index3>, values: map<Index3, real>, t: nat)
    : map<Index3, seq<real>>
    requires InRange3(indexList, |atomicNumbers|) && t <= |indexList|
  {
    if t == 0 then map[]
    else
      assert indexList[t - 1] in indexList;
      Push(MapAfter3(m0, atomicNumbers, indexList, values, t - 1), K3Key(m0, atomicNumbers, indexList[t - 1]),
           Lookup(values, indexList[t - 1]))
  }

  /** The loop's reads insert exactly the atomic numbers of the triples read so far and change no index. */
  lemma {:induction false} SpeciesAfter3Spec(m0: map<int, int>, atomicNumbers: seq<int>, indexList: seq<Index3>, t: nat)
    requires InRange3(indexList, |atomicNumbers|) && t <= |indexList|
    ensures SpeciesAfter3(m0, atomicNumbers, indexList, t) == Touched(m0, Referenced3(atomicNumbers, indexList, t))
  {
    if t == 0 {
      TouchedNone(m0);
    } else {
      SpeciesAfter3Spec(m0, atomicNumbers, indexList, t - 1);
      SpeciesStep3(m0, atomicNumbers, indexList, t);
      assert indexList[t - 1] in indexList;
      assert SpeciesAfter3(m0, atomicNumbers, indexList, t) == Touch(Touch(Touch(SpeciesAfter3(m0, atomicNumbers, indexList, t - 1), atomicNumbers[indexList[t - 1].i]), atomicNumbers[indexList[t - 1].j]), atomicNumbers[indexList[t - 1].k]);
    }
  }

  /** One more triple: reading its numbers touches them. */
  lemma SpeciesStep3(m0: map<int, int>, atomicNumbers: seq<int>, indexList: seq<Index3>, t: nat)
    requires InRange3(indexList, |atomicNumbers|) && 0 < t <= |indexList|
    ensures assert indexList[t - 1] in indexList;
      Touch(Touch(Touch(Touched(m0, Referenced3(atomicNumbers, indexList, t - 1)), atomicNumbers[indexList[t - 1].i]), atomicNumbers[indexList[t - 1].j]), atomicNumbers[indexList[t - 1].k]) == Touched(m0, Referenced3(atomicNumbers, indexList, t))
  {
    var x := indexList[t - 1];
    assert x in indexList;
    var zs := Referenced3(atomicNumbers, indexList, t - 1);
    TouchTouched(m0, zs, atomicNumbers[x.i]);
    TouchTouched(m0, zs + {atomicNumbers[x.i]}, atomicNumbers[x.j]);
    TouchTouched(m0, zs + {atomicNumbers[x.i]} + {atomicNumbers[x.j]}, atomicNumbers[x.k]);
    assert Referenced3(atomicNumbers, indexList, t) == zs + {atomicNumbers[x.i]} + {atomicNumbers[x.j]} + {atomicNumbers[x.k]};
  }


  /**
   * Iteration `t` reads the species indices of its triple as the map the loop
   * started with holds them, so it files its values under the triple's key.
   */
  lemma Reads3(m0: map<int, int>, atomicNumbers: seq<int>, indexList: seq<Index3>, t: nat)
    requires InRange3(indexList, |atomicNumbers|) && t < |indexList|
    ensures var m, x := SpeciesAfter3(m0, atomicNumbers, indexList, t), indexList[t];
      assert x in indexList;
      SpeciesIndex(m, atomicNumbers[x.i]) == SpeciesIndex(m0, atomicNumbers[x.i]) &&
      SpeciesIndex(Touch(m, atomicNumbers[x.i]), atomicNumbers[x.j]) == SpeciesIndex(m0, atomicNumbers[x.j]) &&
      SpeciesIndex(Touch(Touch(m, atomicNumbers[x.i]), atomicNumbers[x.j]), atomicNumbers[x.k]) == SpeciesIndex(m0, atomicNumbers[x.k])
  {
    var x := indexList[t];
    assert x in indexList;
    SpeciesAfter3Spec(m0, atomicNumbers, indexList, t);
    var zs := Referenced3(atomicNumbers, indexList, t);
    TouchedFacts(m0, zs, atomicNumbers[x.i]);
    TouchTouched(m0, zs, atomicNumbers[x.i]);
    TouchedFacts(m0, zs + {atomicNumbers[x.i]}, atomicNumbers[x.j]);
    TouchTouched(m0, zs + {atomicNumbers[x.i]}, atomicNumbers[x.j]);
    TouchedFacts(m0, zs + {atomicNumbers[x.i]} + {atomicNumbers[x.j]}, atomicNumbers[x.k]);
  }

  /** After `t` iterations a value map groups the values of the first `t` triples by their keys. */
  lemma {:induction false} MapAfter3Spec(m0: map<int, int>, atomicNumbers: seq<int>, indexList: seq<Index3>,
                                        values: map<Index3, real>, t: nat)
    requires InRange3(indexList, |atomicNumbers|) && t <= |indexList|
    ensures MapAfter3(m0, atomicNumbers, indexList, values, t)
      == GroupBy(K3Keys(m0, atomicNumbers, indexList[..t]), Column(values, indexList[..t]))
  {
    if t > 0 {
      MapAfter3Spec(m0, atomicNumbers, indexList, values, t - 1);
      GroupStep3(m0, atomicNumbers, indexList, values, t);
    }
  }

  /** Iteration `t` of the loop: what it reads and what it files. */
  lemma Iteration3(m0: map<int, int>, atomicNumbers: seq<int>, indexList: seq<Index3>,
                    geomValues: map<Index3, real>, weightValues: map<Index3, real>, t: nat)
    requires InRange3(indexList, |atomicNumbers|) && t < |indexList|
    ensures 0 <= indexList[t].i < |atomicNumbers| && 0 <= indexList[t].j < |atomicNumbers| && 0 <= indexList[t].k < |atomicNumbers|
    ensures SpeciesAfter3(m0, atomicNumbers, indexList, t + 1) == Touch(Touch(Touch(SpeciesAfter3(m0, atomicNumbers, indexList, t), atomicNumbers[indexList[t].i]), atomicNumbers[indexList[t].j]), atomicNumbers[indexList[t].k])
    ensures MapAfter3(m0, atomicNumbers, indexList, geomValues, t + 1)
      == Push(MapAfter3(m0, atomicNumbers, indexList, geomValues, t), K3Key(m0, atomicNumbers, indexList[t]), Lookup(geomValues, indexList[t]))
    ensures MapAfter3(m0, atomicNumbers, indexList, weightValues, t + 1)
      == Push(MapAfter3(m0, atomicNumbers, indexList, weightValues, t), K3Key(m0, atomicNumbers, indexList[t]), Lookup(weightValues, indexList[t]))
    ensures var m, x := SpeciesAfter3(m0, atomicNumbers, indexList, t), indexList[t];
      var iIndex := SpeciesIndex(m, atomicNumbers[x.i]);
      var jIndex := SpeciesIndex(Touch(m, atomicNumbers[x.i]), atomicNumbers[x.j]);
      var kIndex := SpeciesIndex(Touch(Touch(m, atomicNumbers[x.i]), atomicNumbers[x.j]), atomicNumbers[x.k]);
      (if kIndex < iIndex then Index3(kIndex, jIndex, iIndex) else Index3(iIndex, jIndex, kIndex)) == K3Key(m0, atomicNumbers, x)
  {
    assert indexList[t] in indexList;
    Reads3(m0, atomicNumbers, indexList, t);
  }

  /** After the last iteration the loop's state is that of the specification. */
  lemma Assembled3(m0: map<int, int>, atomicNumbers: seq<int>, indexList: seq<Index3>,
                    geomValues: map<Index3, real>, weightValues: map<Index3, real>)
    requires InRange3(indexList, |atomicNumbers|)
    ensures var keys := K3Keys(m0, atomicNumbers, indexList);
      MapAfter3(m0, atomicNumbers, indexList, geomValues, |indexList|) == GroupBy(keys, Column(geomValues, indexList)) &&
      MapAfter3(m0, atomicNumbers, indexList, weightValues, |indexList|) == GroupBy(keys, Column(weightValues, indexList))
    ensures SpeciesAfter3(m0, atomicNumbers, indexList, |indexList|) == Touched(m0, Referenced3(atomicNumbers, indexList, |indexList|))
  {
    SpeciesAfter3Spec(m0, atomicNumbers, indexList, |indexList|);
    MapAfter3Spec(m0, atomicNumbers, indexList, geomValues, |indexList|);
    MapAfter3Spec(m0, atomicNumbers, indexList, weightValues, |indexList|);
    assert indexList[..|indexList|] == indexList;
  }

  /** One more triple pushes its value under its key. */
  lemma GroupStep3(m: map<int, int>, atomicNumbers: seq<int>, indexList: seq<Index3>, values: map<Index3, real>, t: nat)
    requires InRange3(indexList, |atomicNumbers|) && 0 < t <= |indexList|
    ensures assert indexList[t - 1] in indexList;
      GroupBy(K3Keys(m, atomicNumbers, indexList[..t]), Column(values, indexList[..t]))
      == Push(GroupBy(K3Keys(m, atomicNumbers, indexList[..t - 1]), Column(values, indexList[..t - 1])),
              K3Key(m, atomicNumbers, indexList[t - 1]), Lookup(values, indexList[t - 1]))
  {
    var prefix, x := indexList[..t - 1], indexList[t - 1];
    assert indexList[..t] == prefix + [x];
    assert x in indexList;
    assert K3Keys(m, atomicNumbers, prefix + [x]) == K3Keys(m, atomicNumbers, prefix) + [K3Key(m, atomicNumbers, x)];
    assert Column(values, prefix + [x]) == Column(values, prefix) + [Lookup(values, x)];
    GroupBySnoc(K3Keys(m, atomicNumbers, prefix), Column(values, prefix), K3Key(m, atomicNumbers, x), Lookup(values, x));
  }

  /** The loop of getK3Map: files every triple's geometry value and weight under its key. */
  method AssembleK3(atomicNumbers: seq<int>, speciesMap: map<int, int>, indexList: seq<Index3>,
                    geomValues: map<Index3, real>, weightValues: map<Index3, real>)
    returns (geomMap: map<Index3, seq<real>>, distMap: map<Index3, seq<real>>, newSpeciesMap: map<int, int>)
    requires InRange3(indexList, |atomicNumbers|)
    ensures var keys := K3Keys(speciesMap, atomicNumbers, indexList);
      geomMap == GroupBy(keys, Column(geomValues, indexList)) &&
      distMap == GroupBy(keys, Column(weightValues, indexList))
    ensures newSpeciesMap == Touched(speciesMap, Referenced3(atomicNumbers, indexList, |indexList|))
  {
    geomMap, distMap, newSpeciesMap := map[], map[], speciesMap;
    for t := 0 to |indexList|
      invariant newSpeciesMap == SpeciesAfter3(speciesMap, atomicNumbers, indexList, t)
      invariant geomMap == MapAfter3(speciesMap, atomicNumbers, indexList, geomValues, t)
      invariant distMap == MapAfter3(speciesMap, atomicNumbers, indexList, weightValues, t)
    {
      Iteration3(speciesMap, atomicNumbers, indexList, geomValues, weightValues, t);
      var index := indexList[t];
      var geomValue := Lookup(geomValues, index);
      var distValue := Lookup(weightValues, index);
      var iElem, jElem, kElem := atomicNumbers[index.i], atomicNumbers[index.j], atomicNumbers[index.k];
      var iIndex := SpeciesIndex(newSpeciesMap, iElem);
      newSpeciesMap := Touch(newSpeciesMap, iElem);
      var jIndex := SpeciesIndex(newSpeciesMap, jElem);
      newSpeciesMap := Touch(newSpeciesMap, jElem);
      var kIndex := SpeciesIndex(newSpeciesMap, kElem);
      newSpeciesMap := Touch(newSpeciesMap, kElem);
      var indexKey := if kIndex < iIndex then Index3(kIndex, jIndex, iIndex) else Index3(iIndex, jIndex, kIndex);
      geomMap := Push(geomMap, indexKey, geomValue);
      distMap := Push(distMap, indexKey, distValue);
    }
    Assembled3(speciesMap, atomicNumbers, indexList, geomValues, weightValues);
  }

  // ---------------------------------------------------------------------
  // What the assembled maps hold
  // ---------------------------------------------------------------------

  /**
   * The geometry map and the weight map have the same keys, namely the keys
   * of the listed indices; under each key both hold one value per listed
   * index with that key, the geometry values and weights of those indices in
   * list order.
   */
  lemma AssembledShape<I, K>(keys: seq<K>, indexList: seq<I>, geomValues: map<I, real>, weightValues: map<I, real>, k: K)
    requires |keys| == |indexList|
    ensures GroupBy(keys, Column(geomValues, indexList)).Keys == set x | x in keys
    ensures GroupBy(keys, Column(weightValues, indexList)).Keys == set x | x in keys
    ensures Get(GroupBy(keys, Column(geomValues, indexList)), k) == Select(keys, Column(geomValues, indexList), k)
    ensures Get(GroupBy(keys, Column(weightValues, indexList)), k) == Select(keys, Column(weightValues, indexList), k)
    ensures |Get(GroupBy(keys, Column(geomValues, indexList)), k)| == Count(keys, k)
    ensures |Get(GroupBy(keys, Column(weightValues, indexList)), k)| == Count(keys, k)
  {
    GroupByKeys(keys, Column(geomValues, indexList));
    GroupByKeys(keys, Column(weightValues, indexList));
    GroupByAt(keys, Column(geomValues, indexList), k);
    GroupByAt(keys, Column(weightValues, indexList), k);
    SelectLength(keys, Column(geomValues, indexList), k);
    SelectLength(keys, Column(weightValues, indexList), k);
  }

  /**
   * Conservation: summed over any duplicate-free list of its keys, the
   * geometry map holds one value per listed index.
   */
  lemma AssembledTotal<I, K>(keys: seq<K>, indexList: seq<I>, values: map<I, real>, ks: seq<K>)
    requires |keys| == |indexList|
    requires Distinct(ks) && forall k :: k in keys ==> k in ks
    ensures SumLengths(GroupBy(keys, Column(values, indexList)), ks) == |indexList|
  {
    GroupByKeys(keys, Column(values, indexList));
    GroupByTotal(keys, Column(values, indexList), ks);
  }

  /**
   * Reading atomic numbers changes no key: keys computed from the species map
   * after the loop are those computed from the map before it.
   */
  lemma TouchedKeys2(m0: map<int, int>, zs: set<int>, atomicNumbers: seq<int>, indexList: seq<Index2>)
    requires InRange2(indexList, |atomicNumbers|)
    ensures K2Keys(Touched(m0, zs), atomicNumbers, indexList) == K2Keys(m0, atomicNumbers, indexList)
  {
    forall t | 0 <= t < |indexList|
      ensures K2Keys(Touched(m0, zs), atomicNumbers, indexList)[t] == K2Keys(m0, atomicNumbers, indexList)[t]
    {
      var x := indexList[t];
      assert x in indexList;
      TouchedFacts(m0, zs, atomicNumbers[x.i]);
      TouchedFacts(m0, zs, atomicNumbers[x.j]);
    }
  }

  lemma TouchedKeys3(m0: map<int, int>, zs: set<int>, atomicNumbers: seq<int>, indexList: seq<Index3>)
    requires InRange3(indexList, |atomicNumbers|)
    ensures K3Keys(Touched(m0, zs), atomicNumbers, indexList) == K3Keys(m0, atomicNumbers, indexList)
  {
    forall t | 0 <= t < |indexList|
      ensures K3Keys(Touched(m0, zs), atomicNumbers, indexList)[t] == K3Keys(m0, atomicNumbers, indexList)[t]
    {
      var x := indexList[t];
      assert x in indexList;
      TouchedFacts(m0, zs, atomicNumbers[x.i]);
      TouchedFacts(m0, zs, atomicNumbers[x.j]);
      TouchedFacts(m0, zs, atomicNumbers[x.k]);
    }
  }

  /** Reading two sets of numbers one after the other is reading both. */
  lemma TouchedTwice(m0: map<int, int>, zs1: set<int>, zs2: set<int>)
    ensures Touched(Touched(m0, zs1), zs2) == Touched(m0, zs1 + zs2)
  {
    forall z ensures SpeciesIndex(Touched(m0, zs1), z) == SpeciesIndex(m0, z) {
      TouchedFacts(m0, zs1, z);
    }
  }
}
