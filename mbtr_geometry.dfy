/**
 * Geometry of the MBTR engine (describe/libmbtr/cmbtr.cpp): the displacement
 * tensor, the distance matrix, and the per-index geometry and weighting
 * values of the k=2 and k=3 terms.  Coordinates are reals; the floating-point
 * library calls the C++ code makes (sqrt, exp, and the divisions that give an
 * inverse distance or a cosine) are the functions of a `Numerics` value, about
 * which nothing is assumed.
 */
module MbtrGeometry {
  import opened MbtrIndices

  datatype Vec3 = Vec3(x: real, y: real, z: real)

  const Zero: Vec3 := Vec3(0.0, 0.0, 0.0)

  /** Componentwise a - b. */
  function Sub(a: Vec3, b: Vec3): Vec3
  {
    Vec3(a.x - b.x, a.y - b.y, a.z - b.z)
  }

  function Neg(a: Vec3): Vec3
  {
    Vec3(-a.x, -a.y, -a.z)
  }

  function Dot(a: Vec3, b: Vec3): real
  {
    a.x * b.x + a.y * b.y + a.z * b.z
  }

  /** The sum of the squared components, as accumulated with `pow(c, 2.0)`. */
  function NormSq(a: Vec3): real
  {
    a.x * a.x + a.y * a.y + a.z * a.z
  }

  /** The library functions: `sqrt`, `exp`, and floating-point division. */
  datatype Numerics = Numerics(sqrt: real -> real, exp: real -> real, div: (real, real) -> real)

  predicate IsSquare<T>(m: seq<seq<T>>, n: nat)
  {
    |m| == n && forall a :: 0 <= a < n ==> |m[a]| == n
  }

  /** Every pair's atom indices lie in [0, n). */
  predicate InRange2(indexList: seq<Index2>, n: nat)
  {
    forall x :: x in indexList ==> 0 <= x.i < n && 0 <= x.j < n
  }

  /** Every triple's atom indices lie in [0, n). */
  predicate InRange3(indexList: seq<Index3>, n: nat)
  {
    forall x :: x in indexList ==> 0 <= x.i < n && 0 <= x.j < n && 0 <= x.k < n
  }

  /** The displacement tensor: entry [a][b] is the vector from atom a to atom b. */
  function Displacements(positions: seq<Vec3>): (t: seq<seq<Vec3>>)
    ensures IsSquare(t, |positions|)
    ensures forall a, b :: 0 <= a < |positions| && 0 <= b < |positions| ==> t[a][b] == Neg(t[b][a])
    ensures forall a :: 0 <= a < |positions| ==> t[a][a] == Zero
  {
    seq(|positions|, a requires 0 <= a < |positions| =>
      seq(|positions|, b requires 0 <= b < |positions| => Sub(positions[b], positions[a])))
  }

  /**
   * Whether the loops of getDisplacementTensor and getDistanceMatrix, now at
   * (i, j), have already handled the cell (p, q) with p > q.
   */
  ghost predicate Handled(p: int, q: int, i: int, j: int)
  {
    p < i || (p == i && q < j)
  }

  /** The tensor cell (a, b) once the loops have reached (i, j). */
  ghost function TensorSoFar(positions: seq<Vec3>, i: int, j: int, a: nat, b: nat): Vec3
    requires a < |positions| && b < |positions|
  {
    if b < a && Handled(a, b, i, j) then Sub(positions[b], positions[a])
    else if a < b && Handled(b, a, i, j) then Neg(Sub(positions[a], positions[b]))
    else Zero
  }

  /** The loops of getDisplacementTensor: only i > j is computed; tensor[j][i] gets the negation. */
  method ComputeDisplacementTensor(positions: seq<Vec3>) returns (tensor: seq<seq<Vec3>>)
    ensures tensor == Displacements(positions)
  {
    var nAtoms := |positions|;
    tensor := seq(nAtoms, _ => seq(nAtoms, _ => Zero));
    for i := 0 to nAtoms
      invariant IsSquare(tensor, nAtoms)
      invariant forall a, b :: 0 <= a < nAtoms && 0 <= b < nAtoms ==>
        tensor[a][b] == TensorSoFar(positions, i, 0, a, b)
    {
      for j := 0 to nAtoms
        invariant IsSquare(tensor, nAtoms)
        invariant forall a, b :: 0 <= a < nAtoms && 0 <= b < nAtoms ==>
          tensor[a][b] == TensorSoFar(positions, i, j, a, b)
      {
        if i <= j {
          continue;
        }
        var diff := Sub(positions[j], positions[i]);
        var negDiff := Neg(diff);
        ghost var before := tensor;
        tensor := tensor[i := tensor[i][j := diff]];
        tensor := tensor[j := tensor[j][i := negDiff]];
        forall a, b | 0 <= a < nAtoms && 0 <= b < nAtoms
          ensures tensor[a][b] == TensorSoFar(positions, i, j + 1, a, b)
        {
          if (a, b) != (i, j) && (a, b) != (j, i) {
            assert tensor[a][b] == before[a][b];
          }
        }
      }
    }
    forall a | 0 <= a < nAtoms
      ensures tensor[a] == Displacements(positions)[a]
    {
    }
  }

  /**
   * The distance matrix: zero on the diagonal, and off it the square root of
   * the squared length of the tensor cell below the diagonal.
   */
  function Distances(num: Numerics, positions: seq<Vec3>): (d: seq<seq<real>>)
    ensures IsSquare(d, |positions|)
    ensures forall a, b :: 0 <= a < |positions| && 0 <= b < |positions| ==> d[a][b] == d[b][a]
    ensures forall a :: 0 <= a < |positions| ==> d[a][a] == 0.0
  {
    var n := |positions|;
    seq(n, a requires 0 <= a < n =>
      seq(n, b requires 0 <= b < n =>
        if b < a then num.sqrt(NormSq(Sub(positions[b], positions[a])))
        else if a < b then num.sqrt(NormSq(Sub(positions[a], positions[b])))
        else 0.0))
  }

  lemma NormSqSwap(u: Vec3, v: Vec3)
    ensures NormSq(Sub(u, v)) == NormSq(Sub(v, u))
  {
    assert (u.x - v.x) * (u.x - v.x) == (v.x - u.x) * (v.x - u.x);
    assert (u.y - v.y) * (u.y - v.y) == (v.y - u.y) * (v.y - u.y);
    assert (u.z - v.z) * (u.z - v.z) == (v.z - u.z) * (v.z - u.z);
  }

  /** Off the diagonal, the matrix holds (the library's square root of) the squared distance. */
  lemma DistanceIsLength(num: Numerics, positions: seq<Vec3>, a: nat, b: nat)
    requires a < |positions| && b < |positions| && a != b
    ensures Distances(num, positions)[a][b] == num.sqrt(NormSq(Sub(positions[a], positions[b])))
  {
    NormSqSwap(positions[a], positions[b]);
  }

  /** The distance matrix cell (a, b) once the loops have reached (i, j). */
  ghost function DistanceSoFar(num: Numerics, tensor: seq<seq<Vec3>>, i: int, j: int, a: nat, b: nat): real
    requires IsSquare(tensor, |tensor|) && a < |tensor| && b < |tensor|
  {
    if b < a && Handled(a, b, i, j) then num.sqrt(NormSq(tensor[a][b]))
    else if a < b && Handled(b, a, i, j) then num.sqrt(NormSq(tensor[b][a]))
    else 0.0
  }

  /** The loops of getDistanceMatrix, reading the displacement tensor. */
  method ComputeDistanceMatrix(num: Numerics, positions: seq<Vec3>, tensor: seq<seq<Vec3>>)
    returns (distanceMatrix: seq<seq<real>>)
    requires tensor == Displacements(positions)
    ensures distanceMatrix == Distances(num, positions)
  {
    var nAtoms := |positions|;
    distanceMatrix := seq(nAtoms, _ => seq(nAtoms, _ => 0.0));
    for i := 0 to nAtoms
      invariant IsSquare(distanceMatrix, nAtoms)
      invariant forall a, b :: 0 <= a < nAtoms && 0 <= b < nAtoms ==>
        distanceMatrix[a][b] == DistanceSoFar(num, tensor, i, 0, a, b)
    {
      for j := 0 to nAtoms
        invariant IsSquare(distanceMatrix, nAtoms)
        invariant forall a, b :: 0 <= a < nAtoms && 0 <= b < nAtoms ==>
          distanceMatrix[a][b] == DistanceSoFar(num, tensor, i, j, a, b)
      {
        if i <= j {
          continue;
        }
        var norm := num.sqrt(NormSq(tensor[i][j]));
        ghost var before := distanceMatrix;
        distanceMatrix := distanceMatrix[i := distanceMatrix[i][j := norm]];
        distanceMatrix := distanceMatrix[j := distanceMatrix[j][i := norm]];
        forall a, b | 0 <= a < nAtoms && 0 <= b < nAtoms
          ensures distanceMatrix[a][b] == DistanceSoFar(num, tensor, i, j + 1, a, b)
        {
          if (a, b) != (i, j) && (a, b) != (j, i) {
            assert distanceMatrix[a][b] == before[a][b];
          }
        }
      }
    }
    forall a | 0 <= a < nAtoms
      ensures distanceMatrix[a] == Distances(num, positions)[a]
    {
    }
  }

  // ---------------------------------------------------------------------
  // Per-index geometry and weighting values.  Each maps an index to one
  // float; a value map holds an entry for an index exactly when the C++
  // function stores one.
  // ---------------------------------------------------------------------

  /** k2GeomInverseDistance: 1/distance for every pair. */
  function InverseDistanceMap(num: Numerics, dist: seq<seq<real>>, indexList: seq<Index2>): map<Index2, real>
    requires IsSquare(dist, |dist|) && InRange2(indexList, |dist|)
  {
    map x | x in indexList :: num.div(1.0, dist[x.i][x.j])
  }

  /** cos of the angle at atom j: (r_ij . r_kj) / (d_ij * d_kj), using the displacement tensor. */
  function Cosine(num: Numerics, tensor: seq<seq<Vec3>>, dist: seq<seq<real>>, x: Index3): real
    requires IsSquare(dist, |dist|) && IsSquare(tensor, |dist|)
    requires 0 <= x.i < |dist| && 0 <= x.j < |dist| && 0 <= x.k < |dist|
  {
    num.div(Dot(tensor[x.i][x.j], tensor[x.k][x.j]), dist[x.i][x.j] * dist[x.k][x.j])
  }

  /** k3GeomCosine: the cosine of the angle at atom j between the vectors to i and to k. */
  function CosineMap(num: Numerics, tensor: seq<seq<Vec3>>, dist: seq<seq<real>>, indexList: seq<Index3>)
    : map<Index3, real>
    requires IsSquare(dist, |dist|) && IsSquare(tensor, |dist|) && InRange3(indexList, |dist|)
  {
    map x | x in indexList :: Cosine(num, tensor, dist, x)
  }

  /** k2WeightUnity: weight 1 for every pair. */
  function UnityMap2(indexList: seq<Index2>): map<Index2, real>
  {
    map x | x in indexList :: 1.0
  }

  /** k3WeightUnity: weight 1 for every triple. */
  function UnityMap3(indexList: seq<Index3>): map<Index3, real>
  {
    map x | x in indexList :: 1.0
  }

  /** The k=2 exponential weight exp(-scale * d_ij). */
  function ExpWeight2(num: Numerics, dist: seq<seq<real>>, x: Index2, scale: real): real
    requires IsSquare(dist, |dist|) && 0 <= x.i < |dist| && 0 <= x.j < |dist|
  {
    num.exp(-scale * dist[x.i][x.j])
  }

  /** The k=3 exponential weight exp(-scale * (d_ij + d_jk + d_ki)). */
  function ExpWeight3(num: Numerics, dist: seq<seq<real>>, x: Index3, scale: real): real
    requires IsSquare(dist, |dist|) && 0 <= x.i < |dist| && 0 <= x.j < |dist| && 0 <= x.k < |dist|
  {
    num.exp(-scale * (dist[x.i][x.j] + dist[x.j][x.k] + dist[x.k][x.i]))
  }

  /** k2WeightExponential: only the pairs whose weight is at most `cutoff` get an entry. */
  function ExponentialMap2(num: Numerics, dist: seq<seq<real>>, indexList: seq<Index2>, scale: real, cutoff: real)
    : map<Index2, real>
    requires IsSquare(dist, |dist|) && InRange2(indexList, |dist|)
  {
    map x | x in indexList && ExpWeight2(num, dist, x, scale) <= cutoff :: ExpWeight2(num, dist, x, scale)
  }

  /** k3WeightExponential: only the triples whose weight is at most `cutoff` get an entry. */
  function ExponentialMap3(num: Numerics, dist: seq<seq<real>>, indexList: seq<Index3>, scale: real, cutoff: real)
    : map<Index3, real>
    requires IsSquare(dist, |dist|) && InRange3(indexList, |dist|)
  {
    map x | x in indexList && ExpWeight3(num, dist, x, scale) <= cutoff :: ExpWeight3(num, dist, x, scale)
  }

  /** Appending one pair extends the exponential map by that pair exactly when its weight passes. */
  lemma ExponentialMap2Snoc(num: Numerics, dist: seq<seq<real>>, l: seq<Index2>, x: Index2, scale: real, cutoff: real)
    requires IsSquare(dist, |dist|) && InRange2(l + [x], |dist|)
    ensures ExponentialMap2(num, dist, l + [x], scale, cutoff)
      == if ExpWeight2(num, dist, x, scale) <= cutoff
         then ExponentialMap2(num, dist, l, scale, cutoff)[x := ExpWeight2(num, dist, x, scale)]
         else ExponentialMap2(num, dist, l, scale, cutoff)
  {
    assert forall y :: y in l + [x] <==> y in l || y == x;
  }

  /** Appending one triple extends the exponential map by that triple exactly when its weight passes. */
  lemma ExponentialMap3Snoc(num: Numerics, dist: seq<seq<real>>, l: seq<Index3>, x: Index3, scale: real, cutoff: real)
    requires IsSquare(dist, |dist|) && InRange3(l + [x], |dist|)
    ensures ExponentialMap3(num, dist, l + [x], scale, cutoff)
      == if ExpWeight3(num, dist, x, scale) <= cutoff
         then ExponentialMap3(num, dist, l, scale, cutoff)[x := ExpWeight3(num, dist, x, scale)]
         else ExponentialMap3(num, dist, l, scale, cutoff)
  {
    assert forall y :: y in l + [x] <==> y in l || y == x;
  }

  /** The loop of k2GeomInverseDistance. */
  method K2GeomInverseDistanceLoop(num: Numerics, dist: seq<seq<real>>, indexList: seq<Index2>)
    returns (valueMap: map<Index2, real>)
    requires IsSquare(dist, |dist|) && InRange2(indexList, |dist|)
    ensures valueMap == InverseDistanceMap(num, dist, indexList)
  {
    valueMap := map[];
    for t := 0 to |indexList|
      invariant valueMap == InverseDistanceMap(num, dist, indexList[..t])
    {
      var index := indexList[t];
      var invDist := num.div(1.0, dist[index.i][index.j]);
      assert indexList[..t + 1] == indexList[..t] + [index];
      valueMap := valueMap[index := invDist];
    }
    assert indexList[..|indexList|] == indexList;
  }

  /** The loop of k3GeomCosine. */
  method K3GeomCosineLoop(num: Numerics, tensor: seq<seq<Vec3>>, dist: seq<seq<real>>, indexList: seq<Index3>)
    returns (valueMap: map<Index3, real>)
    requires IsSquare(dist, |dist|) && IsSquare(tensor, |dist|) && InRange3(indexList, |dist|)
    ensures valueMap == CosineMap(num, tensor, dist, indexList)
  {
    valueMap := map[];
    for t := 0 to |indexList|
      invariant valueMap == CosineMap(num, tensor, dist, indexList[..t])
    {
      var index := indexList[t];
      var cosine := Cosine(num, tensor, dist, index);
      assert indexList[..t + 1] == indexList[..t] + [index];
      valueMap := valueMap[index := cosine];
    }
    assert indexList[..|indexList|] == indexList;
  }

  /** k2WeightUnity */
  method K2WeightUnity(indexList: seq<Index2>) returns (valueMap: map<Index2, real>)
    ensures valueMap == UnityMap2(indexList)
  {
    valueMap := map[];
    for t := 0 to |indexList|
      invariant valueMap == UnityMap2(indexList[..t])
    {
      assert indexList[..t + 1] == indexList[..t] + [indexList[t]];
      valueMap := valueMap[indexList[t] := 1.0];
    }
    assert indexList[..|indexList|] == indexList;
  }

  /** k3WeightUnity */
  method K3WeightUnity(indexList: seq<Index3>) returns (valueMap: map<Index3, real>)
    ensures valueMap == UnityMap3(indexList)
  {
    valueMap := map[];
    for t := 0 to |indexList|
      invariant valueMap == UnityMap3(indexList[..t])
    {
      assert indexList[..t + 1] == indexList[..t] + [indexList[t]];
      valueMap := valueMap[indexList[t] := 1.0];
    }
    assert indexList[..|indexList|] == indexList;
  }

  /** The loop of k2WeightExponential. */
  method K2WeightExponentialLoop(num: Numerics, dist: seq<seq<real>>, indexList: seq<Index2>, scale: real, cutoff: real)
    returns (valueMap: map<Index2, real>)
    requires IsSquare(dist, |dist|) && InRange2(indexList, |dist|)
    ensures valueMap == ExponentialMap2(num, dist, indexList, scale, cutoff)
  {
    valueMap := map[];
    for t := 0 to |indexList|
      invariant valueMap == ExponentialMap2(num, dist, indexList[..t], scale, cutoff)
    {
      var index := indexList[t];
      var expValue := ExpWeight2(num, dist, index, scale);
      assert indexList[..t + 1] == indexList[..t] + [index];
      ExponentialMap2Snoc(num, dist, indexList[..t], index, scale, cutoff);
      if expValue <= cutoff {
        valueMap := valueMap[index := expValue];
      }
    }
    assert indexList[..|indexList|] == indexList;
  }

  /** The loop of k3WeightExponential. */
  method K3WeightExponentialLoop(num: Numerics, dist: seq<seq<real>>, indexList: seq<Index3>, scale: real, cutoff: real)
    returns (valueMap: map<Index3, real>)
    requires IsSquare(dist, |dist|) && InRange3(indexList, |dist|)
    ensures valueMap == ExponentialMap3(num, dist, indexList, scale, cutoff)
  {
    valueMap := map[];
    for t := 0 to |indexList|
      invariant valueMap == ExponentialMap3(num, dist, indexList[..t], scale, cutoff)
    {
      var index := indexList[t];
      var expValue := ExpWeight3(num, dist, index, scale);
      assert indexList[..t + 1] == indexList[..t] + [index];
      ExponentialMap3Snoc(num, dist, indexList[..t], index, scale, cutoff);
      if expValue <= cutoff {
        valueMap := valueMap[index := expValue];
      }
    }
    assert indexList[..|indexList|] == indexList;
  }
}
