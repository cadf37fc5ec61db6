/**
 * The atom pairs and triples that the MBTR k=2 and k=3 terms visit
 * (describe/libmbtr/cmbtr.cpp, getk2Indices and getk3Indices).  Atoms with an
 * index below `cellLimit` belong to the original cell; the others are periodic
 * copies, and only pairs and triples touching the original cell are kept.
 */
module MbtrIndices {

  /** `index2d` of cmbtr.h: a pair of atom indices (or of species indices). */
  datatype Index2 = Index2(i: int, j: int)

  /** `index3d` of cmbtr.h: a triple of atom indices (or of species indices). */
  datatype Index3 = Index3(i: int, j: int, k: int)

  /** Lexicographic order on pairs. */
  predicate Less2(a: Index2, b: Index2)
  {
    a.i < b.i || (a.i == b.i && a.j < b.j)
  }

  /** Lexicographic order on triples. */
  predicate Less3(a: Index3, b: Index3)
  {
    a.i < b.i || (a.i == b.i && (a.j < b.j || (a.j == b.j && a.k < b.k)))
  }

  /** Strictly increasing in lexicographic order (so also free of duplicates). */
  predicate Sorted2(s: seq<Index2>)
  {
    forall a, b :: 0 <= a < b < |s| ==> Less2(s[a], s[b])
  }

  predicate Sorted3(s: seq<Index3>)
  {
    forall a, b :: 0 <= a < b < |s| ==> Less3(s[a], s[b])
  }

  /** A pair getk2Indices keeps: i < j, both atoms exist, one lies in the original cell. */
  predicate IsK2Index(x: Index2, nAtoms: nat, cellLimit: int)
  {
    0 <= x.i < x.j < nAtoms && (x.i < cellLimit || x.j < cellLimit)
  }

  /**
   * A triple getk3Indices keeps: all three atoms exist and are pairwise
   * different, k > i (the angle ijk equals kji), and one of them lies in the
   * original cell.
   */
  predicate IsK3Index(x: Index3, nAtoms: nat, cellLimit: int)
  {
    && 0 <= x.i < nAtoms && 0 <= x.j < nAtoms && 0 <= x.k < nAtoms
    && x.j != x.i && x.k != x.j && x.k != x.i
    && x.k > x.i
    && (x.i < cellLimit || x.j < cellLimit || x.k < cellLimit)
  }

  /** `s` lists exactly the k=2 pairs, each once, in lexicographic order. */
  ghost predicate IsK2Enumeration(s: seq<Index2>, nAtoms: nat, cellLimit: int)
  {
    Sorted2(s) && forall x :: x in s <==> IsK2Index(x, nAtoms, cellLimit)
  }

  /** `s` lists exactly the k=3 triples, each once, in lexicographic order. */
  ghost predicate IsK3Enumeration(s: seq<Index3>, nAtoms: nat, cellLimit: int)
  {
    Sorted3(s) && forall x :: x in s <==> IsK3Index(x, nAtoms, cellLimit)
  }

  /** `a` followed by `b` is sorted when each part is and every element of `a` precedes every element of `b`. */
  lemma SortedAppend2(a: seq<Index2>, b: seq<Index2>)
    requires Sorted2(a) && Sorted2(b)
    requires forall x, y :: x in a && y in b ==> Less2(x, y)
    ensures Sorted2(a + b)
  {
    forall p, q | 0 <= p < q < |a + b| ensures Less2((a + b)[p], (a + b)[q]) {
      if p < |a| && |a| <= q {
        assert (a + b)[p] in a && (a + b)[q] in b;
      }
    }
  }

  lemma SortedAppend3(a: seq<Index3>, b: seq<Index3>)
    requires Sorted3(a) && Sorted3(b)
    requires forall x, y :: x in a && y in b ==> Less3(x, y)
    ensures Sorted3(a + b)
  {
    forall p, q | 0 <= p < q < |a + b| ensures Less3((a + b)[p], (a + b)[q]) {
      if p < |a| && |a| <= q {
        assert (a + b)[p] in a && (a + b)[q] in b;
      }
    }
  }

  /** The pairs the inner loop of getk2Indices appends in row `i` before reaching column `j`. */
  function Row2(nAtoms: nat, cellLimit: int, i: nat, j: nat): seq<Index2>
  {
    if j == 0 then []
    else if j - 1 > i && (i < cellLimit || j - 1 < cellLimit) then Row2(nAtoms, cellLimit, i, j - 1) + [Index2(i, j - 1)]
    else Row2(nAtoms, cellLimit, i, j - 1)
  }

  /** The pairs getk2Indices has appended once rows 0 .. i-1 are done. */
  function Rows2(nAtoms: nat, cellLimit: int, i: nat): seq<Index2>
  {
    if i == 0 then [] else Rows2(nAtoms, cellLimit, i - 1) + Row2(nAtoms, cellLimit, i - 1, nAtoms)
  }

  /** The list getk2Indices returns; its pairs name atoms that exist. */
  function K2Pairs(nAtoms: nat, cellLimit: int): (r: seq<Index2>)
    ensures forall x :: x in r ==> 0 <= x.i < nAtoms && 0 <= x.j < nAtoms
  {
    Rows2Enumerates(nAtoms, cellLimit, nAtoms);
    Rows2(nAtoms, cellLimit, nAtoms)
  }

  lemma {:induction false} Row2Enumerates(nAtoms: nat, cellLimit: int, i: nat, j: nat)
    requires i < nAtoms && j <= nAtoms
    ensures Sorted2(Row2(nAtoms, cellLimit, i, j))
    ensures forall x :: x in Row2(nAtoms, cellLimit, i, j) <==> IsK2Index(x, nAtoms, cellLimit) && x.i == i && x.j < j
  {
    if j > 0 {
      Row2Enumerates(nAtoms, cellLimit, i, j - 1);
      if j - 1 > i && (i < cellLimit || j - 1 < cellLimit) {
        SortedAppend2(Row2(nAtoms, cellLimit, i, j - 1), [Index2(i, j - 1)]);
      }
    }
  }

  lemma {:induction false} Rows2Enumerates(nAtoms: nat, cellLimit: int, i: nat)
    requires i <= nAtoms
    ensures Sorted2(Rows2(nAtoms, cellLimit, i))
    ensures forall x :: x in Rows2(nAtoms, cellLimit, i) <==> IsK2Index(x, nAtoms, cellLimit) && x.i < i
  {
    if i > 0 {
      Rows2Enumerates(nAtoms, cellLimit, i - 1);
      Row2Enumerates(nAtoms, cellLimit, i - 1, nAtoms);
      SortedAppend2(Rows2(nAtoms, cellLimit, i - 1), Row2(nAtoms, cellLimit, i - 1, nAtoms));
    }
  }

  /** getk2Indices lists exactly the k=2 pairs, each once, in lexicographic order. */
  lemma K2PairsEnumerate(nAtoms: nat, cellLimit: int)
    ensures IsK2Enumeration(K2Pairs(nAtoms, cellLimit), nAtoms, cellLimit)
  {
    Rows2Enumerates(nAtoms, cellLimit, nAtoms);
  }

  /** The triples the innermost loop of getk3Indices appends at (i, j) before reaching `k`. */
  function Cell3(nAtoms: nat, cellLimit: int, i: nat, j: nat, k: nat): seq<Index3>
  {
    if k == 0 then []
    else if (i < cellLimit || j < cellLimit || k - 1 < cellLimit) && j != i && k - 1 != j && k - 1 != i && k - 1 > i then
      Cell3(nAtoms, cellLimit, i, j, k - 1) + [Index3(i, j, k - 1)]
    else Cell3(nAtoms, cellLimit, i, j, k - 1)
  }

  /** The triples getk3Indices has appended in row `i` once the middle index has passed 0 .. j-1. */
  function Cols3(nAtoms: nat, cellLimit: int, i: nat, j: nat): seq<Index3>
  {
    if j == 0 then [] else Cols3(nAtoms, cellLimit, i, j - 1) + Cell3(nAtoms, cellLimit, i, j - 1, nAtoms)
  }

  /** The triples getk3Indices has appended once rows 0 .. i-1 are done. */
  function Rows3(nAtoms: nat, cellLimit: int, i: nat): seq<Index3>
  {
    if i == 0 then [] else Rows3(nAtoms, cellLimit, i - 1) + Cols3(nAtoms, cellLimit, i - 1, nAtoms)
  }

  /** The list getk3Indices returns; its triples name atoms that exist. */
  function K3Triples(nAtoms: nat, cellLimit: int): (r: seq<Index3>)
    ensures forall x :: x in r ==> 0 <= x.i < nAtoms && 0 <= x.j < nAtoms && 0 <= x.k < nAtoms
  {
    Rows3Enumerates(nAtoms, cellLimit, nAtoms);
    Rows3(nAtoms, cellLimit, nAtoms)
  }

  lemma {:induction false} Cell3Enumerates(nAtoms: nat, cellLimit: int, i: nat, j: nat, k: nat)
    requires i < nAtoms && j < nAtoms && k <= nAtoms
    ensures Sorted3(Cell3(nAtoms, cellLimit, i, j, k))
    ensures forall x :: x in Cell3(nAtoms, cellLimit, i, j, k) <==>
      IsK3Index(x, nAtoms, cellLimit) && x.i == i && x.j == j && x.k < k
  {
    if k > 0 {
      Cell3Enumerates(nAtoms, cellLimit, i, j, k - 1);
      if (i < cellLimit || j < cellLimit || k - 1 < cellLimit) && j != i && k - 1 != j && k - 1 != i && k - 1 > i {
        SortedAppend3(Cell3(nAtoms, cellLimit, i, j, k - 1), [Index3(i, j, k - 1)]);
      }
    }
  }

  lemma {:induction false} Cols3Enumerates(nAtoms: nat, cellLimit: int, i: nat, j: nat)
    requires i < nAtoms && j <= nAtoms
    ensures Sorted3(Cols3(nAtoms, cellLimit, i, j))
    ensures forall x :: x in Cols3(nAtoms, cellLimit, i, j) <==> IsK3Index(x, nAtoms, cellLimit) && x.i == i && x.j < j
  {
    if j > 0 {
      var a, b := Cols3(nAtoms, cellLimit, i, j - 1), Cell3(nAtoms, cellLimit, i, j - 1, nAtoms);
      Cols3Enumerates(nAtoms, cellLimit, i, j - 1);
      Cell3Enumerates(nAtoms, cellLimit, i, j - 1, nAtoms);
      assert forall x, y :: x in a && y in b ==> x.j < y.j;
      SortedAppend3(a, b);
    }
  }

  lemma {:induction false} Rows3Enumerates(nAtoms: nat, cellLimit: int, i: nat)
    requires i <= nAtoms
    ensures Sorted3(Rows3(nAtoms, cellLimit, i))
    ensures forall x :: x in Rows3(nAtoms, cellLimit, i) <==> IsK3Index(x, nAtoms, cellLimit) && x.i < i
  {
    if i > 0 {
      var a, b := Rows3(nAtoms, cellLimit, i - 1), Cols3(nAtoms, cellLimit, i - 1, nAtoms);
      Rows3Enumerates(nAtoms, cellLimit, i - 1);
      Cols3Enumerates(nAtoms, cellLimit, i - 1, nAtoms);
      assert Rows3(nAtoms, cellLimit, i) == a + b;
      forall x, y | x in a && y in b
        ensures Less3(x, y)
      {
        assert x.i < i - 1 == y.i;
      }
      SortedAppend3(a, b);
      forall x
        ensures x in a + b <==> IsK3Index(x, nAtoms, cellLimit) && x.i < i
      {
        assert x in a + b <==> x in a || x in b;
      }
    }
  }

  /** getk3Indices lists exactly the k=3 triples, each once, in lexicographic order. */
  lemma K3TriplesEnumerate(nAtoms: nat, cellLimit: int)
    ensures IsK3Enumeration(K3Triples(nAtoms, cellLimit), nAtoms, cellLimit)
  {
    Rows3Enumerates(nAtoms, cellLimit, nAtoms);
  }

  /** The nested loops of getk2Indices. */
  method EnumerateK2(nAtoms: nat, cellLimit: int) returns (indexList: seq<Index2>)
    ensures indexList == K2Pairs(nAtoms, cellLimit)
  {
    indexList := [];
    for i := 0 to nAtoms
      invariant indexList == Rows2(nAtoms, cellLimit, i)
    {
      for j := 0 to nAtoms
        invariant indexList == Rows2(nAtoms, cellLimit, i) + Row2(nAtoms, cellLimit, i, j)
      {
        if j > i {
          if i < cellLimit || j < cellLimit {
            indexList := indexList + [Index2(i, j)];
          }
        }
      }
    }
  }

  /** The nested loops of getk3Indices. */
  method EnumerateK3(nAtoms: nat, cellLimit: int) returns (indexList: seq<Index3>)
    ensures indexList == K3Triples(nAtoms, cellLimit)
  {
    indexList := [];
    for i := 0 to nAtoms
      invariant indexList == Rows3(nAtoms, cellLimit, i)
    {
      for j := 0 to nAtoms
        invariant indexList == Rows3(nAtoms, cellLimit, i) + Cols3(nAtoms, cellLimit, i, j)
      {
        for k := 0 to nAtoms
          invariant indexList ==
            Rows3(nAtoms, cellLimit, i) + Cols3(nAtoms, cellLimit, i, j) + Cell3(nAtoms, cellLimit, i, j, k)
        {
          if i < cellLimit || j < cellLimit || k < cellLimit {
            if j != i && k != j && k != i {
              if k > i {
                indexList := indexList + [Index3(i, j, k)];
              }
            }
          }
        }
      }
    }
  }

  /** The k=2 enumeration is determined by its two defining properties. */
  lemma {:induction false} K2EnumerationUnique(s: seq<Index2>, t: seq<Index2>, nAtoms: nat, cellLimit: int)
    requires IsK2Enumeration(s, nAtoms, cellLimit) && IsK2Enumeration(t, nAtoms, cellLimit)
    ensures s == t
  {
    SortedSameElements2(s, t);
  }

  /** The k=3 enumeration is determined by its two defining properties. */
  lemma {:induction false} K3EnumerationUnique(s: seq<Index3>, t: seq<Index3>, nAtoms: nat, cellLimit: int)
    requires IsK3Enumeration(s, nAtoms, cellLimit) && IsK3Enumeration(t, nAtoms, cellLimit)
    ensures s == t
  {
    SortedSameElements3(s, t);
  }

  lemma SortedHead2(s: seq<Index2>, x: Index2)
    requires Sorted2(s) && x in s
    ensures x == s[0] || Less2(s[0], x)
  {
  }

  lemma SortedTail2(s: seq<Index2>, x: Index2)
    requires Sorted2(s) && s != []
    ensures x in s[1..] <==> x in s && x != s[0]
  {
    assert s == [s[0]] + s[1..];
  }

  lemma {:induction false} SortedSameElements2(s: seq<Index2>, t: seq<Index2>)
    requires Sorted2(s) && Sorted2(t)
    requires forall x :: x in s <==> x in t
    ensures s == t
  {
    if s != [] { assert s[0] in t; }
    if t != [] { assert t[0] in s; }
    if s != [] && t != [] {
      SortedHead2(s, t[0]);
      SortedHead2(t, s[0]);
      forall x ensures x in s[1..] <==> x in t[1..] {
        SortedTail2(s, x);
        SortedTail2(t, x);
      }
      SortedSameElements2(s[1..], t[1..]);
      assert s == [s[0]] + s[1..];
      assert t == [t[0]] + t[1..];
    }
  }

  lemma SortedHead3(s: seq<Index3>, x: Index3)
    requires Sorted3(s) && x in s
    ensures x == s[0] || Less3(s[0], x)
  {
  }

  lemma SortedTail3(s: seq<Index3>, x: Index3)
    requires Sorted3(s) && s != []
    ensures x in s[1..] <==> x in s && x != s[0]
  {
    assert s == [s[0]] + s[1..];
  }

  lemma {:induction false} SortedSameElements3(s: seq<Index3>, t: seq<Index3>)
    requires Sorted3(s) && Sorted3(t)
    requires forall x :: x in s <==> x in t
    ensures s == t
  {
    if s != [] { assert s[0] in t; }
    if t != [] { assert t[0] in s; }
    if s != [] && t != [] {
      SortedHead3(s, t[0]);
      SortedHead3(t, s[0]);
      forall x ensures x in s[1..] <==> x in t[1..] {
        SortedTail3(s, x);
        SortedTail3(t, x);
      }
      SortedSameElements3(s[1..], t[1..]);
      assert s == [s[0]] + s[1..];
      assert t == [t[0]] + t[1..];
    }
  }
}
