/**
 * _format_ase2clusgeo of dscribe/descriptors/soaplite.py: the atoms of a
 * structure regrouped by species for the native SOAP kernel.  The species
 * (the given `all_atomtypes`, or those present) are sorted ascending; for
 * each, the positions of its atoms are taken in structure order and counted;
 * the position blocks are concatenated and flattened to x, y, z triples.
 */
module SoapMarshal {
  import opened Wrappers
  import opened MbtrGeometry

  /** One atom of an ase Atoms object: its atomic number and its position. */
  datatype Atom = Atom(number: int, position: Vec3)

  /** What the kernel is given: Apos, typeNs, Ntypes, atomtype_lst and totalAN. */
  datatype ClusGeo = ClusGeo(apos: seq<real>, typeNs: seq<nat>, ntypes: nat, atomtypes: seq<int>, totalAN: nat)

  predicate StrictlyIncreasing(s: seq<int>)
  {
    forall a, b :: 0 <= a < b < |s| ==> s[a] < s[b]
  }

  /** obj.get_atomic_numbers() */
  function Numbers(atoms: seq<Atom>): (r: seq<int>)
    ensures |r| == |atoms| && forall i :: 0 <= i < |atoms| ==> r[i] == atoms[i].number
  {
    seq(|atoms|, i requires 0 <= i < |atoms| => atoms[i].number)
  }

  /** The species to list, before set(): all_atomtypes when given, else the species present. */
  function Universe(atoms: seq<Atom>, allAtomtypes: Option<seq<int>>): seq<int>
  {
    match allAtomtypes
    case Some(types) => types
    case None => Numbers(atoms)
  }

  /** `x` put into the ascending distinct list `s`, unless already there. */
  function Insert(s: seq<int>, x: int): seq<int>
  {
    if s == [] then [x]
    else if x < s[0] then [x] + s
    else if x == s[0] then s
    else [s[0]] + Insert(s[1..], x)
  }

  /** np.sort(list(set(xs))) */
  function SortedDistinct(xs: seq<int>): seq<int>
  {
    if xs == [] then [] else Insert(SortedDistinct(xs[..|xs| - 1]), xs[|xs| - 1])
  }

  lemma HeadIsLeast(s: seq<int>, z: int)
    requires StrictlyIncreasing(s) && z in s
    ensures s[0] <= z
  {
    var b :| 0 <= b < |s| && s[b] == z;
    assert b == 0 || s[0] < s[b];
  }

  lemma TailIncreasing(s: seq<int>)
    requires StrictlyIncreasing(s) && s != []
    ensures StrictlyIncreasing(s[1..])
  {
    forall a, b | 0 <= a < b < |s[1..]|
      ensures s[1..][a] < s[1..][b]
    {
      assert s[1..][a] == s[a + 1] && s[1..][b] == s[b + 1];
    }
  }

  lemma {:induction false} InsertMembers(s: seq<int>, x: int)
    ensures forall z :: z in Insert(s, x) <==> z in s || z == x
  {
    if s != [] && x > s[0] {
      InsertMembers(s[1..], x);
      assert s == [s[0]] + s[1..];
    }
  }

  lemma {:induction false} InsertIncreasing(s: seq<int>, x: int)
    requires StrictlyIncreasing(s)
    ensures StrictlyIncreasing(Insert(s, x))
  {
    if s != [] && x > s[0] {
      var r := Insert(s[1..], x);
      TailIncreasing(s);
      InsertIncreasing(s[1..], x);
      InsertMembers(s[1..], x);
      forall b | 0 <= b < |r|
        ensures s[0] < r[b]
      {
        assert r[b] in r;
        if r[b] != x {
          var c :| 0 <= c < |s[1..]| && s[1..][c] == r[b];
          assert s[c + 1] == r[b];
        }
      }
      var q := [s[0]] + r;
      forall a, b | 0 <= a < b < |q|
        ensures q[a] < q[b]
      {
        assert q[b] == r[b - 1];
        if a > 0 {
          assert q[a] == r[a - 1];
        }
      }
      assert Insert(s, x) == q;
    }
  }

  lemma InsertSpec(s: seq<int>, x: int)
    requires StrictlyIncreasing(s)
    ensures StrictlyIncreasing(Insert(s, x))
    ensures forall z :: z in Insert(s, x) <==> z in s || z == x
  {
    InsertMembers(s, x);
    InsertIncreasing(s, x);
  }

  /** The ascending listing is ascending, distinct and lists the given species. */
  lemma {:induction false} SortedDistinctSpec(xs: seq<int>)
    ensures StrictlyIncreasing(SortedDistinct(xs))
    ensures forall z :: z in SortedDistinct(xs) <==> z in xs
  {
    if xs != [] {
      var n := |xs| - 1;
      SortedDistinctSpec(xs[..n]);
      InsertSpec(SortedDistinct(xs[..n]), xs[n]);
      assert xs == xs[..n] + [xs[n]];
    }
  }

  /** Two ascending distinct listings of the same elements are equal. */
  lemma {:induction false} IncreasingUnique(r: seq<int>, q: seq<int>)
    requires StrictlyIncreasing(r) && StrictlyIncreasing(q)
    requires forall z :: z in r <==> z in q
    ensures r == q
    decreases |r|
  {
    if r != [] {
      assert r[0] in r;
      assert q != [];
      assert q[0] in q;
      HeadIsLeast(r, q[0]);
      HeadIsLeast(q, r[0]);
      TailIncreasing(r);
      TailIncreasing(q);
      forall z
        ensures z in r[1..] <==> z in q[1..]
      {
        if z in r[1..] {
          var b :| 0 <= b < |r[1..]| && r[1..][b] == z;
          assert r[b + 1] == z && r[0] < z && z in q;
          assert z != q[0];
          assert q == [q[0]] + q[1..];
        }
        if z in q[1..] {
          var b :| 0 <= b < |q[1..]| && q[1..][b] == z;
          assert q[b + 1] == z && q[0] < z && z in r;
          assert z != r[0];
          assert r == [r[0]] + r[1..];
        }
      }
      IncreasingUnique(r[1..], q[1..]);
      assert r == [r[0]] + r[1..] && q == [q[0]] + q[1..];
    } else {
      HeadIn(q);
    }
  }

  lemma HeadIn(q: seq<int>)
    ensures q == [] || q[0] in q
  {
  }

  /** The listing is np.sort's: any ascending distinct listing of the species is it. */
  lemma SortedDistinctUnique(xs: seq<int>, r: seq<int>)
    requires StrictlyIncreasing(r) && forall z :: z in r <==> z in xs
    ensures r == SortedDistinct(xs)
  {
    SortedDistinctSpec(xs);
    IncreasingUnique(r, SortedDistinct(xs));
  }

  /** The indices of the atoms of species `z`, in structure order. */
  function Where(atoms: seq<Atom>, z: int): seq<nat>
  {
    if atoms == [] then []
    else
      var n := |atoms| - 1;
      Where(atoms[..n], z) + (if atoms[n].number == z then [n] else [])
  }

  lemma {:induction false} WhereMember(atoms: seq<Atom>, z: int, k: nat)
    requires k < |Where(atoms, z)|
    ensures Where(atoms, z)[k] < |atoms| && atoms[Where(atoms, z)[k]].number == z
  {
    var n := |atoms| - 1;
    if k < |Where(atoms[..n], z)| {
      WhereMember(atoms[..n], z, k);
      assert atoms[..n][Where(atoms[..n], z)[k]] == atoms[Where(atoms[..n], z)[k]];
    }
  }

  lemma {:induction false} WhereBelow(atoms: seq<Atom>, z: int, k: nat)
    requires k < |Where(atoms, z)|
    ensures Where(atoms, z)[k] < |atoms|
  {
    WhereMember(atoms, z, k);
  }

  lemma {:induction false} WhereIncreasing(atoms: seq<Atom>, z: int)
    ensures StrictlyIncreasing(Where(atoms, z))
  {
    if atoms != [] {
      var n := |atoms| - 1;
      var w := Where(atoms[..n], z);
      WhereIncreasing(atoms[..n], z);
      forall k | 0 <= k < |w|
        ensures w[k] < n
      {
        WhereBelow(atoms[..n], z, k);
      }
    }
  }

  lemma {:induction false} WhereComplete(atoms: seq<Atom>, z: int, i: nat)
    requires i < |atoms| && atoms[i].number == z
    ensures i in Where(atoms, z)
  {
    var n := |atoms| - 1;
    if i < n {
      assert atoms[..n][i] == atoms[i];
      WhereComplete(atoms[..n], z, i);
    }
  }

  /** Where lists exactly the atoms of species `z`, each once, ascending. */
  lemma WhereExact(atoms: seq<Atom>, z: int)
    ensures forall k :: 0 <= k < |Where(atoms, z)| ==>
      Where(atoms, z)[k] < |atoms| && atoms[Where(atoms, z)[k]].number == z
    ensures StrictlyIncreasing(Where(atoms, z))
    ensures forall i :: 0 <= i < |atoms| && atoms[i].number == z ==> i in Where(atoms, z)
  {
    forall k | 0 <= k < |Where(atoms, z)|
      ensures Where(atoms, z)[k] < |atoms| && atoms[Where(atoms, z)[k]].number == z
    {
      WhereMember(atoms, z, k);
    }
    WhereIncreasing(atoms, z);
    forall i | 0 <= i < |atoms| && atoms[i].number == z
      ensures i in Where(atoms, z)
    {
      WhereComplete(atoms, z, i);
    }
  }

  /** obj.get_positions()[obj.get_atomic_numbers() == z] */
  function Block(atoms: seq<Atom>, z: int): seq<Vec3>
  {
    if atoms == [] then []
    else
      var n := |atoms| - 1;
      Block(atoms[..n], z) + (if atoms[n].number == z then [atoms[n].position] else [])
  }

  lemma {:induction false} BlockLength(atoms: seq<Atom>, z: int)
    ensures |Block(atoms, z)| == |Where(atoms, z)|
  {
    if atoms != [] {
      BlockLength(atoms[..|atoms| - 1], z);
    }
  }

  /**
   * The block of species `z` holds the positions of its atoms in structure
   * order: its k-th entry is the position of the k-th atom of that species.
   */
  lemma {:induction false} BlockInOrder(atoms: seq<Atom>, z: int, k: nat)
    requires k < |Where(atoms, z)|
    ensures |Block(atoms, z)| == |Where(atoms, z)|
    ensures Where(atoms, z)[k] < |atoms| && Block(atoms, z)[k] == atoms[Where(atoms, z)[k]].position
  {
    var n := |atoms| - 1;
    BlockLength(atoms, z);
    BlockLength(atoms[..n], z);
    if k < |Where(atoms[..n], z)| {
      BlockInOrder(atoms[..n], z, k);
      assert atoms[..n][Where(atoms[..n], z)[k]] == atoms[Where(atoms[..n], z)[k]];
    }
  }

  function Concat(blocks: seq<seq<Vec3>>): (r: seq<Vec3>)
  {
    if blocks == [] then [] else Concat(blocks[..|blocks| - 1]) + blocks[|blocks| - 1]
  }

  /** .ravel() of an (n, 3) array: one x, y, z triple per row. */
  function Ravel(ps: seq<Vec3>): (r: seq<real>)
  {
    if ps == [] then [] else Ravel(ps[..|ps| - 1]) + [ps[|ps| - 1].x, ps[|ps| - 1].y, ps[|ps| - 1].z]
  }

  function Sum(ns: seq<nat>): nat
  {
    if ns == [] then 0 else Sum(ns[..|ns| - 1]) + ns[|ns| - 1]
  }

  /** The blocks of the species, one per species, in the species' order. */
  function Blocks(atoms: seq<Atom>, species: seq<int>): seq<seq<Vec3>>
  {
    seq(|species|, t requires 0 <= t < |species| => Block(atoms, species[t]))
  }

  function Lengths(blocks: seq<seq<Vec3>>): seq<nat>
  {
    seq(|blocks|, t requires 0 <= t < |blocks| => |blocks[t]|)
  }

  /**
   * What _format_ase2clusgeo returns; with no species at all,
   * np.concatenate of the empty list raises.
   */
  function ClusGeoOf(atoms: seq<Atom>, allAtomtypes: Option<seq<int>>): Result<ClusGeo, string>
  {
    var species := SortedDistinct(Universe(atoms, allAtomtypes));
    var blocks := Blocks(atoms, species);
    if species == [] then Failure("need at least one array to concatenate")
    else Success(ClusGeo(Ravel(Concat(blocks)), Lengths(blocks), |species|, species, |atoms|))
  }

  /** The loop of _format_ase2clusgeo over the sorted species, then the concatenation. */
  method FormatAse2Clusgeo(atoms: seq<Atom>, allAtomtypes: Option<seq<int>>) returns (r: Result<ClusGeo, string>)
    ensures r == ClusGeoOf(atoms, allAtomtypes)
  {
    var totalAN := |atoms|;
    var atomtypeList := SortedDistinct(Universe(atoms, allAtomtypes));
    var nAtomsPerType: seq<nat> := [];
    var posList: seq<seq<Vec3>> := [];
    for t := 0 to |atomtypeList|
      invariant posList == Blocks(atoms, atomtypeList[..t])
      invariant nAtomsPerType == Lengths(posList)
    {
      var posOnetype := Block(atoms, atomtypeList[t]);
      var nOnetype := |posOnetype|;
      posList := posList + [posOnetype];
      nAtomsPerType := nAtomsPerType + [nOnetype];
      assert atomtypeList[..t + 1] == atomtypeList[..t] + [atomtypeList[t]];
    }
    assert atomtypeList[..|atomtypeList|] == atomtypeList;
    if posList == [] {
      return Failure("need at least one array to concatenate");
    }
    var apos := Ravel(Concat(posList));
    r := Success(ClusGeo(apos, nAtomsPerType, |nAtomsPerType|, atomtypeList, totalAN));
  }

  // ---------------------------------------------------------------------
  // Properties
  // ---------------------------------------------------------------------

  /**
   * The species list is ascending and distinct and lists exactly the
   * universe; the counts align with it one to one, each the number of atoms
   * of that species; totalAN is the number of atoms.  The call fails exactly
   * when the universe is empty.
   */
  lemma FormatSpecies(atoms: seq<Atom>, allAtomtypes: Option<seq<int>>)
    ensures ClusGeoOf(atoms, allAtomtypes).Failure? <==> Universe(atoms, allAtomtypes) == []
    ensures var r := ClusGeoOf(atoms, allAtomtypes);
      r.Success? ==>
        && StrictlyIncreasing(r.value.atomtypes)
        && (forall z :: z in r.value.atomtypes <==> z in Universe(atoms, allAtomtypes))
        && r.value.ntypes == |r.value.atomtypes| == |r.value.typeNs|
        && (forall t :: 0 <= t < |r.value.typeNs| ==> r.value.typeNs[t] == |Where(atoms, r.value.atomtypes[t])|)
        && r.value.totalAN == |atoms|
  {
    var u := Universe(atoms, allAtomtypes);
    var species := SortedDistinct(u);
    SortedDistinctSpec(u);
    if u != [] {
      var y := u[0];
      assert y in u;
      assert y in species;
    }
    forall t | 0 <= t < |species|
      ensures |Block(atoms, species[t])| == |Where(atoms, species[t])|
    {
      BlockLength(atoms, species[t]);
    }
  }

  lemma {:induction false} RavelLength(ps: seq<Vec3>)
    ensures |Ravel(ps)| == 3 * |ps|
  {
    if ps != [] {
      RavelLength(ps[..|ps| - 1]);
    }
  }

  lemma {:induction false} ConcatLength(blocks: seq<seq<Vec3>>)
    ensures |Concat(blocks)| == Sum(Lengths(blocks))
  {
    if blocks != [] {
      var n := |blocks| - 1;
      ConcatLength(blocks[..n]);
      assert Lengths(blocks)[..n] == Lengths(blocks[..n]);
    }
  }

  /** Apos holds three coordinates per counted atom. */
  lemma AposLength(atoms: seq<Atom>, allAtomtypes: Option<seq<int>>)
    requires ClusGeoOf(atoms, allAtomtypes).Success?
    ensures var g := ClusGeoOf(atoms, allAtomtypes).value;
      |g.apos| == 3 * Sum(g.typeNs)
  {
    var blocks := Blocks(atoms, SortedDistinct(Universe(atoms, allAtomtypes)));
    ConcatLength(blocks);
    RavelLength(Concat(blocks));
  }

  /** The i-th position of a concatenation lies at the offset of its block. */
  lemma {:induction false} ConcatAt(blocks: seq<seq<Vec3>>, t: nat, u: nat)
    requires t < |blocks| && u < |blocks[t]|
    ensures Sum(Lengths(blocks[..t])) + u < |Concat(blocks)|
    ensures Concat(blocks)[Sum(Lengths(blocks[..t])) + u] == blocks[t][u]
  {
    var n := |blocks| - 1;
    assert blocks[..n][..t] == blocks[..t] by {
      if t < n {
        assert blocks[..n][..t] == blocks[..t];
      }
    }
    if t < n {
      ConcatAt(blocks[..n], t, u);
    } else {
      ConcatLength(blocks[..n]);
      assert blocks[..t] == blocks[..n];
    }
  }

  /** Coordinates of the i-th position sit at 3i, 3i+1 and 3i+2 of the ravelled array. */
  lemma {:induction false} RavelAt(ps: seq<Vec3>, i: nat)
    requires i < |ps|
    ensures 3 * i + 2 < |Ravel(ps)|
    ensures Ravel(ps)[3 * i] == ps[i].x && Ravel(ps)[3 * i + 1] == ps[i].y && Ravel(ps)[3 * i + 2] == ps[i].z
  {
    var n := |ps| - 1;
    RavelLength(ps[..n]);
    if i < n {
      RavelAt(ps[..n], i);
    }
  }

  /**
   * The layout of Apos: the u-th atom (in structure order) of the t-th
   * species (in ascending order) has its coordinates right after the atoms
   * of the smaller species.
   */
  lemma AposLayout(atoms: seq<Atom>, allAtomtypes: Option<seq<int>>, t: nat, u: nat)
    requires ClusGeoOf(atoms, allAtomtypes).Success?
    requires var g := ClusGeoOf(atoms, allAtomtypes).value;
      t < g.ntypes && u < g.typeNs[t]
    ensures var g := ClusGeoOf(atoms, allAtomtypes).value;
      && u < |Where(atoms, g.atomtypes[t])|
      && var i := Where(atoms, g.atomtypes[t])[u];
         var at := 3 * (Sum(g.typeNs[..t]) + u);
         && i < |atoms| && atoms[i].number == g.atomtypes[t]
         && at + 2 < |g.apos|
         && g.apos[at] == atoms[i].position.x
         && g.apos[at + 1] == atoms[i].position.y
         && g.apos[at + 2] == atoms[i].position.z
  {
    var species := SortedDistinct(Universe(atoms, allAtomtypes));
    var blocks := Blocks(atoms, species);
    var g := ClusGeoOf(atoms, allAtomtypes).value;
    assert g == ClusGeo(Ravel(Concat(blocks)), Lengths(blocks), |species|, species, |atoms|);
    var z := species[t];
    assert blocks[t] == Block(atoms, z);
    BlockLength(atoms, z);
    BlockInOrder(atoms, z, u);
    WhereMember(atoms, z, u);
    assert g.typeNs[..t] == Lengths(blocks[..t]);
    ConcatAt(blocks, t, u);
    RavelAt(Concat(blocks), Sum(Lengths(blocks[..t])) + u);
  }

  /** The number of atoms whose species is in `u`. */
  function Covered(atoms: seq<Atom>, u: seq<int>): nat
  {
    if atoms == [] then 0
    else Covered(atoms[..|atoms| - 1], u) + (if atoms[|atoms| - 1].number in u then 1 else 0)
  }

  function CountsOf(atoms: seq<Atom>, species: seq<int>): seq<nat>
  {
    seq(|species|, t requires 0 <= t < |species| => |Where(atoms, species[t])|)
  }

  lemma {:induction false} CountsSnoc(atoms: seq<Atom>, a: Atom, species: seq<int>)
    requires StrictlyIncreasing(species)
    ensures Sum(CountsOf(atoms + [a], species)) == Sum(CountsOf(atoms, species)) + (if a.number in species then 1 else 0)
  {
    var atoms' := atoms + [a];
    assert atoms'[..|atoms'| - 1] == atoms;
    if species != [] {
      var n := |species| - 1;
      assert StrictlyIncreasing(species[..n]);
      CountsSnoc(atoms, a, species[..n]);
      assert CountsOf(atoms', species)[..n] == CountsOf(atoms', species[..n]);
      assert CountsOf(atoms, species)[..n] == CountsOf(atoms, species[..n]);
      assert a.number in species <==> a.number in species[..n] || a.number == species[n];
      if a.number == species[n] {
        assert a.number !in species[..n] by {
          forall b | 0 <= b < n
            ensures species[..n][b] != a.number
          {
            assert species[..n][b] == species[b] < species[n];
          }
        }
      }
    }
  }

  lemma {:induction false} SumCountsCovered(atoms: seq<Atom>, species: seq<int>, u: seq<int>)
    requires StrictlyIncreasing(species) && forall z :: z in species <==> z in u
    ensures Sum(CountsOf(atoms, species)) == Covered(atoms, u)
  {
    if atoms == [] {
      SumZero(CountsOf(atoms, species));
    } else {
      var n := |atoms| - 1;
      SumCountsCovered(atoms[..n], species, u);
      assert atoms[..n] + [atoms[n]] == atoms;
      CountsSnoc(atoms[..n], atoms[n], species);
    }
  }

  lemma {:induction false} SumZero(ns: seq<nat>)
    requires forall t :: 0 <= t < |ns| ==> ns[t] == 0
    ensures Sum(ns) == 0
  {
    if ns != [] {
      SumZero(ns[..|ns| - 1]);
    }
  }

  lemma {:induction false} CoveredAll(atoms: seq<Atom>, u: seq<int>)
    requires forall a :: a in atoms ==> a.number in u
    ensures Covered(atoms, u) == |atoms|
  {
    if atoms != [] {
      var n := |atoms| - 1;
      assert forall a :: a in atoms[..n] ==> a in atoms;
      CoveredAll(atoms[..n], u);
    }
  }

  lemma {:induction false} CoveredAtMost(atoms: seq<Atom>, u: seq<int>)
    ensures Covered(atoms, u) <= |atoms|
  {
    if atoms != [] {
      CoveredAtMost(atoms[..|atoms| - 1], u);
    }
  }

  /**
   * The counts add up to the atoms whose species is in the universe: all
   * atoms (totalAN) when no species list is given, and at most totalAN
   * when all_atomtypes leaves some species out.
   */
  lemma CountsTotal(atoms: seq<Atom>, allAtomtypes: Option<seq<int>>)
    requires ClusGeoOf(atoms, allAtomtypes).Success?
    ensures var g := ClusGeoOf(atoms, allAtomtypes).value;
      && Sum(g.typeNs) == Covered(atoms, Universe(atoms, allAtomtypes))
      && Sum(g.typeNs) <= g.totalAN
      && (allAtomtypes.None? ==> Sum(g.typeNs) == g.totalAN)
  {
    var u := Universe(atoms, allAtomtypes);
    var species := SortedDistinct(u);
    SortedDistinctSpec(u);
    forall t | 0 <= t < |species|
      ensures |Block(atoms, species[t])| == |Where(atoms, species[t])|
    {
      BlockLength(atoms, species[t]);
    }
    assert Lengths(Blocks(atoms, species)) == CountsOf(atoms, species);
    SumCountsCovered(atoms, species, u);
    CoveredAtMost(atoms, u);
    if allAtomtypes.None? {
      CoveredAll(atoms, u);
    }
  }
}
