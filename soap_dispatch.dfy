/**
 * The SOAP entry points of soaplite: parameter validation, the choice of
 * native kernel, the size of the output buffer handed to it and the shape
 * that buffer is reshaped to, and the structure and periodic wrappers.
 *
 * The native kernel itself is not modelled: an entry point's result here is
 * the `KernelCall` it would make (every argument passed, the buffer length
 * allocated and the reshape shape).  `Output` is the reshape applied to a
 * buffer of that length.
 */
module SoapDispatch {
  import opened Wrappers
  import opened MbtrGeometry
  import opened MbtrStrings
  import opened SoapMarshal
  import opened SoapBasis

  /** libsoapPySig, libsoapGTO and libsoapGeneral. */
  datatype Variant = PySig | Gto | General

  /** The radial basis handed to the kernel. */
  datatype Basis =
    | GtoBasis(alphas: seq<real>, betas: seq<real>)
    | PolyTables(tables: PolyBasis)

  /** One call into the native kernel, with the shape of its result. */
  datatype KernelCall = KernelCall(
    variant: Variant,
    bufferLength: nat,
    clusgeo: ClusGeo,
    hxyz: seq<real>,
    hsize: nat,
    basis: Basis,
    rCutHard: real,
    nSize: nat,
    lMax: nat,
    eta: real,
    rows: nat,
    cols: nat)

  /** n(n+1)/2, written `int((n*(n+1))/2)`; the division is exact. */
  function Pairs(n: nat): nat
  {
    (n * (n + 1)) / 2
  }

  /** 0 + 1 + ... + n. */
  function Triangle(n: nat): nat
  {
    if n == 0 then 0 else Triangle(n - 1) + n
  }

  lemma {:induction false} TriangleDoubled(n: nat)
    ensures n * (n + 1) == 2 * Triangle(n)
  {
    if n > 0 {
      TriangleDoubled(n - 1);
      assert n * (n + 1) == (n - 1) * n + 2 * n;
    }
  }

  lemma HalfOfDouble(p: int, t: int)
    requires p == 2 * t
    ensures p / 2 == t
  {
  }

  /** The division is exact, and n(n+1)/2 counts the pairs a <= b below n. */
  lemma PairsExact(n: nat)
    ensures 2 * Pairs(n) == n * (n + 1)
    ensures Pairs(n) == Triangle(n)
    ensures Pairs(n + 1) == Pairs(n) + n + 1
  {
    var m := n + 1;
    TriangleDoubled(n);
    TriangleDoubled(m);
    HalfOfDouble(n * (n + 1), Triangle(n));
    HalfOfDouble(m * (m + 1), Triangle(m));
    assert Pairs(n) == Triangle(n);
    assert Pairs(m) == Triangle(m);
  }

  /** The number of unordered species pairs equals the species count only for one species. */
  lemma PairsOne(t: nat)
    ensures Pairs(t) == t <==> t <= 1
  {
    PairsExact(t);
    if t > 1 {
      assert t * (t + 1) > t * 2;
    }
  }

  /** Columns of the output: (basis pairs) x (Lmax + 1) x (species or species pairs). */
  function Width(nMax: nat, lMax: nat, types: nat): nat
  {
    Pairs(nMax) * (lMax + 1) * types
  }

  /** The species factor of the buffer the chosen kernel fills. */
  function BufferTypes(variant: Variant, t: nat): nat
  {
    if variant == PySig then t else Pairs(t)
  }

  /** The reshape of `buffer` never fails. */
  predicate Reshapable(call: KernelCall)
  {
    call.bufferLength == call.rows * call.cols
  }

  /**
   * The kernel call for query points `hpos`: the buffer holds one row of
   * `Width(..., BufferTypes(...))` values per query point and is reshaped to
   * `Width(..., shapeTypes)` columns.
   */
  function CallOf(variant: Variant, cg: ClusGeo, hpos: seq<Vec3>, basis: Basis, rCutHard: real,
                  nMax: nat, lMax: nat, eta: real, shapeTypes: nat): KernelCall
  {
    KernelCall(variant, Width(nMax, lMax, BufferTypes(variant, cg.ntypes)) * |hpos|, cg, Ravel(hpos),
               |hpos|, basis, rCutHard, nMax, lMax, eta, |hpos|, Width(nMax, lMax, shapeTypes))
  }

  /** When the kernel fills as many species columns as the shape has, the reshape fits. */
  lemma CallOfFits(variant: Variant, cg: ClusGeo, hpos: seq<Vec3>, basis: Basis, rCutHard: real,
                   nMax: nat, lMax: nat, eta: real, shapeTypes: nat)
    requires BufferTypes(variant, cg.ntypes) == shapeTypes
    ensures Reshapable(CallOf(variant, cg, hpos, basis, rCutHard, nMax, lMax, eta, shapeTypes))
  {
    var w := Width(nMax, lMax, shapeTypes);
    assert w * |hpos| == |hpos| * w;
  }

  // ---------------------------------------------------------------------
  // get_soap_locals_gto

  /** The ranges the GTO entry point accepts. */
  predicate GtoParametersValid(rcut: real, nMax: int, lMax: int, eta: real)
  {
    && 0 <= lMax <= 9
    && 1.999 < rcut + 5.0 < 17.0001
    && 2 <= nMax <= 13
    && eta >= 0.0001
  }

  /**
   * The assertions of the GTO entry point in their order: the message of the
   * first one that fails, or None when all hold.  A message is the text
   * before the formatted value, followed by the value where it is an int.
   */
  function GtoCheck(rcut: real, nMax: int, lMax: int, eta: real): (r: Option<string>)
    ensures r.None? <==> GtoParametersValid(rcut, nMax, lMax, eta)
    ensures lMax > 9 ==> r == Some("l cannot exceed 9. Lmax=" + IntToString(lMax))
    ensures 0 <= lMax <= 9 && 1.999 < rcut + 5.0 < 17.0001 && 2 <= nMax <= 13 && eta < 0.0001
      ==> r == Some("Eta cannot be zero or negative. nMax=")
  {
    var rCutHard := rcut + 5.0;
    if !(lMax <= 9) then Some("l cannot exceed 9. Lmax=" + IntToString(lMax))
    else if !(lMax >= 0) then Some("l cannot be negative.Lmax=" + IntToString(lMax))
    else if !(rCutHard < 17.0001) then Some("hard radius cuttof cannot be larger than 17 Angs. rCut=")
    else if !(rCutHard > 1.999) then Some("hard redius cuttof cannot be lower than 1 Ang. rCut=")
    else if !(nMax >= 2) then Some("number of basis functions cannot be lower than 2. nMax=" + IntToString(nMax))
    else if !(nMax <= 13) then Some("number of basis functions cannot exceed 12. nMax=" + IntToString(nMax))
    else if !(eta >= 0.0001) then Some("Eta cannot be zero or negative. nMax=")
    else None
  }

  /** PySig for a single species or without cross terms, GTO otherwise. */
  function GtoVariant(t: nat, crossOver: bool): Variant
  {
    if t == 1 || !crossOver then PySig else Gto
  }

  /** get_soap_locals_gto: validate, format the atoms, then call the kernel. */
  function LocalsGto(atoms: seq<Atom>, hpos: seq<Vec3>, alp: seq<real>, bet: seq<real>, rcut: real,
                     nMax: int, lMax: int, crossOver: bool, allAtomtypes: Option<seq<int>>,
                     eta: real): Result<KernelCall, string>
  {
    match GtoCheck(rcut, nMax, lMax, eta)
    case Some(msg) => Failure(msg)
    case None =>
      match ClusGeoOf(atoms, allAtomtypes)
      case Failure(e) => Failure(e)
      case Success(cg) =>
        var t := cg.ntypes;
        Success(CallOf(GtoVariant(t, crossOver), cg, hpos, GtoBasis(alp, bet), rcut + 5.0, nMax, lMax, eta,
                       if crossOver then Pairs(t) else t))
  }

  /** A failing range check is reported before the atoms are looked at. */
  lemma LocalsGtoErrors(atoms: seq<Atom>, hpos: seq<Vec3>, alp: seq<real>, bet: seq<real>, rcut: real,
                        nMax: int, lMax: int, crossOver: bool, allAtomtypes: Option<seq<int>>, eta: real)
    ensures var r := LocalsGto(atoms, hpos, alp, bet, rcut, nMax, lMax, crossOver, allAtomtypes, eta);
      && (r.Failure? <==> !GtoParametersValid(rcut, nMax, lMax, eta) || Universe(atoms, allAtomtypes) == [])
      && (!GtoParametersValid(rcut, nMax, lMax, eta) ==> r == Failure(GtoCheck(rcut, nMax, lMax, eta).value))
      && (GtoParametersValid(rcut, nMax, lMax, eta) && Universe(atoms, allAtomtypes) == []
          ==> r == Failure("need at least one array to concatenate"))
  {
    FormatSpecies(atoms, allAtomtypes);
  }

  /**
   * On success: the non-cross kernel is used exactly for one species or no
   * cross terms; the buffer fits the reshape; one row per query point, of
   * the closed-form width; the formatted atoms and flattened query points
   * are what the kernel receives.
   */
  lemma LocalsGtoCall(atoms: seq<Atom>, hpos: seq<Vec3>, alp: seq<real>, bet: seq<real>, rcut: real,
                      nMax: int, lMax: int, crossOver: bool, allAtomtypes: Option<seq<int>>, eta: real)
    requires LocalsGto(atoms, hpos, alp, bet, rcut, nMax, lMax, crossOver, allAtomtypes, eta).Success?
    ensures var c := LocalsGto(atoms, hpos, alp, bet, rcut, nMax, lMax, crossOver, allAtomtypes, eta).value;
      && c.clusgeo == ClusGeoOf(atoms, allAtomtypes).value
      && c.clusgeo.ntypes >= 1
      && (c.variant == PySig <==> c.clusgeo.ntypes == 1 || !crossOver)
      && c.variant != General
      && Reshapable(c)
      && c.rows == c.hsize == |hpos|
      && c.cols == Pairs(nMax) * (lMax + 1) * (if crossOver then Pairs(c.clusgeo.ntypes) else c.clusgeo.ntypes)
      && |c.hxyz| == 3 * |hpos|
      && c.basis == GtoBasis(alp, bet)
      && c.rCutHard == rcut + 5.0 && c.nSize == nMax && c.lMax == lMax && c.eta == eta
  {
    FormatSpecies(atoms, allAtomtypes);
    RavelLength(hpos);
    var cg := ClusGeoOf(atoms, allAtomtypes).value;
    var t := cg.ntypes;
    PairsOne(t);
    var shapeTypes := if crossOver then Pairs(t) else t;
    assert BufferTypes(GtoVariant(t, crossOver), t) == shapeTypes;
    CallOfFits(GtoVariant(t, crossOver), cg, hpos, GtoBasis(alp, bet), rcut + 5.0, nMax, lMax, eta, shapeTypes);
  }

  // ---------------------------------------------------------------------
  // get_soap_locals_poly

  /** The ranges the polynomial entry point accepts; nMax and eta are not checked. */
  predicate PolyParametersValid(rcut: real, lMax: int)
  {
    0 <= lMax <= 20 && 1.9999 < rcut + 5.0 < 17.0001
  }

  /** The assertions of the polynomial entry point in their order. */
  function PolyCheck(rcut: real, lMax: int): (r: Option<string>)
    ensures r.None? <==> PolyParametersValid(rcut, lMax)
    ensures lMax > 20 ==> r == Some("l cannot exceed 20. Lmax=" + IntToString(lMax))
  {
    var rCutHard := rcut + 5.0;
    if !(lMax <= 20) then Some("l cannot exceed 20. Lmax=" + IntToString(lMax))
    else if !(lMax >= 0) then Some("l cannot be negative. Lmax=" + IntToString(lMax))
    else if !(rCutHard < 17.0001) then Some("hard radius cuttof cannot be larger than 17 Angs. rcut=")
    else if !(rCutHard > 1.9999) then Some("hard radius cuttof cannot be lower than 1 Ang. rcut=")
    else None
  }

  /** get_soap_locals_poly: the basis tables first, then validation, formatting and the kernel call. */
  function LocalsPoly(atoms: seq<Atom>, hpos: seq<Vec3>, rcut: real, nMax: int, lMax: int,
                      allAtomtypes: Option<seq<int>>, eta: real,
                      lowdin: seq<seq<real>> -> Root): Result<KernelCall, string>
  {
    match BasisPoly(rcut, nMax, lowdin)
    case Failure(e) => Failure(e)
    case Success(tables) =>
      match PolyCheck(rcut, lMax)
      case Some(msg) => Failure(msg)
      case None =>
        match ClusGeoOf(atoms, allAtomtypes)
        case Failure(e) => Failure(e)
        case Success(cg) =>
          assert nMax >= 0;
          Success(CallOf(General, cg, hpos, PolyTables(tables), rcut + 5.0, nMax, lMax, eta, Pairs(cg.ntypes)))
  }

  /** A basis failure wins over every range check, and a range check over the atoms. */
  lemma LocalsPolyErrors(atoms: seq<Atom>, hpos: seq<Vec3>, rcut: real, nMax: int, lMax: int,
                         allAtomtypes: Option<seq<int>>, eta: real, lowdin: seq<seq<real>> -> Root)
    ensures var r := LocalsPoly(atoms, hpos, rcut, nMax, lMax, allAtomtypes, eta, lowdin);
      && (r.Failure? <==> BasisPoly(rcut, nMax, lowdin).Failure? || !PolyParametersValid(rcut, lMax)
                          || Universe(atoms, allAtomtypes) == [])
      && (BasisPoly(rcut, nMax, lowdin).Failure? ==> r == Failure(BasisPoly(rcut, nMax, lowdin).error))
      && (nMax < 0 ==> r == Failure("negative dimensions are not allowed"))
      && (BasisPoly(rcut, nMax, lowdin).Success? && !PolyParametersValid(rcut, lMax)
          ==> r == Failure(PolyCheck(rcut, lMax).value))
  {
    FormatSpecies(atoms, allAtomtypes);
  }

  /**
   * On success: the general kernel, fed the basis tables; the cross width is
   * always used, so the buffer fits the reshape; one row per query point.
   */
  lemma LocalsPolyCall(atoms: seq<Atom>, hpos: seq<Vec3>, rcut: real, nMax: int, lMax: int,
                       allAtomtypes: Option<seq<int>>, eta: real, lowdin: seq<seq<real>> -> Root)
    requires LocalsPoly(atoms, hpos, rcut, nMax, lMax, allAtomtypes, eta, lowdin).Success?
    ensures var c := LocalsPoly(atoms, hpos, rcut, nMax, lMax, allAtomtypes, eta, lowdin).value;
      && c.variant == General
      && c.clusgeo == ClusGeoOf(atoms, allAtomtypes).value
      && c.basis == PolyTables(BasisPoly(rcut, nMax, lowdin).value)
      && Reshapable(c)
      && c.rows == c.hsize == |hpos|
      && c.cols == Pairs(nMax) * (lMax + 1) * Pairs(c.clusgeo.ntypes)
      && |c.hxyz| == 3 * |hpos|
      && c.rCutHard == rcut + 5.0 && c.nSize == nMax && c.lMax == lMax && c.eta == eta
  {
    RavelLength(hpos);
    var cg := ClusGeoOf(atoms, allAtomtypes).value;
    var tables := BasisPoly(rcut, nMax, lowdin).value;
    CallOfFits(General, cg, hpos, PolyTables(tables), rcut + 5.0, nMax, lMax, eta, Pairs(cg.ntypes));
  }

  // ---------------------------------------------------------------------
  // The reshape

  function Reshape(c: seq<real>, rows: nat, cols: nat): (a: seq<seq<real>>)
    requires |c| == rows * cols
    ensures |a| == rows
    ensures forall i :: 0 <= i < rows ==> |a[i]| == cols
    ensures forall i, j :: 0 <= i < rows && 0 <= j < cols ==> a[i][j] == c[Flat(rows, cols, i, j)]
  {
    seq(rows, i requires 0 <= i < rows => RowOf(c, rows, cols, i))
  }

  /** Row-major position of entry (i, j) of a rows x cols matrix. */
  function Flat(rows: nat, cols: nat, i: nat, j: nat): (k: nat)
    requires i < rows && j < cols
    ensures k == i * cols + j && k < rows * cols
  {
    RowBound(rows, cols, i);
    i * cols + j
  }

  function RowOf(c: seq<real>, rows: nat, cols: nat, i: nat): (row: seq<real>)
    requires |c| == rows * cols && i < rows
    ensures |row| == cols
    ensures forall j :: 0 <= j < cols ==> row[j] == c[Flat(rows, cols, i, j)]
  {
    RowBound(rows, cols, i);
    c[i * cols .. i * cols + cols]
  }

  lemma RowBound(rows: nat, cols: nat, i: nat)
    requires i < rows
    ensures i * cols + cols <= rows * cols
  {
    MulMonotone(i + 1, rows, cols);
    assert (i + 1) * cols == i * cols + cols;
  }

  lemma MulMonotone(a: nat, b: nat, c: nat)
    requires a <= b
    ensures a * c <= b * c
  {
  }

  /** np.ctypeslib.as_array(c).reshape(shape) of the buffer the kernel filled. */
  function Output(call: KernelCall, c: seq<real>): (a: seq<seq<real>>)
    requires Reshapable(call) && |c| == call.bufferLength
    ensures |a| == call.rows
    ensures forall i :: 0 <= i < call.rows ==> |a[i]| == call.cols
    ensures forall i, j :: 0 <= i < call.rows && 0 <= j < call.cols ==> a[i][j] == c[Flat(call.rows, call.cols, i, j)]
  {
    Reshape(c, call.rows, call.cols)
  }

  // ---------------------------------------------------------------------
  // Structure and periodic wrappers

  /** obj.get_positions(). */
  function Positions(atoms: seq<Atom>): (ps: seq<Vec3>)
    ensures |ps| == |atoms|
    ensures forall i :: 0 <= i < |atoms| ==> ps[i] == atoms[i].position
  {
    seq(|atoms|, i requires 0 <= i < |atoms| => atoms[i].position)
  }

  function StructureGto(atoms: seq<Atom>, alp: seq<real>, bet: seq<real>, rcut: real, nMax: int, lMax: int,
                        crossOver: bool, allAtomtypes: Option<seq<int>>, eta: real): Result<KernelCall, string>
  {
    LocalsGto(atoms, Positions(atoms), alp, bet, rcut, nMax, lMax, crossOver, allAtomtypes, eta)
  }

  function StructurePoly(atoms: seq<Atom>, rcut: real, nMax: int, lMax: int, allAtomtypes: Option<seq<int>>,
                         eta: real, lowdin: seq<seq<real>> -> Root): Result<KernelCall, string>
  {
    LocalsPoly(atoms, Positions(atoms), rcut, nMax, lMax, allAtomtypes, eta, lowdin)
  }

  /** The structure wrappers compute one row per atom, at the atoms' own positions. */
  lemma StructureGtoRows(atoms: seq<Atom>, alp: seq<real>, bet: seq<real>, rcut: real, nMax: int, lMax: int,
                         crossOver: bool, allAtomtypes: Option<seq<int>>, eta: real)
    requires StructureGto(atoms, alp, bet, rcut, nMax, lMax, crossOver, allAtomtypes, eta).Success?
    ensures var c := StructureGto(atoms, alp, bet, rcut, nMax, lMax, crossOver, allAtomtypes, eta).value;
      c.rows == |atoms| && c.hxyz == Ravel(Positions(atoms)) && Reshapable(c)
  {
    LocalsGtoCall(atoms, Positions(atoms), alp, bet, rcut, nMax, lMax, crossOver, allAtomtypes, eta);
  }

  lemma StructurePolyRows(atoms: seq<Atom>, rcut: real, nMax: int, lMax: int, allAtomtypes: Option<seq<int>>,
                          eta: real, lowdin: seq<seq<real>> -> Root)
    requires StructurePoly(atoms, rcut, nMax, lMax, allAtomtypes, eta, lowdin).Success?
    ensures var c := StructurePoly(atoms, rcut, nMax, lMax, allAtomtypes, eta, lowdin).value;
      c.rows == |atoms| && c.hxyz == Ravel(Positions(atoms)) && Reshapable(c)
  {
    LocalsPolyCall(atoms, Positions(atoms), rcut, nMax, lMax, allAtomtypes, eta, lowdin);
  }

  /** A periodic system: its atoms, and the cell and periodicity read only by the extension. */
  datatype Periodic = Periodic(atoms: seq<Atom>, cell: seq<Vec3>, pbc: seq<bool>)

  /**
   * rcut + 3 sigma with sigma = math.sqrt(1.0 / (2 * eta)); Python raises for
   * eta == 0 (the division) and for eta < 0 (sqrt of a negative number).
   */
  function RadialCutoff(rcut: real, eta: real, sqrt: real -> real): (r: Result<real, string>)
    ensures r.Failure? <==> eta <= 0.0
  {
    if eta == 0.0 then Failure("float division by zero")
    else if 1.0 / (2.0 * eta) < 0.0 then Failure("math domain error")
    else Success(rcut + 3.0 * sqrt(1.0 / (2.0 * eta)))
  }

  /** With a non-negative square root the extension radius is never below rcut. */
  lemma RadialCutoffBeyond(rcut: real, eta: real, sqrt: real -> real)
    requires eta > 0.0
    requires sqrt(1.0 / (2.0 * eta)) >= 0.0
    ensures RadialCutoff(rcut, eta, sqrt) == Success(rcut + 3.0 * sqrt(1.0 / (2.0 * eta)))
    ensures RadialCutoff(rcut, eta, sqrt).value >= rcut
  {
    assert 2.0 * eta > 0.0;
    assert 1.0 / (2.0 * eta) > 0.0;
  }

  function PeriodicLocalsGto(system: Periodic, positions: seq<Vec3>, alp: seq<real>, bet: seq<real>, rcut: real,
                             nMax: int, lMax: int, crossOver: bool, allAtomtypes: Option<seq<int>>, eta: real,
                             sqrt: real -> real, extend: (Periodic, real) -> seq<Atom>): Result<KernelCall, string>
  {
    match RadialCutoff(rcut, eta, sqrt)
    case Failure(e) => Failure(e)
    case Success(radius) =>
      LocalsGto(extend(system, radius), positions, alp, bet, rcut, nMax, lMax, crossOver, allAtomtypes, eta)
  }

  function PeriodicStructureGto(system: Periodic, alp: seq<real>, bet: seq<real>, rcut: real, nMax: int, lMax: int,
                                crossOver: bool, allAtomtypes: Option<seq<int>>, eta: real,
                                sqrt: real -> real, extend: (Periodic, real) -> seq<Atom>): Result<KernelCall, string>
  {
    PeriodicLocalsGto(system, Positions(system.atoms), alp, bet, rcut, nMax, lMax, crossOver, allAtomtypes, eta,
                      sqrt, extend)
  }

  function PeriodicLocalsPoly(system: Periodic, positions: seq<Vec3>, rcut: real, nMax: int, lMax: int,
                              allAtomtypes: Option<seq<int>>, eta: real, lowdin: seq<seq<real>> -> Root,
                              sqrt: real -> real, extend: (Periodic, real) -> seq<Atom>): Result<KernelCall, string>
  {
    match RadialCutoff(rcut, eta, sqrt)
    case Failure(e) => Failure(e)
    case Success(radius) =>
      LocalsPoly(extend(system, radius), positions, rcut, nMax, lMax, allAtomtypes, eta, lowdin)
  }

  function PeriodicStructurePoly(system: Periodic, rcut: real, nMax: int, lMax: int, allAtomtypes: Option<seq<int>>,
                                 eta: real, lowdin: seq<seq<real>> -> Root,
                                 sqrt: real -> real, extend: (Periodic, real) -> seq<Atom>): Result<KernelCall, string>
  {
    PeriodicLocalsPoly(system, Positions(system.atoms), rcut, nMax, lMax, allAtomtypes, eta, lowdin, sqrt, extend)
  }

  /**
   * The periodic GTO wrappers: a non-positive eta fails in the sigma
   * computation, before any range check; otherwise the atoms are those of
   * the system extended by rcut + 3 sigma, and the query points are the
   * given ones (for the structure wrapper, the ORIGINAL atoms' positions),
   * so there is one row per original atom.
   */
  lemma PeriodicGto(system: Periodic, positions: seq<Vec3>, alp: seq<real>, bet: seq<real>, rcut: real,
                    nMax: int, lMax: int, crossOver: bool, allAtomtypes: Option<seq<int>>, eta: real,
                    sqrt: real -> real, extend: (Periodic, real) -> seq<Atom>)
    ensures eta == 0.0 ==>
      PeriodicLocalsGto(system, positions, alp, bet, rcut, nMax, lMax, crossOver, allAtomtypes, eta, sqrt, extend)
        == Failure("float division by zero")
    ensures eta < 0.0 ==>
      PeriodicLocalsGto(system, positions, alp, bet, rcut, nMax, lMax, crossOver, allAtomtypes, eta, sqrt, extend)
        == Failure("math domain error")
    ensures eta > 0.0 ==>
      PeriodicLocalsGto(system, positions, alp, bet, rcut, nMax, lMax, crossOver, allAtomtypes, eta, sqrt, extend)
        == LocalsGto(extend(system, rcut + 3.0 * sqrt(1.0 / (2.0 * eta))), positions, alp, bet, rcut,
                     nMax, lMax, crossOver, allAtomtypes, eta)
    ensures var r := PeriodicStructureGto(system, alp, bet, rcut, nMax, lMax, crossOver, allAtomtypes, eta, sqrt, extend);
      r.Success? ==> r.value.rows == |system.atoms| && r.value.hxyz == Ravel(Positions(system.atoms))
                     && Reshapable(r.value)
  {
    if eta < 0.0 {
      assert 1.0 / (2.0 * eta) < 0.0;
    }
    var r := PeriodicStructureGto(system, alp, bet, rcut, nMax, lMax, crossOver, allAtomtypes, eta, sqrt, extend);
    if r.Success? {
      var radius := RadialCutoff(rcut, eta, sqrt).value;
      LocalsGtoCall(extend(system, radius), Positions(system.atoms), alp, bet, rcut, nMax, lMax, crossOver,
                    allAtomtypes, eta);
    }
  }

  /** The periodic polynomial wrappers, likewise. */
  lemma PeriodicPoly(system: Periodic, positions: seq<Vec3>, rcut: real, nMax: int, lMax: int,
                     allAtomtypes: Option<seq<int>>, eta: real, lowdin: seq<seq<real>> -> Root,
                     sqrt: real -> real, extend: (Periodic, real) -> seq<Atom>)
    ensures eta == 0.0 ==>
      PeriodicLocalsPoly(system, positions, rcut, nMax, lMax, allAtomtypes, eta, lowdin, sqrt, extend)
        == Failure("float division by zero")
    ensures eta < 0.0 ==>
      PeriodicLocalsPoly(system, positions, rcut, nMax, lMax, allAtomtypes, eta, lowdin, sqrt, extend)
        == Failure("math domain error")
    ensures eta > 0.0 ==>
      PeriodicLocalsPoly(system, positions, rcut, nMax, lMax, allAtomtypes, eta, lowdin, sqrt, extend)
        == LocalsPoly(extend(system, rcut + 3.0 * sqrt(1.0 / (2.0 * eta))), positions, rcut, nMax, lMax,
                      allAtomtypes, eta, lowdin)
    ensures var r := PeriodicStructurePoly(system, rcut, nMax, lMax, allAtomtypes, eta, lowdin, sqrt, extend);
      r.Success? ==> r.value.rows == |system.atoms| && r.value.hxyz == Ravel(Positions(system.atoms))
                     && Reshapable(r.value)
  {
    if eta < 0.0 {
      assert 1.0 / (2.0 * eta) < 0.0;
    }
    var r := PeriodicStructurePoly(system, rcut, nMax, lMax, allAtomtypes, eta, lowdin, sqrt, extend);
    if r.Success? {
      var radius := RadialCutoff(rcut, eta, sqrt).value;
      LocalsPolyCall(extend(system, radius), Positions(system.atoms), rcut, nMax, lMax, allAtomtypes, eta, lowdin);
    }
  }
}
