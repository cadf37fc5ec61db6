/**
 * The polynomial radial basis of get_basis_poly in
 * dscribe/descriptors/soaplite.py: the overlap matrix S of the polynomials
 * (rcut - r)^(n+2), the fixed 100-point abscissa table, the radii rx it is
 * mapped to and the table fs of the polynomials on those radii.  The
 * matrix root S^(-1/2) that orthonormalises the basis is a parameter.
 */
module SoapBasis {
  import opened Wrappers

  /** r ** n for a natural exponent. */
  function Pow(r: real, n: nat): real
  {
    if n == 0 then 1.0 else r * Pow(r, n - 1)
  }

  lemma {:induction false} PowPositive(r: real, n: nat)
    requires r > 0.0
    ensures Pow(r, n) > 0.0
  {
    if n > 0 {
      PowPositive(r, n - 1);
    }
  }

  lemma {:induction false} PowNonNegative(r: real, n: nat)
    requires r >= 0.0
    ensures Pow(r, n) >= 0.0
  {
    if n > 0 {
      PowNonNegative(r, n - 1);
    }
  }

  // ---------------------------------------------------------------------
  // The overlap matrix S
  // ---------------------------------------------------------------------

  /**
   * S[i-1, j-1] for the polynomials of degree i + 2 and j + 2: the integral
   * of (rcut - r)^(i+2) (rcut - r)^(j+2) r^2 over [0, rcut].
   */
  function Overlap(rcut: real, i: nat, j: nat): real
  {
    (2.0 * Pow(rcut, 7 + i + j)) / ((5 + i + j) * (6 + i + j) * (7 + i + j)) as real
  }

  /** The nmax x nmax matrix S as rows. */
  function OverlapRows(rcut: real, nmax: nat): seq<seq<real>>
  {
    seq(nmax, a requires 0 <= a < nmax => seq(nmax, b requires 0 <= b < nmax => Overlap(rcut, a + 1, b + 1)))
  }

  /** S depends on i + j only, so it is symmetric. */
  lemma OverlapSymmetric(rcut: real, nmax: nat, a: nat, b: nat)
    requires a < nmax && b < nmax
    ensures OverlapRows(rcut, nmax)[a][b] == OverlapRows(rcut, nmax)[b][a]
  {
  }

  /** For a positive cutoff every entry of S is positive. */
  lemma OverlapPositive(rcut: real, nmax: nat, a: nat, b: nat)
    requires rcut > 0.0 && a < nmax && b < nmax
    ensures OverlapRows(rcut, nmax)[a][b] > 0.0
  {
    var n := (a + 1) + (b + 1);
    PowPositive(rcut, 7 + n);
    ProductPositive(5 + n, 6 + n, 7 + n);
    QuotientPositive(2.0 * Pow(rcut, 7 + n), ((5 + n) * (6 + n) * (7 + n)) as real);
    assert OverlapRows(rcut, nmax)[a][b] == Overlap(rcut, a + 1, b + 1);
  }

  lemma ProductPositive(x: int, y: int, z: int)
    requires x > 0 && y > 0 && z > 0
    ensures x * y * z > 0
  {
    var p := x * y;
    assert p > 0;
    assert p * z > 0;
  }

  lemma QuotientPositive(x: real, d: real)
    requires x > 0.0 && d > 0.0
    ensures x / d > 0.0
  {
  }

  /** The contents of a two-dimensional array, row by row. */
  function Matrix(m: array2<real>): (r: seq<seq<real>>)
    reads m
    ensures |r| == m.Length0
    ensures forall a :: 0 <= a < m.Length0 ==> |r[a]| == m.Length1
    ensures forall a, b :: 0 <= a < m.Length0 && 0 <= b < m.Length1 ==> r[a][b] == m[a, b]
  {
    seq(m.Length0, a requires 0 <= a < m.Length0 reads m =>
      seq(m.Length1, b requires 0 <= b < m.Length1 reads m => m[a, b]))
  }

  /** The double loop of get_basis_poly that fills S = np.zeros((nmax, nmax)). */
  method OverlapMatrix(rcut: real, nmax: nat) returns (S: array2<real>)
    ensures fresh(S)
    ensures Matrix(S) == OverlapRows(rcut, nmax)
  {
    S := new real[nmax, nmax]((a, b) => 0.0);
    // i and j of the source run from 1 to nmax; here they are a + 1 and b + 1.
    for a := 0 to nmax
      invariant forall a', b :: 0 <= a' < a && 0 <= b < nmax ==> S[a', b] == Overlap(rcut, a' + 1, b + 1)
    {
      for b := 0 to nmax
        invariant forall a', b' :: 0 <= a' < a && 0 <= b' < nmax ==> S[a', b'] == Overlap(rcut, a' + 1, b' + 1)
        invariant forall b' :: 0 <= b' < b ==> S[a, b'] == Overlap(rcut, a + 1, b' + 1)
      {
        S[a, b] := Overlap(rcut, a + 1, b + 1);
      }
    }
    forall a | 0 <= a < nmax
      ensures Matrix(S)[a] == OverlapRows(rcut, nmax)[a]
    {
      assert forall b :: 0 <= b < nmax ==> Matrix(S)[a][b] == OverlapRows(rcut, nmax)[a][b];
    }
  }

  // ---------------------------------------------------------------------
  // The abscissa table x
  // ---------------------------------------------------------------------

  /** x = np.zeros(100) with x[0] .. x[99] set, ten to a line, as the decimal literals they are written as. */
  const Abscissas: seq<real> :=
    [-0.999713726773441234, -0.998491950639595818, -0.996295134733125149, -0.99312493703744346, -0.98898439524299175, -0.98387754070605702, -0.97780935848691829, -0.97078577576370633, -0.962813654255815527, -0.95390078292549174]
    + [-0.94405587013625598, -0.933288535043079546, -0.921609298145333953, -0.90902957098252969, -0.895561644970726987, -0.881218679385018416, -0.86601468849716462, -0.849964527879591284, -0.833083879888400824, -0.815389238339176254]
    + [-0.79689789239031448, -0.77762790964949548, -0.757598118519707176, -0.736828089802020706, -0.715338117573056447, -0.69314919935580197, -0.670283015603141016, -0.64676190851412928, -0.622608860203707772, -0.59784747024717872]
    + [-0.57250193262138119, -0.546597012065094168, -0.520158019881763057, -0.493210789208190934, -0.465781649773358042, -0.437897402172031513, -0.409585291678301543, -0.380872981624629957, -0.351788526372421721, -0.322360343900529152]
    + [-0.292617188038471965, -0.26258812037150348, -0.23230248184497397, -0.201789864095735997, -0.171080080538603275, -0.140203137236113973, -0.109189203580061115, -0.0780685828134366367, -0.046871682421591632, -0.015628984421543083]
    + [0.0156289844215430829, 0.046871682421591632, 0.078068582813436637, 0.109189203580061115, 0.140203137236113973, 0.171080080538603275, 0.201789864095735997, 0.23230248184497397, 0.262588120371503479, 0.292617188038471965]
    + [0.322360343900529152, 0.351788526372421721, 0.380872981624629957, 0.409585291678301543, 0.437897402172031513, 0.465781649773358042, 0.49321078920819093, 0.520158019881763057, 0.546597012065094168, 0.572501932621381191]
    + [0.59784747024717872, 0.622608860203707772, 0.64676190851412928, 0.670283015603141016, 0.693149199355801966, 0.715338117573056447, 0.736828089802020706, 0.75759811851970718, 0.77762790964949548, 0.79689789239031448]
    + [0.81538923833917625, 0.833083879888400824, 0.849964527879591284, 0.866014688497164623, 0.881218679385018416, 0.89556164497072699, 0.90902957098252969, 0.921609298145333953, 0.933288535043079546, 0.94405587013625598]
    + [0.953900782925491743, 0.96281365425581553, 0.970785775763706332, 0.977809358486918289, 0.983877540706057016, 0.98898439524299175, 0.99312493703744346, 0.99629513473312515, 0.998491950639595818, 0.99971372677344123]

  /** What holds of entry k of a 100-entry table, checked entry by entry. */
  predicate EntryFacts(xs: seq<real>, k: nat)
    requires |xs| == 100 && k < 100
  {
    && -1.0 < xs[k] < 1.0
    && (if k < 50 then xs[k] < 0.0 else xs[k] > 0.0)
    && -0.00000000000000001 < xs[k] + xs[99 - k] < 0.00000000000000001
    && (k < 99 ==> xs[k] < xs[k + 1])
  }

  predicate ChecksFrom(xs: seq<real>, k: nat)
    requires |xs| == 100 && k <= 100
    decreases 100 - k
  {
    k == 100 || (EntryFacts(xs, k) && ChecksFrom(xs, k + 1))
  }

  lemma TableChecks90()
    ensures ChecksFrom(Abscissas, 90)
  {
    assert ChecksFrom(Abscissas, 99);
    assert ChecksFrom(Abscissas, 98);
    assert ChecksFrom(Abscissas, 97);
    assert ChecksFrom(Abscissas, 96);
    assert ChecksFrom(Abscissas, 95);
    assert ChecksFrom(Abscissas, 94);
    assert ChecksFrom(Abscissas, 93);
    assert ChecksFrom(Abscissas, 92);
    assert ChecksFrom(Abscissas, 91);
    assert ChecksFrom(Abscissas, 90);
  }

  lemma TableChecks80()
    ensures ChecksFrom(Abscissas, 80)
  {
    TableChecks90();
    assert ChecksFrom(Abscissas, 89);
    assert ChecksFrom(Abscissas, 88);
    assert ChecksFrom(Abscissas, 87);
    assert ChecksFrom(Abscissas, 86);
    assert ChecksFrom(Abscissas, 85);
    assert ChecksFrom(Abscissas, 84);
    assert ChecksFrom(Abscissas, 83);
    assert ChecksFrom(Abscissas, 82);
    assert ChecksFrom(Abscissas, 81);
    assert ChecksFrom(Abscissas, 80);
  }

  lemma TableChecks70()
    ensures ChecksFrom(Abscissas, 70)
  {
    TableChecks80();
    assert ChecksFrom(Abscissas, 79);
    assert ChecksFrom(Abscissas, 78);
    assert ChecksFrom(Abscissas, 77);
    assert ChecksFrom(Abscissas, 76);
    assert ChecksFrom(Abscissas, 75);
    assert ChecksFrom(Abscissas, 74);
    assert ChecksFrom(Abscissas, 73);
    assert ChecksFrom(Abscissas, 72);
    assert ChecksFrom(Abscissas, 71);
    assert ChecksFrom(Abscissas, 70);
  }

  lemma TableChecks60()
    ensures ChecksFrom(Abscissas, 60)
  {
    TableChecks70();
    assert ChecksFrom(Abscissas, 69);
    assert ChecksFrom(Abscissas, 68);
    assert ChecksFrom(Abscissas, 67);
    assert ChecksFrom(Abscissas, 66);
    assert ChecksFrom(Abscissas, 65);
    assert ChecksFrom(Abscissas, 64);
    assert ChecksFrom(Abscissas, 63);
    assert ChecksFrom(Abscissas, 62);
    assert ChecksFrom(Abscissas, 61);
    assert ChecksFrom(Abscissas, 60);
  }

  lemma TableChecks50()
    ensures ChecksFrom(Abscissas, 50)
  {
    TableChecks60();
    assert ChecksFrom(Abscissas, 59);
    assert ChecksFrom(Abscissas, 58);
    assert ChecksFrom(Abscissas, 57);
    assert ChecksFrom(Abscissas, 56);
    assert ChecksFrom(Abscissas, 55);
    assert ChecksFrom(Abscissas, 54);
    assert ChecksFrom(Abscissas, 53);
    assert ChecksFrom(Abscissas, 52);
    assert ChecksFrom(Abscissas, 51);
    assert ChecksFrom(Abscissas, 50);
  }

  lemma TableChecks40()
    ensures ChecksFrom(Abscissas, 40)
  {
    TableChecks50();
    assert ChecksFrom(Abscissas, 49);
    assert ChecksFrom(Abscissas, 48);
    assert ChecksFrom(Abscissas, 47);
    assert ChecksFrom(Abscissas, 46);
    assert ChecksFrom(Abscissas, 45);
    assert ChecksFrom(Abscissas, 44);
    assert ChecksFrom(Abscissas, 43);
    assert ChecksFrom(Abscissas, 42);
    assert ChecksFrom(Abscissas, 41);
    assert ChecksFrom(Abscissas, 40);
  }

  lemma TableChecks30()
    ensures ChecksFrom(Abscissas, 30)
  {
    TableChecks40();
    assert ChecksFrom(Abscissas, 39);
    assert ChecksFrom(Abscissas, 38);
    assert ChecksFrom(Abscissas, 37);
    assert ChecksFrom(Abscissas, 36);
    assert ChecksFrom(Abscissas, 35);
    assert ChecksFrom(Abscissas, 34);
    assert ChecksFrom(Abscissas, 33);
    assert ChecksFrom(Abscissas, 32);
    assert ChecksFrom(Abscissas, 31);
    assert ChecksFrom(Abscissas, 30);
  }

  lemma TableChecks20()
    ensures ChecksFrom(Abscissas, 20)
  {
    TableChecks30();
    assert ChecksFrom(Abscissas, 29);
    assert ChecksFrom(Abscissas, 28);
    assert ChecksFrom(Abscissas, 27);
    assert ChecksFrom(Abscissas, 26);
    assert ChecksFrom(Abscissas, 25);
    assert ChecksFrom(Abscissas, 24);
    assert ChecksFrom(Abscissas, 23);
    assert ChecksFrom(Abscissas, 22);
    assert ChecksFrom(Abscissas, 21);
    assert ChecksFrom(Abscissas, 20);
  }

  lemma TableChecks10()
    ensures ChecksFrom(Abscissas, 10)
  {
    TableChecks20();
    assert ChecksFrom(Abscissas, 19);
    assert ChecksFrom(Abscissas, 18);
    assert ChecksFrom(Abscissas, 17);
    assert ChecksFrom(Abscissas, 16);
    assert ChecksFrom(Abscissas, 15);
    assert ChecksFrom(Abscissas, 14);
    assert ChecksFrom(Abscissas, 13);
    assert ChecksFrom(Abscissas, 12);
    assert ChecksFrom(Abscissas, 11);
    assert ChecksFrom(Abscissas, 10);
  }

  lemma TableChecks0()
    ensures ChecksFrom(Abscissas, 0)
  {
    TableChecks10();
    assert ChecksFrom(Abscissas, 9);
    assert ChecksFrom(Abscissas, 8);
    assert ChecksFrom(Abscissas, 7);
    assert ChecksFrom(Abscissas, 6);
    assert ChecksFrom(Abscissas, 5);
    assert ChecksFrom(Abscissas, 4);
    assert ChecksFrom(Abscissas, 3);
    assert ChecksFrom(Abscissas, 2);
    assert ChecksFrom(Abscissas, 1);
    assert ChecksFrom(Abscissas, 0);
  }

  lemma {:induction false} ChecksFromAll(xs: seq<real>, k: nat)
    requires |xs| == 100 && k <= 100 && ChecksFrom(xs, k)
    ensures forall j :: k <= j < 100 ==> EntryFacts(xs, j)
    decreases 100 - k
  {
    if k < 100 {
      ChecksFromAll(xs, k + 1);
    }
  }

  /** The facts of every entry, once every entry is checked. */
  lemma {:induction false} TableFacts(xs: seq<real>)
    requires |xs| == 100 && ChecksFrom(xs, 0)
    ensures forall k :: 0 <= k < 99 ==> xs[k] < xs[k + 1]
    ensures forall k :: 0 <= k < 100 ==> -1.0 < xs[k] < 1.0
    ensures forall k :: 0 <= k < 100 ==> (k < 50 ==> xs[k] < 0.0) && (50 <= k ==> xs[k] > 0.0)
    ensures forall k :: 0 <= k < 100 ==> -0.00000000000000001 < xs[k] + xs[99 - k] < 0.00000000000000001
  {
    ChecksFromAll(xs, 0);
    forall k | 0 <= k < 100
      ensures -1.0 < xs[k] < 1.0
      ensures (k < 50 ==> xs[k] < 0.0) && (50 <= k ==> xs[k] > 0.0)
      ensures -0.00000000000000001 < xs[k] + xs[99 - k] < 0.00000000000000001
      ensures k < 99 ==> xs[k] < xs[k + 1]
    {
      assert EntryFacts(xs, k);
    }
  }

  /**
   * The table is strictly increasing and lies in (-1, 1); its first half is
   * negative and its second half positive; and it is antisymmetric about the
   * middle up to the last written digit: |x[k] + x[99-k]| < 1e-17.
   */
  lemma AbscissaTable()
    ensures |Abscissas| == 100
    ensures forall k :: 0 <= k < 99 ==> Abscissas[k] < Abscissas[k + 1]
    ensures forall k :: 0 <= k < 100 ==> -1.0 < Abscissas[k] < 1.0
    ensures forall k :: 0 <= k < 100 ==> (k < 50 ==> Abscissas[k] < 0.0) && (50 <= k ==> Abscissas[k] > 0.0)
    ensures forall k :: 0 <= k < 100 ==>
      -0.00000000000000001 < Abscissas[k] + Abscissas[99 - k] < 0.00000000000000001
  {
    TableChecks0();
    TableFacts(Abscissas);
  }

  // ---------------------------------------------------------------------
  // The radii rx and the table fs
  // ---------------------------------------------------------------------

  lemma MulPositive(a: real, b: real)
    requires a > 0.0 && b > 0.0
    ensures a * b > 0.0
  {
  }

  /** rx = rCutVeryHard * 0.5 * (x + 1) with rCutVeryHard = rcut + 5.0, entry by entry */
  function Radii(rcut: real, x: seq<real>): (rx: seq<real>)
    ensures |rx| == |x|
  {
    seq(|x|, k requires 0 <= k < |x| => Scale(rcut + 5.0, x[k]))
  }

  /** One abscissa y in [-1, 1] scaled to [0, h]. */
  function Scale(h: real, y: real): real
  {
    h * 0.5 * (y + 1.0)
  }

  /** One radius: h/2 (y + 1) lies in (0, h) for y in (-1, 1). */
  lemma ScaleInside(h: real, y: real)
    requires h > 0.0 && -1.0 < y < 1.0
    ensures 0.0 < Scale(h, y) < h
  {
    var a := h * 0.5;
    MulPositive(a, y + 1.0);
    MulPositive(a, 1.0 - y);
    assert Scale(h, y) == a * (y + 1.0);
    assert a * (y + 1.0) + a * (1.0 - y) == a * 2.0 == h;
  }

  /** Two radii keep the order of their abscissas. */
  lemma ScaleStrict(h: real, a: real, b: real)
    requires h > 0.0 && a < b
    ensures Scale(h, a) < Scale(h, b)
  {
    MulPositive(h * 0.5, b - a);
    assert h * 0.5 * (b - a) == h * 0.5 * (b + 1.0) - h * 0.5 * (a + 1.0);
  }

  /**
   * For rcut + 5 > 0 an increasing table in (-1, 1) is mapped to increasing
   * radii strictly inside (0, rcut + 5).
   */
  lemma RadiiInRange(rcut: real, x: seq<real>)
    requires rcut + 5.0 > 0.0
    requires forall k :: 0 <= k < |x| ==> -1.0 < x[k] < 1.0
    requires forall k :: 0 <= k < |x| - 1 ==> x[k] < x[k + 1]
    ensures forall k :: 0 <= k < |x| ==> 0.0 < Radii(rcut, x)[k] < rcut + 5.0
    ensures forall k :: 0 <= k < |x| - 1 ==> Radii(rcut, x)[k] < Radii(rcut, x)[k + 1]
  {
    var h := rcut + 5.0;
    var rx := Radii(rcut, x);
    forall k | 0 <= k < |x|
      ensures 0.0 < rx[k] < h
    {
      ScaleInside(h, x[k]);
    }
    forall k | 0 <= k < |x| - 1
      ensures rx[k] < rx[k + 1]
    {
      ScaleStrict(h, x[k], x[k + 1]);
    }
  }

  /** np.clip(v, lo, hi) = minimum(maximum(v, lo), hi); for lo > hi it is hi. */
  function Clip(v: real, lo: real, hi: real): real
  {
    var m := if v < lo then lo else v;
    if m > hi then hi else m
  }

  /** fs[n-1, k] = (rcut - clip(rx[k], 0, rcut)) ** (n + 2) */
  function Shape(rcut: real, r: real, n: nat): real
  {
    Pow(rcut - Clip(r, 0.0, rcut), n + 2)
  }

  /** fs is never negative, whatever the sign of rcut. */
  lemma ShapeNonNegative(rcut: real, r: real, n: nat)
    ensures Shape(rcut, r, n) >= 0.0
  {
    PowNonNegative(rcut - Clip(r, 0.0, rcut), n + 2);
  }

  /** On a radius r >= 0, fs vanishes exactly at and beyond the cutoff. */
  lemma ShapeVanishes(rcut: real, r: real, n: nat)
    requires r >= 0.0
    ensures Shape(rcut, r, n) == 0.0 <==> r >= rcut
  {
    var base := rcut - Clip(r, 0.0, rcut);
    if r >= rcut {
      assert base == 0.0;
      assert Pow(base, n + 2) == base * Pow(base, n + 1);
    } else {
      assert base == rcut - r > 0.0;
      PowPositive(base, n + 2);
    }
  }

  /** The nmax x 100 table fs on the radii rx, as rows. */
  function ShapeRows(rcut: real, rx: seq<real>, nmax: nat): seq<seq<real>>
  {
    seq(nmax, a requires 0 <= a < nmax => seq(|rx|, k requires 0 <= k < |rx| => Shape(rcut, rx[k], a + 1)))
  }

  /** The loop of get_basis_poly that fills fs = np.zeros([nmax, 100]) row by row. */
  method ShapeTable(rcut: real, rx: seq<real>, nmax: nat) returns (fs: array2<real>)
    requires |rx| == 100
    ensures fresh(fs)
    ensures Matrix(fs) == ShapeRows(rcut, rx, nmax)
  {
    fs := new real[nmax, 100]((a, k) => 0.0);
    // n of the source runs from 1 to nmax; here it is a + 1.
    for a := 0 to nmax
      invariant forall a', k :: 0 <= a' < a && 0 <= k < 100 ==> fs[a', k] == Shape(rcut, rx[k], a' + 1)
    {
      for k := 0 to 100
        invariant forall a', c :: 0 <= a' < a && 0 <= c < 100 ==> fs[a', c] == Shape(rcut, rx[c], a' + 1)
        invariant forall c :: 0 <= c < k ==> fs[a, c] == Shape(rcut, rx[c], a + 1)
      {
        fs[a, k] := Pow(rcut - Clip(rx[k], 0.0, rcut), (a + 1) + 2);
      }
    }
    forall a | 0 <= a < nmax
      ensures Matrix(fs)[a] == ShapeRows(rcut, rx, nmax)[a]
    {
      assert forall k :: 0 <= k < 100 ==> Matrix(fs)[a][k] == ShapeRows(rcut, rx, nmax)[a][k];
    }
  }

  // ---------------------------------------------------------------------
  // get_basis_poly
  // ---------------------------------------------------------------------

  /**
   * sqrtm(inv(S)): a real matrix, a complex one (the real square root does
   * not exist), or the failure of inv on a singular S.
   */
  datatype Root = RealRoot(betas: seq<seq<real>>) | ComplexRoot | SingularMatrix

  /** nmax, rx, and the betas and fs whose product np.dot(betas, fs) is gss. */
  datatype PolyBasis = PolyBasis(nmax: nat, rx: seq<real>, betas: seq<seq<real>>, fs: seq<seq<real>>)

  const ComplexMessage: string :=
    "Could not calculate normalization factors for the polynomial basis in the domain of real numbers. "
    + "Lowering the number of radial basis functions is advised."

  /** What get_basis_poly returns or raises; `lowdin` is sqrtm(inv(.)). */
  function BasisPoly(rcut: real, nmax: int, lowdin: seq<seq<real>> -> Root): Result<PolyBasis, string>
  {
    if nmax < 0 then Failure("negative dimensions are not allowed")
    else
      match lowdin(OverlapRows(rcut, nmax))
      case SingularMatrix => Failure("Singular matrix")
      case ComplexRoot => Failure(ComplexMessage)
      case RealRoot(betas) =>
        var rx := Radii(rcut, Abscissas);
        Success(PolyBasis(nmax, rx, betas, ShapeRows(rcut, rx, nmax)))
  }

  method GetBasisPoly(rcut: real, nmax: int, lowdin: seq<seq<real>> -> Root) returns (r: Result<PolyBasis, string>)
    ensures r == BasisPoly(rcut, nmax, lowdin)
  {
    if nmax < 0 {
      return Failure("negative dimensions are not allowed");
    }
    var S := OverlapMatrix(rcut, nmax);
    var root := lowdin(Matrix(S));
    if root.SingularMatrix? {
      return Failure("Singular matrix");
    }
    if root.ComplexRoot? {
      return Failure(ComplexMessage);
    }
    var x := Abscissas;
    var rx := Radii(rcut, x);
    var fs := ShapeTable(rcut, rx, nmax);
    r := Success(PolyBasis(nmax, rx, root.betas, Matrix(fs)));
  }

  /**
   * get_basis_poly raises for a negative nmax (np.zeros), for a singular S
   * (inv) and for a complex root (the ValueError), and for nothing else.
   */
  lemma BasisPolyErrors(rcut: real, nmax: int, lowdin: seq<seq<real>> -> Root)
    ensures BasisPoly(rcut, nmax, lowdin).Failure? <==>
      nmax < 0 || !lowdin(OverlapRows(rcut, nmax)).RealRoot?
    ensures nmax >= 0 && lowdin(OverlapRows(rcut, nmax)).ComplexRoot? ==>
      BasisPoly(rcut, nmax, lowdin) == Failure(ComplexMessage)
  {
  }

  /**
   * The radii and shape rows built from any 100 increasing abscissas in
   * (-1, 1): radii increasing in (0, rcut + 5); shape rows of width 100,
   * never negative, and zero exactly where the radius reaches rcut.
   */
  lemma {:induction false} TablesFrom(rcut: real, x: seq<real>, nmax: nat)
    requires rcut + 5.0 > 0.0
    requires |x| == 100
    requires forall k :: 0 <= k < 100 ==> -1.0 < x[k] < 1.0
    requires forall k :: 0 <= k < 99 ==> x[k] < x[k + 1]
    ensures var rx := Radii(rcut, x); var fs := ShapeRows(rcut, rx, nmax);
      && |rx| == 100
      && (forall k :: 0 <= k < 100 ==> 0.0 < rx[k] < rcut + 5.0)
      && (forall k :: 0 <= k < 99 ==> rx[k] < rx[k + 1])
      && |fs| == nmax
      && (forall n :: 0 <= n < nmax ==> |fs[n]| == 100)
      && (forall n, k :: 0 <= n < nmax && 0 <= k < 100 ==> fs[n][k] >= 0.0)
      && (forall n, k :: 0 <= n < nmax && 0 <= k < 100 ==> (fs[n][k] == 0.0 <==> rx[k] >= rcut))
  {
    var rx := Radii(rcut, x);
    var fs := ShapeRows(rcut, rx, nmax);
    RadiiInRange(rcut, x);
    forall n, k | 0 <= n < nmax && 0 <= k < 100
      ensures fs[n][k] >= 0.0 && (fs[n][k] == 0.0 <==> rx[k] >= rcut)
    {
      assert fs[n][k] == Shape(rcut, rx[k], n + 1);
      ShapeNonNegative(rcut, rx[k], n + 1);
      ShapeVanishes(rcut, rx[k], n + 1);
    }
  }

  /**
   * On success: nmax is returned unchanged; rx has 100 increasing radii in
   * (0, rcut + 5); fs is nmax x 100, never negative, and zero exactly where
   * rx[k] >= rcut.
   */
  lemma BasisPolyTables(rcut: real, nmax: int, lowdin: seq<seq<real>> -> Root)
    requires BasisPoly(rcut, nmax, lowdin).Success?
    requires rcut + 5.0 > 0.0
    ensures var b := BasisPoly(rcut, nmax, lowdin).value;
      && b.nmax == nmax
      && |b.rx| == 100
      && (forall k :: 0 <= k < 100 ==> 0.0 < b.rx[k] < rcut + 5.0)
      && (forall k :: 0 <= k < 99 ==> b.rx[k] < b.rx[k + 1])
      && |b.fs| == nmax
      && (forall n :: 0 <= n < nmax ==> |b.fs[n]| == 100)
      && (forall n, k :: 0 <= n < nmax && 0 <= k < 100 ==> b.fs[n][k] >= 0.0)
      && (forall n, k :: 0 <= n < nmax && 0 <= k < 100 ==> (b.fs[n][k] == 0.0 <==> b.rx[k] >= rcut))
  {
    AbscissaTable();
    TablesFrom(rcut, Abscissas, nmax);
  }
}
