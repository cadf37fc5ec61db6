/**
 * The string keys of getK2MapCython and getK3MapCython: an index key is
 * written with `stringstream <<` as its integers in decimal, separated by
 * commas ("1,0" for the pair (1, 0), "-2,0,3" for a triple).  The parser
 * here is an inverse of that writing; it shows that distinct index keys get
 * distinct strings, so the re-keyed maps keep one entry per index key.
 */
module MbtrStrings {
  import opened MbtrIndices
  import opened Grouping

  function DigitChar(d: nat): char
    requires d < 10
  {
    "0123456789"[d]
  }

  function DigitValue(c: char): nat
  {
    if '0' <= c <= '9' then (c as int - '0' as int) as nat else 0
  }

  lemma DigitRoundTrip(d: nat)
    requires d < 10
    ensures DigitValue(DigitChar(d)) == d
    ensures '0' <= DigitChar(d) <= '9'
  {
  }

  /** The decimal digits of `n`, most significant first, no leading zero. */
  function NatToString(n: nat): (s: string)
    ensures 0 < |s| && '0' <= s[0] <= '9'
    ensures forall c :: c in s ==> '0' <= c <= '9'
  {
    if n < 10 then [DigitChar(n)] else NatToString(n / 10) + [DigitChar(n % 10)]
  }

  /** `ss << n` for an int: a minus sign, then the digits of |n|. */
  function IntToString(n: int): (s: string)
    ensures 0 < |s|
    ensures ',' !in s
    ensures s[0] == '-' <==> n < 0
  {
    if n < 0 then "-" + NatToString(-n) else NatToString(n)
  }

  /** The value of a string of decimal digits. */
  function ParseNat(s: string): nat
  {
    if s == [] then 0 else ParseNat(s[..|s| - 1]) * 10 + DigitValue(s[|s| - 1])
  }

  function ParseInt(s: string): int
  {
    if s != [] && s[0] == '-' then -(ParseNat(s[1..]) as int) else ParseNat(s)
  }

  lemma {:induction false} NatRoundTrip(n: nat)
    ensures ParseNat(NatToString(n)) == n
  {
    if n < 10 {
      DigitRoundTrip(n);
      assert [DigitChar(n)][..0] == [];
    } else {
      var s := NatToString(n);
      assert s[..|s| - 1] == NatToString(n / 10);
      NatRoundTrip(n / 10);
      DigitRoundTrip(n % 10);
    }
  }

  lemma IntRoundTrip(n: int)
    ensures ParseInt(IntToString(n)) == n
  {
    if n < 0 {
      var t := NatToString(-n);
      var s := "-" + t;
      assert s[0] == '-' && s[1..] == t;
      NatRoundTrip(-n);
      assert ParseInt(s) == -(ParseNat(t) as int);
    } else {
      var s := NatToString(n);
      assert s[0] != '-';
      NatRoundTrip(n);
      assert ParseInt(s) == ParseNat(s);
    }
  }

  /** The position of the first comma of `s`, or |s| when there is none. */
  function FirstComma(s: string): (p: nat)
    ensures p <= |s|
    ensures ',' !in s[..p]
    ensures p < |s| ==> s[p] == ','
  {
    if s == [] then 0
    else if s[0] == ',' then 0
    else
      var p := FirstComma(s[1..]);
      assert s[..p + 1] == [s[0]] + s[1..][..p];
      p + 1
  }

  lemma {:induction false} FirstCommaAfter(a: string, b: string)
    requires ',' !in a
    ensures FirstComma(a + "," + b) == |a|
  {
    if a != [] {
      assert (a + "," + b)[1..] == a[1..] + "," + b;
      assert a[0] in a;
      FirstCommaAfter(a[1..], b);
    }
  }

  /** The key string of a k=2 index: "i,j". */
  function FormatKey2(x: Index2): string
  {
    IntToString(x.i) + "," + IntToString(x.j)
  }

  /** The key string of a k=3 index: "i,j,k". */
  function FormatKey3(x: Index3): string
  {
    IntToString(x.i) + "," + IntToString(x.j) + "," + IntToString(x.k)
  }

  /** Reads two comma-separated integers back. */
  function ParseKey2(s: string): Index2
  {
    var p := FirstComma(s);
    Index2(ParseInt(s[..p]), if p < |s| then ParseInt(s[p + 1..]) else 0)
  }

  /** Reads three comma-separated integers back. */
  function ParseKey3(s: string): Index3
  {
    var p := FirstComma(s);
    var rest := if p < |s| then s[p + 1..] else [];
    var x := ParseKey2(rest);
    Index3(ParseInt(s[..p]), x.i, x.j)
  }

  lemma Key2RoundTrip(x: Index2)
    ensures ParseKey2(FormatKey2(x)) == x
  {
    var a, b := IntToString(x.i), IntToString(x.j);
    var s := a + "," + b;
    FirstCommaAfter(a, b);
    assert s[..|a|] == a;
    assert s[|a| + 1..] == b;
    IntRoundTrip(x.i);
    IntRoundTrip(x.j);
  }

  lemma Key3RoundTrip(x: Index3)
    ensures ParseKey3(FormatKey3(x)) == x
  {
    var a, b, c := IntToString(x.i), IntToString(x.j), IntToString(x.k);
    var s := a + "," + b + "," + c;
    assert s == a + "," + (b + "," + c);
    FirstCommaAfter(a, b + "," + c);
    assert s[..|a|] == a;
    assert s[|a| + 1..] == b + "," + c;
    IntRoundTrip(x.i);
    Key2RoundTrip(Index2(x.j, x.k));
  }

  /** Distinct pairs are written as distinct strings. */
  lemma Key2Injective(x: Index2, y: Index2)
    ensures FormatKey2(x) == FormatKey2(y) <==> x == y
  {
    Key2RoundTrip(x);
    Key2RoundTrip(y);
  }

  /** Distinct triples are written as distinct strings. */
  lemma Key3Injective(x: Index3, y: Index3)
    ensures FormatKey3(x) == FormatKey3(y) <==> x == y
  {
    Key3RoundTrip(x);
    Key3RoundTrip(y);
  }

  /** Reading a written key gives the key back, for every key at once. */
  ghost predicate Inverts<K(!new)>(parse: string -> K, format: K -> string)
  {
    forall x :: parse(format(x)) == x
  }

  lemma AllKeys2RoundTrip()
    ensures Inverts(ParseKey2, FormatKey2)
  {
    forall x: Index2 ensures ParseKey2(FormatKey2(x)) == x { Key2RoundTrip(x); }
  }

  lemma AllKeys3RoundTrip()
    ensures Inverts(ParseKey3, FormatKey3)
  {
    forall x: Index3 ensures ParseKey3(FormatKey3(x)) == x { Key3RoundTrip(x); }
  }

  // ---------------------------------------------------------------------
  // Re-keying a map by the strings of its keys
  // ---------------------------------------------------------------------

  /** The strings of a set of keys. */
  ghost function KeyStrings<K(!new)>(ks: set<K>, format: K -> string): set<string>
  {
    set x | x in ks :: format(x)
  }

  /**
   * `r` is `m` re-keyed by the strings of its keys: its keys are the
   * strings of the keys of `m`, and each key's value sits under its string.
   */
  ghost predicate IsStringKeyed<K(!new), V>(r: map<string, V>, m: map<K, V>, format: K -> string)
  {
    r.Keys == KeyStrings(m.Keys, format) &&
    forall x :: x in m ==> r[format(x)] == m[x]
  }

  /**
   * A re-keyed map reads back: each of its strings parses to a key of `m`
   * holding the same value; it has one string per key; and it is determined
   * by `m`.
   */
  lemma StringKeyedFacts<K(!new), V>(r: map<string, V>, r': map<string, V>, m: map<K, V>,
                               format: K -> string, parse: string -> K)
    requires Inverts(parse, format)
    requires IsStringKeyed(r, m, format) && IsStringKeyed(r', m, format)
    ensures forall s :: s in r ==> parse(s) in m && r[s] == m[parse(s)]
    ensures |r| == |m|
    ensures r == r'
  {
    forall s | s in r ensures parse(s) in m && r[s] == m[parse(s)] {
      ReadBack(r, m, format, parse, s);
    }
    forall s | s in r ensures r[s] == r'[s] {
      ReadBack(r, m, format, parse, s);
      ReadBack(r', m, format, parse, s);
    }
    SameMaps(r, r');
    ImageSize(m.Keys, format, parse);
  }

  lemma ReadBack<K(!new), V>(r: map<string, V>, m: map<K, V>, format: K -> string, parse: string -> K, s: string)
    requires Inverts(parse, format) && IsStringKeyed(r, m, format) && s in r
    ensures parse(s) in m && r[s] == m[parse(s)]
  {
    assert s in KeyStrings(m.Keys, format);
    var x :| x in m && format(x) == s;
    assert parse(format(x)) == x;
  }

  /** Adding one entry to a map and its string to the re-keyed map keeps them re-keyed. */
  lemma StringKeyedPut<K(!new), V>(r: map<string, V>, m: map<K, V>, format: K -> string, parse: string -> K, x: K, v: V)
    requires Inverts(parse, format) && IsStringKeyed(r, m, format)
    ensures IsStringKeyed(r[format(x) := v], m[x := v], format)
  {
    var r', m' := r[format(x) := v], m[x := v];
    assert r'.Keys == KeyStrings(m'.Keys, format);
    forall y | y in m' ensures r'[format(y)] == m'[y] {
      if y != x {
        assert parse(format(y)) == y && parse(format(x)) == x;
      }
    }
  }

  /** Distinct keys have distinct strings, so a set of keys has as many strings as keys. */
  lemma {:induction false} ImageSize<K(!new)>(ks: set<K>, format: K -> string, parse: string -> K)
    requires Inverts(parse, format)
    ensures |KeyStrings(ks, format)| == |ks|
    decreases |ks|
  {
    if ks != {} {
      var y :| y in ks;
      var rest := ks - {y};
      ImageSize(rest, format, parse);
      assert KeyStrings(ks, format) == KeyStrings(rest, format) + {format(y)};
    }
  }

  /** Two maps with the same keys and the same value at each key are equal. */
  lemma SameMaps<K, V>(a: map<K, V>, b: map<K, V>)
    requires a.Keys == b.Keys && forall x :: x in a ==> a[x] == b[x]
    ensures a == b
  {
  }

  /** The distance lists of the Cython wrappers, looked up (default empty) under each geometry key. */
  function Aligned<K(!new)>(geom: map<K, seq<real>>, dist: map<K, seq<real>>): map<K, seq<real>>
  {
    map x | x in geom :: Get(dist, x)
  }

  /**
   * The state of the wrappers' loop once the keys outside `remaining` are
   * done: `doneGeom` and `doneDist` are the geometry map and the aligned
   * distance map on those keys, and the two string-keyed maps re-key them.
   */
  ghost predicate Stringified<K(!new)>(geom: map<K, seq<real>>, dist: map<K, seq<real>>, remaining: set<K>,
                                 cythonGeom: map<string, seq<real>>, cythonDist: map<string, seq<real>>,
                                 doneGeom: map<K, seq<real>>, doneDist: map<K, seq<real>>, format: K -> string)
  {
    remaining <= geom.Keys &&
    doneGeom.Keys == doneDist.Keys == geom.Keys - remaining &&
    (forall x :: x in doneGeom ==> doneGeom[x] == geom[x] && doneDist[x] == Get(dist, x)) &&
    IsStringKeyed(cythonGeom, doneGeom, format) && IsStringKeyed(cythonDist, doneDist, format)
  }

  /** Storing one more key keeps the loop's state. */
  lemma StringifyStep<K(!new)>(geom: map<K, seq<real>>, dist: map<K, seq<real>>, remaining: set<K>,
                         cythonGeom: map<string, seq<real>>, cythonDist: map<string, seq<real>>,
                         doneGeom: map<K, seq<real>>, doneDist: map<K, seq<real>>,
                         format: K -> string, parse: string -> K, x: K)
    requires Inverts(parse, format)
    requires Stringified(geom, dist, remaining, cythonGeom, cythonDist, doneGeom, doneDist, format) && x in remaining
    ensures Stringified(geom, dist, remaining - {x},
                        cythonGeom[format(x) := geom[x]], cythonDist[format(x) := Get(dist, x)],
                        doneGeom[x := geom[x]], doneDist[x := Get(dist, x)], format)
  {
    StringKeyedPut(cythonGeom, doneGeom, format, parse, x, geom[x]);
    StringKeyedPut(cythonDist, doneDist, format, parse, x, Get(dist, x));
  }

  /** Once no key remains, the string-keyed maps re-key the geometry map and the aligned distance map. */
  lemma StringifyDone<K(!new)>(geom: map<K, seq<real>>, dist: map<K, seq<real>>,
                         cythonGeom: map<string, seq<real>>, cythonDist: map<string, seq<real>>,
                         doneGeom: map<K, seq<real>>, doneDist: map<K, seq<real>>, format: K -> string)
    requires Stringified(geom, dist, {}, cythonGeom, cythonDist, doneGeom, doneDist, format)
    ensures IsStringKeyed(cythonGeom, geom, format)
    ensures IsStringKeyed(cythonDist, Aligned(geom, dist), format)
  {
    SameMaps(doneGeom, geom);
    SameMaps(doneDist, Aligned(geom, dist));
  }

  /**
   * The loop of getK2MapCython and getK3MapCython: for each geometry key,
   * store its geometry list and its distance list under the key's string.
   */
  method Stringify<K(!new)>(geom: map<K, seq<real>>, dist: map<K, seq<real>>, format: K -> string, ghost parse: string -> K)
    returns (cythonGeom: map<string, seq<real>>, cythonDist: map<string, seq<real>>)
    requires Inverts(parse, format)
    ensures IsStringKeyed(cythonGeom, geom, format)
    ensures IsStringKeyed(cythonDist, Aligned(geom, dist), format)
  {
    cythonGeom, cythonDist := map[], map[];
    ghost var doneGeom: map<K, seq<real>> := map[];
    ghost var doneDist: map<K, seq<real>> := map[];
    var remaining := geom.Keys;
    while remaining != {}
      invariant Stringified(geom, dist, remaining, cythonGeom, cythonDist, doneGeom, doneDist, format)
      decreases remaining
    {
      var x :| x in remaining;
      StringifyStep(geom, dist, remaining, cythonGeom, cythonDist, doneGeom, doneDist, format, parse, x);
      var stringKey := format(x);
      cythonGeom := cythonGeom[stringKey := geom[x]];
      cythonDist := cythonDist[stringKey := Get(dist, x)];
      doneGeom := doneGeom[x := geom[x]];
      doneDist := doneDist[x := Get(dist, x)];
      remaining := remaining - {x};
    }
    StringifyDone(geom, dist, cythonGeom, cythonDist, doneGeom, doneDist, format);
  }
}
