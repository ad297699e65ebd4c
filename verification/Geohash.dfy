/** Geohash encoding by interleaved bisection, over exact reals, with the decoding of a hash into its cell. */
module Geohash {

  const BASE32 := "0123456789bcdefghjkmnpqrstuvwxyz"

  /** A cell of the grid. */
  datatype Cell = Cell(latLo: real, latHi: real, lngLo: real, lngHi: real)

  const WORLD := Cell(-90.0, 90.0, -180.0, 180.0)

  predicate InWorld(lat: real, lng: real) {
    -90.0 <= lat <= 90.0 && -180.0 <= lng <= 180.0
  }

  /** Halve a cell: longitude when `even`, latitude otherwise; `upper` keeps the half from the middle up. */
  function Halve(c: Cell, even: bool, upper: bool): Cell {
    if even then
      var mid := (c.lngLo + c.lngHi) / 2.0;
      if upper then c.(lngLo := mid) else c.(lngHi := mid)
    else
      var mid := (c.latLo + c.latHi) / 2.0;
      if upper then c.(latLo := mid) else c.(latHi := mid)
  }

  /** The cell that a string of bits names. */
  function CellOf(bits: seq<bool>): Cell {
    if bits == [] then WORLD else Halve(CellOf(bits[..|bits| - 1]), (|bits| - 1) % 2 == 0, bits[|bits| - 1])
  }

  /** The half that a point falls into; a point on the middle goes up. */
  predicate UpperHalf(c: Cell, even: bool, lat: real, lng: real) {
    if even then lng >= (c.lngLo + c.lngHi) / 2.0 else lat >= (c.latLo + c.latHi) / 2.0
  }

  function Bits(lat: real, lng: real, n: nat): (bits: seq<bool>)
    ensures |bits| == n
  {
    if n == 0 then []
    else
      var before := Bits(lat, lng, n - 1);
      before + [UpperHalf(CellOf(before), (n - 1) % 2 == 0, lat, lng)]
  }

  // ---- text ---------------------------------------------------------------------

  function Number(bits: seq<bool>): nat {
    if bits == [] then 0 else 2 * Number(bits[..|bits| - 1]) + (if bits[|bits| - 1] then 1 else 0)
  }

  lemma {:induction false} NumberBound(bits: seq<bool>)
    ensures Number(bits) < Pow2(|bits|)
  {
    if bits != [] {
      NumberBound(bits[..|bits| - 1]);
    }
  }

  function Pow2(n: nat): nat {
    if n == 0 then 1 else 2 * Pow2(n - 1)
  }

  lemma {:induction false} NumberInjective(a: seq<bool>, b: seq<bool>)
    requires |a| == |b| && Number(a) == Number(b)
    ensures a == b
  {
    if a != [] {
      NumberInjective(a[..|a| - 1], b[..|b| - 1]);
      assert a == a[..|a| - 1] + [a[|a| - 1]] && b == b[..|b| - 1] + [b[|b| - 1]];
    }
  }

  lemma FiveBits(bits: seq<bool>)
    requires |bits| == 5
    ensures Number(bits) < 32
  {
    NumberBound(bits);
    assert Pow2(5) == 32;
  }

  function Symbol(v: nat): char
    requires v < 32
  {
    assert |BASE32| == 32;
    BASE32[v]
  }

  /** The alphabet: digits and small letters without a, i, l and o. */
  lemma AlphabetIs(c: char)
    ensures c in BASE32 <==> ('0' <= c <= '9' || 'a' <= c <= 'z') && c !in "ailo"
  {
    if c in "ailo" {
      LeftOut(c);
    }
    if c in BASE32 {
      InRange(c);
    }
    if ('0' <= c <= '9' || 'a' <= c <= 'z') && c !in "ailo" {
      PlaceOf(c);
    }
    hide BASE32;
  }

  lemma LeftOut(c: char)
    requires c == 'a' || c == 'i' || c == 'l' || c == 'o'
    ensures c !in BASE32
  {}

  lemma InRange(c: char)
    requires c in BASE32
    ensures '0' <= c <= '9' || 'a' <= c <= 'z'
  {}

  lemma PlaceOf(c: char)
    requires ('0' <= c <= '9' || 'a' <= c <= 'z') && c !in "ailo"
    ensures c in BASE32
  {
    var i := if c <= '9' then c as int - '0' as int
             else c as int - 'a' as int + 9 - (if c > 'o' then 3 else if c > 'l' then 2 else if c > 'i' then 1 else 0);
    assert BASE32[i] == c;
  }

  /** Five bits a character. */
  function Text(bits: seq<bool>): string
    requires |bits| % 5 == 0
  {
    if bits == [] then ""
    else
      var last := bits[|bits| - 5..];
      FiveBits(last);
      Text(bits[..|bits| - 5]) + [Symbol(Number(last))]
  }

  predicate IsSymbol(c: char) {
    c in BASE32
  }

  ghost predicate IsHash(s: string) {
    forall i :: 0 <= i < |s| ==> IsSymbol(s[i])
  }

  ghost function Digit(c: char): (i: nat)
    requires IsSymbol(c)
    ensures i < 32 && Symbol(i) == c
  {
    assert |BASE32| == 32;
    var i :| 0 <= i < |BASE32| && BASE32[i] == c;
    i
  }

  function FromNumber(v: nat, n: nat): (bits: seq<bool>)
    ensures |bits| == n
  {
    if n == 0 then [] else FromNumber(v / 2, n - 1) + [v % 2 == 1]
  }

  ghost function BitsOf(s: string): (bits: seq<bool>)
    requires IsHash(s)
    ensures |bits| == 5 * |s|
  {
    if s == "" then [] else BitsOf(s[..|s| - 1]) + FromNumber(Digit(s[|s| - 1]), 5)
  }

  /** The cell of a hash. */
  ghost function Decode(s: string): Cell
    requires IsHash(s)
  {
    CellOf(BitsOf(s))
  }

  /** The hash of a point; a negative precision asks for nothing. */
  function Hash(lat: real, lng: real, precision: int): string {
    if precision <= 0 then "" else Text(Bits(lat, lng, 5 * precision))
  }

  // ---- the loop ---------------------------------------------------------------------

  lemma BitsExtend(lat: real, lng: real, k: nat)
    ensures Bits(lat, lng, k + 1) == Bits(lat, lng, k) + [UpperHalf(CellOf(Bits(lat, lng, k)), k % 2 == 0, lat, lng)]
  {}

  lemma CellExtend(bits: seq<bool>, b: bool)
    ensures CellOf(bits + [b]) == Halve(CellOf(bits), |bits| % 2 == 0, b)
    ensures Number(bits + [b]) == 2 * Number(bits) + (if b then 1 else 0)
  {
    assert (bits + [b])[..|bits|] == bits;
  }

  lemma TextExtend(bits: seq<bool>, five: seq<bool>)
    requires |bits| % 5 == 0 && |five| == 5
    ensures Number(five) < 32 && Text(bits + five) == Text(bits) + [Symbol(Number(five))]
  {
    hide Symbol, Number;
    FiveBits(five);
    var all := bits + five;
    assert all[|all| - 5..] == five && all[..|all| - 5] == bits;
    assert |all| % 5 == 0 && all != [];
  }

  /** The loop state: `done` are the bits already written out, `open` those of the unfinished character. */
  ghost predicate Encoding(lat: real, lng: real, cell: Cell, even: bool, out: string, bits: nat, done: seq<bool>, open: seq<bool>) {
    && |done| == 5 * |out| && out == Text(done) && bits == Number(open)
    && done + open == Bits(lat, lng, |done| + |open|)
    && cell == CellOf(done + open) && even == (|done + open| % 2 == 0)
  }

  lemma EncodingStep(lat: real, lng: real, cell: Cell, even: bool, out: string, bits: nat, done: seq<bool>, open: seq<bool>)
    requires Encoding(lat, lng, cell, even, out, bits, done, open)
    ensures var upper := UpperHalf(cell, even, lat, lng);
            Encoding(lat, lng, Halve(cell, even, upper), !even, out, if upper then 2 * bits + 1 else 2 * bits, done, open + [upper])
  {
    hide Bits, CellOf, Number, Text, UpperHalf, Halve;
    var upper := UpperHalf(cell, even, lat, lng);
    BitsExtend(lat, lng, |done| + |open|);
    CellExtend(done + open, upper);
    CellExtend(open, upper);
    assert done + (open + [upper]) == (done + open) + [upper];
  }

  lemma EncodingFlush(lat: real, lng: real, cell: Cell, even: bool, out: string, bits: nat, done: seq<bool>, open: seq<bool>)
    requires Encoding(lat, lng, cell, even, out, bits, done, open) && |open| == 5
    ensures bits < 32 && Encoding(lat, lng, cell, even, out + [Symbol(bits)], 0, done + open, [])
  {
    hide Bits, CellOf, Number, Text, Symbol;
    TextExtend(done, open);
    NothingEncoded(lat, lng);
    assert done + open + [] == done + open;
  }

  lemma EncodingStart(lat: real, lng: real)
    ensures Encoding(lat, lng, WORLD, true, "", 0, [], [])
  {}

  method Encode(lat: real, lng: real, precision: int) returns (hash: string)
    ensures hash == Hash(lat, lng, precision)
  {
    hide *;
    var cell := Cell(-90.0, 90.0, -180.0, 180.0);
    var out, bits: nat, count, even := "", 0, 0, true;
    ghost var done: seq<bool>, open: seq<bool> := [], [];
    EncodingStart(lat, lng);
    WorldIs();
    while |out| < precision
      invariant precision <= 0 ==> done == []
      invariant precision > 0 ==> |out| <= precision && (|out| == precision ==> open == [])
      invariant Encoding(lat, lng, cell, even, out, bits, done, open) && |open| == count < 5
      decreases precision - |out|, 5 - count
    {
      EncodingStep(lat, lng, cell, even, out, bits, done, open);
      var upper := UpperHalf(cell, even, lat, lng);
      cell := Halve(cell, even, upper);
      bits := if upper then 2 * bits + 1 else 2 * bits;
      open := open + [upper];
      even := !even;
      count := count + 1;
      if count == 5 {
        EncodingFlush(lat, lng, cell, even, out, bits, done, open);
        out := out + [Symbol(bits)];
        done, open := done + open, [];
        bits, count := 0, 0;
      }
    }
    hash := out;
    EncodingEnd(lat, lng, precision, cell, even, out, bits, done, open);
  }

  lemma WorldIs()
    ensures WORLD == Cell(-90.0, 90.0, -180.0, 180.0)
  {}

  lemma EncodingEnd(lat: real, lng: real, precision: int, cell: Cell, even: bool, out: string, bits: nat, done: seq<bool>, open: seq<bool>)
    requires Encoding(lat, lng, cell, even, out, bits, done, open)
    requires if precision <= 0 then done == [] else |out| == precision && open == []
    ensures out == Hash(lat, lng, precision)
  {
    hide Bits, CellOf, Number, Text, Hash;
    assert done + [] == done;
    FullyEncoded(lat, lng, precision, done);
  }

  lemma NothingEncoded(lat: real, lng: real)
    ensures Bits(lat, lng, 0) == [] && CellOf([]) == WORLD && Text([]) == "" && Number([]) == 0
  {}

  lemma FullyEncoded(lat: real, lng: real, precision: int, done: seq<bool>)
    requires |done| % 5 == 0
    ensures precision <= 0 && done == [] ==> Text(done) == Hash(lat, lng, precision)
    ensures precision > 0 && done == Bits(lat, lng, 5 * precision) ==> Text(done) == Hash(lat, lng, precision)
  {
    hide Bits;
  }

  // ---- the cell of a point ----------------------------------------------------------------

  /** Bounds in order, and the point inside; the upper bounds are reached only at the edge of the world. */
  ghost predicate Contains(c: Cell, lat: real, lng: real) {
    && c.latLo <= lat <= c.latHi && (lat < c.latHi || c.latHi == 90.0)
    && c.lngLo <= lng <= c.lngHi && (lng < c.lngHi || c.lngHi == 180.0)
  }

  /** An in-range point lies in its cell; cells are half open except at the edge of the world. */
  lemma {:induction false} PointInCell(lat: real, lng: real, n: nat)
    requires InWorld(lat, lng)
    ensures Contains(CellOf(Bits(lat, lng, n)), lat, lng)
  {
    if n > 0 {
      PointInCell(lat, lng, n - 1);
      BitsExtend(lat, lng, n - 1);
      var before := Bits(lat, lng, n - 1);
      CellExtend(before, UpperHalf(CellOf(before), (n - 1) % 2 == 0, lat, lng));
      hide CellOf, Bits;
    }
  }

  lemma HalfOf(w: real, p: nat)
    requires p > 0
    ensures (w / p as real) / 2.0 == w / (2 * p) as real
  {
    var q := w / p as real;
    assert q * p as real == w;
    assert (2 * p) as real == 2.0 * p as real;
    assert (q / 2.0) * (2.0 * p as real) == q * p as real;
  }

  lemma {:induction false} Pow2Positive(n: nat)
    ensures Pow2(n) > 0
  {
    if n > 0 {
      Pow2Positive(n - 1);
    }
  }

  /** The width of a cell of `n` bits, in degrees of longitude. */
  function Width(n: nat): real {
    Pow2Positive((n + 1) / 2);
    360.0 / Pow2((n + 1) / 2) as real
  }

  /** The height of a cell of `n` bits, in degrees of latitude. */
  function Height(n: nat): real {
    Pow2Positive(n / 2);
    180.0 / Pow2(n / 2) as real
  }

  lemma SizeStep(n: nat)
    ensures Width(n + 1) == (if n % 2 == 0 then Width(n) / 2.0 else Width(n))
    ensures Height(n + 1) == (if n % 2 == 0 then Height(n) else Height(n) / 2.0)
  {
    hide Pow2;
    Pow2Positive((n + 1) / 2);
    Pow2Positive(n / 2);
    if n % 2 == 0 {
      assert (n + 2) / 2 == (n + 1) / 2 + 1 && (n + 1) / 2 == n / 2;
      Pow2Step(n / 2);
      HalfOf(360.0, Pow2(n / 2));
    } else {
      assert (n + 1) / 2 == n / 2 + 1 && (n + 2) / 2 == (n + 1) / 2;
      Pow2Step(n / 2);
      HalfOf(180.0, Pow2(n / 2));
    }
  }

  lemma Pow2Step(n: nat)
    ensures Pow2(n + 1) == 2 * Pow2(n)
  {}

  /** After n bits a cell is 360 / 2^ceil(n/2) by 180 / 2^floor(n/2). */
  lemma {:induction false} CellSize(bits: seq<bool>)
    ensures var c := CellOf(bits);
            c.lngHi - c.lngLo == Width(|bits|) && c.latHi - c.latLo == Height(|bits|)
  {
    hide *;
    if bits == [] {
      WorldSize();
    } else {
      var n := |bits| - 1;
      var before, b := bits[..n], bits[n];
      assert bits == before + [b];
      CellSize(before);
      CellExtend(before, b);
      HalvedSize(CellOf(before), n % 2 == 0, b);
      SizeStep(n);
    }
  }

  lemma WorldSize()
    ensures var c := CellOf([]); c.lngHi - c.lngLo == Width(0) && c.latHi - c.latLo == Height(0)
  {}

  lemma HalvedSize(c: Cell, even: bool, upper: bool)
    ensures var h := Halve(c, even, upper);
            && h.lngHi - h.lngLo == (if even then (c.lngHi - c.lngLo) / 2.0 else c.lngHi - c.lngLo)
            && h.latHi - h.latLo == (if even then c.latHi - c.latLo else (c.latHi - c.latLo) / 2.0)
  {}

  // ---- prefixes and collisions -------------------------------------------------------------

  lemma {:induction false} BitsPrefix(lat: real, lng: real, m: nat, n: nat)
    requires m <= n
    ensures Bits(lat, lng, m) <= Bits(lat, lng, n)
  {
    hide *;
    if m < n {
      BitsPrefix(lat, lng, m, n - 1);
      BitsExtend(lat, lng, n - 1);
    }
  }

  lemma {:induction false} TextPrefix(a: seq<bool>, b: seq<bool>)
    requires |a| % 5 == 0 && |b| % 5 == 0 && a <= b
    ensures Text(a) <= Text(b) && |Text(b)| == |b| / 5
    decreases |b|
  {
    if |a| < |b| {
      assert a <= b[..|b| - 5];
      TextPrefix(a, b[..|b| - 5]);
    } else {
      assert a == b;
      TextLength(b);
    }
  }

  lemma {:induction false} TextLength(b: seq<bool>)
    requires |b| % 5 == 0
    ensures |Text(b)| == |b| / 5
  {
    if b != [] {
      TextLength(b[..|b| - 5]);
    }
  }

  /** A shorter hash of a point is a prefix of a longer one. */
  lemma HashPrefix(lat: real, lng: real, p: int, q: int)
    requires p <= q
    ensures Hash(lat, lng, p) <= Hash(lat, lng, q)
  {
    hide *;
    if p <= 0 {
      NothingEncoded(lat, lng);
      FullyEncoded(lat, lng, p, []);
      assert Hash(lat, lng, p) == "";
    } else {
      var a, b := Bits(lat, lng, 5 * p), Bits(lat, lng, 5 * q);
      FullyEncoded(lat, lng, p, a);
      FullyEncoded(lat, lng, q, b);
      BitsPrefix(lat, lng, 5 * p, 5 * q);
      TextPrefix(a, b);
    }
  }

  lemma SymbolsStep(a: nat)
    requires a < 31
    ensures Symbol(a) < Symbol(a + 1)
  {}

  lemma {:induction false} SymbolsAscend(a: nat, b: nat)
    requires a < b < 32
    ensures Symbol(a) < Symbol(b)
  {
    hide Symbol;
    SymbolsStep(b - 1);
    if a < b - 1 {
      SymbolsAscend(a, b - 1);
    }
  }

  lemma {:induction false} TextInjective(a: seq<bool>, b: seq<bool>)
    requires |a| == |b| && |a| % 5 == 0 && Text(a) == Text(b)
    ensures a == b
  {
    hide *;
    if a != [] {
      var n := |a| - 5;
      FiveBits(a[n..]);
      FiveBits(b[n..]);
      TextExtend(a[..n], a[n..]);
      TextExtend(b[..n], b[n..]);
      assert a == a[..n] + a[n..] && b == b[..n] + b[n..];
      assert Text(a)[..|Text(a)| - 1] == Text(a[..n]) && Text(b)[..|Text(b)| - 1] == Text(b[..n]);
      TextInjective(a[..n], b[..n]);
      if Number(a[n..]) < Number(b[n..]) {
        SymbolsAscend(Number(a[n..]), Number(b[n..]));
      } else if Number(b[n..]) < Number(a[n..]) {
        SymbolsAscend(Number(b[n..]), Number(a[n..]));
      }
      NumberInjective(a[n..], b[n..]);
    }
  }

  lemma SharedBits(lat: real, lng: real, lat': real, lng': real, precision: nat)
    requires Hash(lat, lng, precision) == Hash(lat', lng', precision)
    ensures Bits(lat, lng, 5 * precision) == Bits(lat', lng', 5 * precision)
  {
    hide *;
    NothingEncoded(lat, lng);
    NothingEncoded(lat', lng');
    if precision > 0 {
      FullyEncoded(lat, lng, precision, Bits(lat, lng, 5 * precision));
      FullyEncoded(lat', lng', precision, Bits(lat', lng', 5 * precision));
      TextInjective(Bits(lat, lng, 5 * precision), Bits(lat', lng', 5 * precision));
    }
  }

  /** Points with equal hashes are no further apart than one cell. */
  lemma EqualHashesAreClose(lat: real, lng: real, lat': real, lng': real, precision: nat)
    requires InWorld(lat, lng) && InWorld(lat', lng') && Hash(lat, lng, precision) == Hash(lat', lng', precision)
    ensures -Width(5 * precision) <= lng - lng' <= Width(5 * precision)
    ensures -Height(5 * precision) <= lat - lat' <= Height(5 * precision)
  {
    hide CellOf, Bits, Hash, Width, Height;
    var n := 5 * precision;
    SharedBits(lat, lng, lat', lng', precision);
    PointInCell(lat, lng, n);
    PointInCell(lat', lng', n);
    CellSize(Bits(lat, lng, n));
  }

  // ---- decoding ---------------------------------------------------------------------------

  ghost predicate Proper(c: Cell) {
    c.latLo < c.latHi && c.lngLo < c.lngHi
  }

  /** A longer bit string names a smaller cell. */
  lemma {:induction false} CellNested(bits: seq<bool>, n: nat)
    requires n <= |bits|
    ensures var c, outer := CellOf(bits), CellOf(bits[..n]);
            Proper(c) && outer.latLo <= c.latLo && c.latHi <= outer.latHi && outer.lngLo <= c.lngLo && c.lngHi <= outer.lngHi
    decreases |bits|
  {
    if bits != [] {
      var before := bits[..|bits| - 1];
      if n < |bits| {
        CellNested(before, n);
        assert bits[..n] == before[..n];
      } else {
        CellNested(before, |before|);
        assert bits[..n] == bits;
      }
    } else {
      assert bits[..n] == bits;
    }
  }

  /** Encoding the low corner of a bit string's cell gives the bit string back. */
  lemma {:induction false} CornerBits(bits: seq<bool>, n: nat)
    requires n <= |bits|
    ensures var c := CellOf(bits); Bits(c.latLo, c.lngLo, n) == bits[..n]
  {
    if n > 0 {
      var c := CellOf(bits);
      CornerBits(bits, n - 1);
      CellNested(bits, n);
      var before, b := bits[..n - 1], bits[n - 1];
      assert bits[..n] == before + [b];
      CellExtend(before, b);
      BitsExtend(c.latLo, c.lngLo, n - 1);
      hide CellOf, Bits;
    }
  }

  lemma {:induction false} FromNumberInverse(v: nat, n: nat)
    requires v < Pow2(n)
    ensures Number(FromNumber(v, n)) == v
  {
    if n > 0 {
      FromNumberInverse(v / 2, n - 1);
      CellExtend(FromNumber(v / 2, n - 1), v % 2 == 1);
    }
  }

  lemma DigitBits(c: char)
    requires IsSymbol(c)
    ensures Number(FromNumber(Digit(c), 5)) == Digit(c)
  {
    assert Pow2(5) == 32;
    FromNumberInverse(Digit(c), 5);
  }

  /** The text of a hash's bits is the hash. */
  lemma {:induction false} TextOfBits(s: string, bits: seq<bool>)
    requires IsHash(s) && bits == BitsOf(s) && |bits| % 5 == 0
    ensures Text(bits) == s
  {
    hide Symbol, IsSymbol, Digit, Number, Text, Pow2;
    if s == "" {
      assert BitsOf(s) == [];
      NothingEncoded(0.0, 0.0);
    } else {
      var rest, c := s[..|s| - 1], s[|s| - 1];
      assert |BitsOf(rest)| == 5 * |rest|;
      TextOfBits(rest, BitsOf(rest));
      var five := FromNumber(Digit(c), 5);
      DigitBits(c);
      TextExtend(BitsOf(rest), five);
      assert s == rest + [c];
    }
  }

  /** Encoding inverts decoding: the low corner of any base-32 string's cell encodes to that string. */
  lemma EncodeOfCorner(s: string)
    requires IsHash(s)
    ensures Hash(Decode(s).latLo, Decode(s).lngLo, |s|) == s
  {
    hide *;
    var bits := BitsOf(s);
    DecodeDefinition(s);
    CornerBits(bits, |bits|);
    assert bits[..|bits|] == bits;
    TextOfBits(s, bits);
    FullyEncoded(Decode(s).latLo, Decode(s).lngLo, |s|, bits);
  }

  /** A point inside a half is inside the whole, and the half is the one its coordinate chooses. */
  lemma ContainedInHalf(c: Cell, even: bool, upper: bool, lat: real, lng: real)
    requires Proper(c) && c.latHi <= 90.0 && c.lngHi <= 180.0 && Contains(Halve(c, even, upper), lat, lng)
    ensures Contains(c, lat, lng) && upper == UpperHalf(c, even, lat, lng)
  {}

  lemma CellProper(bits: seq<bool>)
    ensures var c := CellOf(bits); Proper(c) && c.latHi <= 90.0 && c.lngHi <= 180.0
  {
    CellNested(bits, 0);
    assert bits[..0] == [] && CellOf([]) == WORLD;
    hide CellOf;
  }

  /** Only one cell of each size contains a point. */
  lemma {:induction false} CellUnique(bits: seq<bool>, lat: real, lng: real)
    requires Contains(CellOf(bits), lat, lng)
    ensures bits == Bits(lat, lng, |bits|)
  {
    if bits != [] {
      hide CellOf, Bits;
      var n := |bits| - 1;
      var before, b := bits[..n], bits[n];
      assert bits == before + [b];
      CellExtend(before, b);
      CellProper(before);
      ContainedInHalf(CellOf(before), n % 2 == 0, b, lat, lng);
      CellUnique(before, lat, lng);
      BitsExtend(lat, lng, n);
    }
  }

  /** A base-32 string is the hash of exactly the points in its cell. */
  lemma HashIffInCell(s: string, lat: real, lng: real)
    requires IsHash(s) && InWorld(lat, lng)
    ensures Hash(lat, lng, |s|) == s <==> Contains(Decode(s), lat, lng)
  {
    hide *;
    var bits := BitsOf(s);
    TextOfBits(s, bits);
    DecodeDefinition(s);
    FullyEncoded(lat, lng, |s|, Bits(lat, lng, 5 * |s|));
    NothingEncoded(lat, lng);
    if Contains(Decode(s), lat, lng) {
      CellUnique(bits, lat, lng);
    }
    if Hash(lat, lng, |s|) == s {
      PointInCell(lat, lng, 5 * |s|);
      TextInjective(bits, Bits(lat, lng, 5 * |s|));
    }
  }

  lemma DecodeDefinition(s: string)
    requires IsHash(s)
    ensures Decode(s) == CellOf(BitsOf(s))
  {}
}
