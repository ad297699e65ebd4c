/** Unpadded base64url (sections 5 and 3.2 of RFC 4648) with the canonical-form check of section 3.5. */
module Base64Url {
  import opened Options

  type Byte = x: int | 0 <= x < 256

  type Sextet = x: int | 0 <= x < 64

  function Symbol(v: Sextet): char {
    if v < 26 then 'A' + v as char
    else if v < 52 then 'a' + (v - 26) as char
    else if v < 62 then '0' + (v - 52) as char
    else if v == 62 then '-'
    else '_'
  }

  predicate IsSymbol(c: char) {
    'A' <= c <= 'Z' || 'a' <= c <= 'z' || '0' <= c <= '9' || c == '-' || c == '_'
  }

  predicate IsAlphabetic(s: string) {
    forall i :: 0 <= i < |s| ==> IsSymbol(s[i])
  }

  function Value(c: char): Sextet
    requires IsSymbol(c)
  {
    if 'A' <= c <= 'Z' then c as int - 'A' as int
    else if 'a' <= c <= 'z' then c as int - 'a' as int + 26
    else if '0' <= c <= '9' then c as int - '0' as int + 52
    else if c == '-' then 62
    else 63
  }

  lemma ValueOfSymbol(v: Sextet)
    ensures IsSymbol(Symbol(v)) && Value(Symbol(v)) == v
  {}

  lemma SymbolOfValue(c: char)
    requires IsSymbol(c)
    ensures Symbol(Value(c)) == c
  {}

  // ---- encoding ----------------------------------------------------------------------

  function Group(a: Byte, b: Byte, c: Byte): string {
    [Symbol(a / 4), Symbol(a % 4 * 16 + b / 16), Symbol(b % 16 * 4 + c / 64), Symbol(c % 64)]
  }

  /** Three bytes give four symbols; one or two left over give two or three, with the padding dropped. */
  function Encode(bytes: seq<Byte>): string {
    if |bytes| == 0 then ""
    else if |bytes| == 1 then Group(bytes[0], 0, 0)[..2]
    else if |bytes| == 2 then Group(bytes[0], bytes[1], 0)[..3]
    else Group(bytes[0], bytes[1], bytes[2]) + Encode(bytes[3..])
  }

  // ---- decoding ---------------------------------------------------------------------

  function Ungroup(p: Sextet, q: Sextet, r: Sextet, t: Sextet): seq<Byte> {
    [p * 4 + q / 16, q % 16 * 16 + r / 4, r % 4 * 64 + t]
  }

  /** The lenient decoder: trailing bits are dropped, a single symbol left over is an error. */
  function Raw(s: string): Option<seq<Byte>>
    requires IsAlphabetic(s)
  {
    if |s| == 0 then Some([])
    else if |s| == 1 then None
    else if |s| == 2 then Some(Ungroup(Value(s[0]), Value(s[1]), 0, 0)[..1])
    else if |s| == 3 then Some(Ungroup(Value(s[0]), Value(s[1]), Value(s[2]), 0)[..2])
    else
      match Raw(s[4..])
      case None => None
      case Some(rest) => Some(Ungroup(Value(s[0]), Value(s[1]), Value(s[2]), Value(s[3])) + rest)
  }

  /** Only a text that encodes back to itself is accepted. */
  function Decode(s: string): Option<seq<Byte>> {
    if s == "" || !IsAlphabetic(s) then None
    else
      match Raw(s)
      case None => None
      case Some(bytes) => if Encode(bytes) == s then Some(bytes) else None
  }

  // ---- the codec laws ------------------------------------------------------------------

  lemma UngroupGroup(a: Byte, b: Byte, c: Byte)
    ensures Ungroup(a / 4, a % 4 * 16 + b / 16, b % 16 * 4 + c / 64, c % 64) == [a, b, c]
  {}

  lemma GroupUngroup(p: Sextet, q: Sextet, r: Sextet, t: Sextet)
    ensures var u := Ungroup(p, q, r, t);
            u[0] / 4 == p && u[0] % 4 * 16 + u[1] / 16 == q && u[1] % 16 * 4 + u[2] / 64 == r && u[2] % 64 == t
  {}

  lemma GroupSymbols(a: Byte, b: Byte, c: Byte)
    ensures var g := Group(a, b, c);
            && |g| == 4 && (forall i :: 0 <= i < 4 ==> IsSymbol(g[i]))
            && Value(g[0]) == a / 4 && Value(g[1]) == a % 4 * 16 + b / 16
            && Value(g[2]) == b % 16 * 4 + c / 64 && Value(g[3]) == c % 64
  {
    ValueOfSymbol(a / 4);
    ValueOfSymbol(a % 4 * 16 + b / 16);
    ValueOfSymbol(b % 16 * 4 + c / 64);
    ValueOfSymbol(c % 64);
    hide Symbol, Value, IsSymbol;
  }

  lemma TailZero(a: Byte, b: Byte)
    ensures Ungroup(a / 4, a % 4 * 16, 0, 0)[..1] == [a]
    ensures Ungroup(a / 4, a % 4 * 16 + b / 16, b % 16 * 4, 0)[..2] == [a, b]
  {
    hide Ungroup;
    UngroupGroup(a, 0, 0);
    UngroupGroup(a, b, 0);
  }

  lemma RawTail(a: Byte, b: Byte)
    ensures var s := Group(a, 0, 0)[..2]; IsAlphabetic(s) && Raw(s) == Some([a])
    ensures var s := Group(a, b, 0)[..3]; IsAlphabetic(s) && Raw(s) == Some([a, b])
  {
    hide Value, IsSymbol, Group, Ungroup;
    GroupSymbols(a, 0, 0);
    GroupSymbols(a, b, 0);
    TailZero(a, b);
    var g, h := Group(a, 0, 0), Group(a, b, 0);
    assert g[..2][0] == g[0] && g[..2][1] == g[1];
    assert h[..3][0] == h[0] && h[..3][1] == h[1] && h[..3][2] == h[2];
  }

  lemma RawGroup(a: Byte, b: Byte, c: Byte, rest: string)
    requires IsAlphabetic(rest) && Raw(rest).Some?
    ensures var s := Group(a, b, c) + rest; IsAlphabetic(s) && Raw(s) == Some([a, b, c] + Raw(rest).value)
  {
    hide Value, IsSymbol, Group, Ungroup;
    GroupSymbols(a, b, c);
    UngroupGroup(a, b, c);
    assert (Group(a, b, c) + rest)[4..] == rest;
  }

  lemma {:induction false} RawOfEncode(bytes: seq<Byte>)
    ensures IsAlphabetic(Encode(bytes)) && Raw(Encode(bytes)) == Some(bytes)
    ensures Encode(bytes) == "" <==> bytes == []
  {
    hide Value, IsSymbol, Raw, Group, Ungroup, IsAlphabetic;
    if |bytes| == 0 {
      EmptyText();
    } else if |bytes| == 1 {
      RawTail(bytes[0], 0);
      GroupSymbols(bytes[0], 0, 0);
      assert bytes == [bytes[0]];
    } else if |bytes| == 2 {
      RawTail(bytes[0], bytes[1]);
      GroupSymbols(bytes[0], bytes[1], 0);
      assert bytes == [bytes[0], bytes[1]];
    } else {
      RawOfEncode(bytes[3..]);
      RawGroup(bytes[0], bytes[1], bytes[2], Encode(bytes[3..]));
      GroupSymbols(bytes[0], bytes[1], bytes[2]);
      assert bytes == [bytes[0], bytes[1], bytes[2]] + bytes[3..];
    }
  }

  lemma EmptyText()
    ensures IsAlphabetic("") && Raw("") == Some([])
  {}

  /** Decoding inverts encoding on everything but the empty text. */
  lemma DecodeOfEncode(bytes: seq<Byte>)
    ensures Decode(Encode(bytes)) == if bytes == [] then None else Some(bytes)
  {
    hide Raw, Encode;
    RawOfEncode(bytes);
  }

  /** An accepted text is the encoding of what it decodes to, so no two accepted texts decode alike. */
  lemma EncodeOfDecode(s: string)
    requires Decode(s).Some?
    ensures Encode(Decode(s).value) == s && Decode(s).value != []
  {
    hide Raw;
    RawOfEncode(Decode(s).value);
  }

  /** The unused low bits of the last symbol. */
  ghost predicate TrailingBitsZero(s: string)
    requires IsAlphabetic(s)
  {
    && (|s| % 4 == 2 ==> Value(s[|s| - 1]) % 16 == 0)
    && (|s| % 4 == 3 ==> Value(s[|s| - 1]) % 4 == 0)
  }

  lemma Rebuilt(p: Sextet, q: Sextet, r: Sextet, t: Sextet)
    ensures var u := Ungroup(p, q, r, t); Group(u[0], u[1], u[2]) == [Symbol(p), Symbol(q), Symbol(r), Symbol(t)]
  {
    hide Symbol;
    GroupUngroup(p, q, r, t);
  }

  lemma TailBits(p: Sextet, q: Sextet, r: Sextet)
    ensures var a := p * 4 + q / 16; a / 4 == p && a % 4 * 16 == q - q % 16
    ensures var b := q % 16 * 16 + r / 4; b / 16 == q % 16 && b % 16 * 4 == r - r % 4
  {}

  lemma SameSymbol(v: Sextet, w: Sextet)
    ensures Symbol(v) == Symbol(w) <==> v == w
  {
    ValueOfSymbol(v);
    ValueOfSymbol(w);
  }

  lemma RebuiltTwo(p: Sextet, q: Sextet)
    ensures Group(Ungroup(p, q, 0, 0)[0], 0, 0)[..2] == [Symbol(p), Symbol(q)] <==> q % 16 == 0
  {
    hide Symbol;
    TailBits(p, q, 0);
    SameSymbol(q - q % 16, q);
    var g := Group(Ungroup(p, q, 0, 0)[0], 0, 0)[..2];
    assert g == [Symbol(p), Symbol(q - q % 16)];
    assert g[1] == Symbol(q - q % 16);
  }

  lemma RebuiltThree(p: Sextet, q: Sextet, r: Sextet)
    ensures var u := Ungroup(p, q, r, 0); (Group(u[0], u[1], 0)[..3] == [Symbol(p), Symbol(q), Symbol(r)] <==> r % 4 == 0)
  {
    hide Symbol;
    TailBits(p, q, r);
    SameSymbol(r - r % 4, r);
    var u := Ungroup(p, q, r, 0);
    assert u[0] % 4 * 16 + u[1] / 16 == q by {
      GroupUngroup(p, q, r, 0);
    }
    var g := Group(u[0], u[1], 0)[..3];
    assert g == [Symbol(p), Symbol(q), Symbol(r - r % 4)];
    assert g[2] == Symbol(r - r % 4);
  }

  /** The first symbols, from their values. */
  lemma SymbolsOf(s: string)
    requires IsAlphabetic(s)
    ensures forall i :: 0 <= i < |s| ==> Symbol(Value(s[i])) == s[i]
  {
    hide Symbol, Value, IsSymbol;
    forall i | 0 <= i < |s| ensures Symbol(Value(s[i])) == s[i] {
      SymbolOfValue(s[i]);
    }
  }

  /** Texts of fewer than four symbols. */
  lemma ReencodesShort(s: string)
    requires IsAlphabetic(s) && |s| < 4
    ensures Raw(s).Some? <==> |s| != 1
    ensures Raw(s).Some? ==> (Encode(Raw(s).value) == s <==> TrailingBitsZero(s))
  {
    hide Symbol, Value, Group, IsSymbol, IsAlphabetic, TrailingBitsZero;
    Alphabetic(s);
    SymbolsOf(s);
    TrailingBits(s);
    if |s| == 3 {
      RebuiltThree(Value(s[0]), Value(s[1]), Value(s[2]));
      assert s == [s[0], s[1], s[2]];
    } else if |s| == 2 {
      RebuiltTwo(Value(s[0]), Value(s[1]));
      assert s == [s[0], s[1]];
    }
  }

  /** Four symbols more. */
  lemma ReencodesLong(s: string)
    requires |s| >= 4 && IsAlphabetic(s) && IsAlphabetic(s[4..])
    ensures Raw(s).Some? <==> Raw(s[4..]).Some?
    ensures Raw(s).Some? ==> (Encode(Raw(s).value) == s <==> Encode(Raw(s[4..]).value) == s[4..])
  {
    hide Symbol, Value, Group, IsSymbol, IsAlphabetic, Encode;
    Alphabetic(s);
    SymbolsOf(s);
    var p, q, r, t := Value(s[0]), Value(s[1]), Value(s[2]), Value(s[3]);
    Rebuilt(p, q, r, t);
    assert s[..4] == [s[0], s[1], s[2], s[3]];
    if Raw(s).Some? {
      ReencodesGroup(s, Ungroup(p, q, r, t), Raw(s[4..]).value);
    }
  }

  lemma {:induction false} ReencodesIff(s: string)
    requires IsAlphabetic(s)
    ensures Raw(s).Some? <==> |s| % 4 != 1
    ensures Raw(s).Some? ==> (Encode(Raw(s).value) == s <==> TrailingBitsZero(s))
  {
    hide *;
    if |s| >= 4 {
      TrailingBits(s);
      ReencodesIff(s[4..]);
      ReencodesLong(s);
    } else {
      ReencodesShort(s);
    }
  }

  lemma TrailingBits(s: string)
    requires IsAlphabetic(s)
    ensures |s| >= 4 ==> IsAlphabetic(s[4..]) && (TrailingBitsZero(s) <==> TrailingBitsZero(s[4..]))
    ensures s == "" ==> TrailingBitsZero(s)
    ensures |s| == 2 ==> (TrailingBitsZero(s) <==> Value(s[1]) % 16 == 0)
    ensures |s| == 3 ==> (TrailingBitsZero(s) <==> Value(s[2]) % 4 == 0)
  {
    hide Value;
  }

  lemma Alphabetic(s: string)
    requires IsAlphabetic(s)
    ensures forall i :: 0 <= i < |s| ==> IsSymbol(s[i])
    ensures |s| >= 4 ==> IsAlphabetic(s[4..])
  {}

  lemma ReencodesGroup(s: string, u: seq<Byte>, rest: seq<Byte>)
    requires |s| >= 4 && |u| == 3 && Group(u[0], u[1], u[2]) == s[..4]
    ensures Encode(u + rest) == s <==> Encode(rest) == s[4..]
  {
    hide Group;
    assert (u + rest)[3..] == rest;
    assert s == s[..4] + s[4..];
    assert (s[..4] + Encode(rest))[4..] == Encode(rest);
  }

  /** Exactly which texts are accepted. */
  lemma DecodeAccepts(s: string)
    ensures Decode(s).Some? <==> s != "" && IsAlphabetic(s) && |s| % 4 != 1 && TrailingBitsZero(s)
  {
    hide Raw, Encode;
    if IsAlphabetic(s) {
      ReencodesIff(s);
    }
  }

  // ---- the alphabet and the bits ----------------------------------------------------------------

  const CAPITALS := "ABCDEFGHIJKLMNOPQRSTUVWXYZ"
  const SMALL := "abcdefghijklmnopqrstuvwxyz"
  const DIGITS := "0123456789"

  lemma LettersStand(v: nat)
    requires v < 26
    ensures |CAPITALS| == |SMALL| == 26 && CAPITALS[v] == 'A' + v as char && SMALL[v] == 'a' + v as char
  {}

  lemma DigitsStand(v: nat)
    requires v < 10
    ensures |DIGITS| == 10 && DIGITS[v] == '0' + v as char
  {}

  /** The alphabet of section 5. */
  lemma SymbolIs(v: Sextet)
    ensures |CAPITALS + SMALL + DIGITS + "-_"| == 64 && Symbol(v) == (CAPITALS + SMALL + DIGITS + "-_")[v]
  {
    LettersStand(if v < 26 then v else if v < 52 then v - 26 else 0);
    DigitsStand(if 52 <= v < 62 then v - 52 else 0);
    hide CAPITALS, SMALL, DIGITS;
  }

  /** Three bytes and their four symbols are the same number, most significant digit first. */
  lemma GroupIsNumber(a: Byte, b: Byte, c: Byte)
    ensures var g := Group(a, b, c);
            && |g| == 4 && (forall i :: 0 <= i < 4 ==> IsSymbol(g[i]))
            && Value(g[0]) * 262144 + Value(g[1]) * 4096 + Value(g[2]) * 64 + Value(g[3]) == a * 65536 + b * 256 + c
  {
    hide Value, IsSymbol, Group;
    GroupSymbols(a, b, c);
  }

  /** The length of an encoding: four symbols for every three bytes, and two or three for the rest. */
  lemma {:induction false} EncodedSize(bytes: seq<Byte>)
    ensures |Encode(bytes)| == |bytes| / 3 * 4 + (if |bytes| % 3 == 0 then 0 else |bytes| % 3 + 1)
  {
    if |bytes| >= 3 {
      EncodedSize(bytes[3..]);
    }
  }

  function ByteAt(bytes: seq<Byte>, j: nat): Byte {
    if j < |bytes| then bytes[j] else 0
  }

  /** The value of a symbol of a text, and zero behind its end. */
  function DigitAt(s: string, j: nat): int {
    if j < |s| && IsSymbol(s[j]) then Value(s[j]) else 0
  }

  function DigitsAt(s: string, j: nat): int {
    DigitAt(s, j) * 262144 + DigitAt(s, j + 1) * 4096 + DigitAt(s, j + 2) * 64 + DigitAt(s, j + 3)
  }

  lemma DigitsOfTail(a: Byte, b: Byte)
    ensures DigitsAt(Group(a, 0, 0)[..2], 0) == a * 65536
    ensures DigitsAt(Group(a, b, 0)[..3], 0) == a * 65536 + b * 256
  {
    hide Value, IsSymbol, Group;
    GroupSymbols(a, 0, 0);
    GroupSymbols(a, b, 0);
  }

  lemma DigitsOfGroup(a: Byte, b: Byte, c: Byte, rest: string)
    ensures DigitsAt(Group(a, b, c) + rest, 0) == a * 65536 + b * 256 + c
    ensures forall j: nat :: DigitsAt(Group(a, b, c) + rest, j + 4) == DigitsAt(rest, j)
  {
    hide Value, IsSymbol, Group;
    GroupSymbols(a, b, c);
    var s := Group(a, b, c) + rest;
    forall j: nat ensures DigitAt(s, j + 4) == DigitAt(rest, j) {}
  }

  /** Group by group, an encoding is the number that its bytes are; the bits that fill the last symbol are zero. */
  lemma {:induction false} EncodedIsNumber(bytes: seq<Byte>, i: nat)
    requires 3 * i < |bytes|
    ensures DigitsAt(Encode(bytes), 4 * i) ==
            ByteAt(bytes, 3 * i) * 65536 + ByteAt(bytes, 3 * i + 1) * 256 + ByteAt(bytes, 3 * i + 2)
  {
    hide DigitsAt, Group;
    if |bytes| == 1 {
      DigitsOfTail(bytes[0], 0);
    } else if |bytes| == 2 {
      DigitsOfTail(bytes[0], bytes[1]);
    } else {
      DigitsOfGroup(bytes[0], bytes[1], bytes[2], Encode(bytes[3..]));
      if i > 0 {
        EncodedIsNumber(bytes[3..], i - 1);
        assert DigitsAt(Encode(bytes), 4 * (i - 1) + 4) == DigitsAt(Encode(bytes[3..]), 4 * (i - 1));
      }
    }
  }
}
