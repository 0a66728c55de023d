/**
 Base64 with the URL-safe alphabet (section 5 of RFC 4648), as the `base64` crate's strict engines do
 it.  Bytes and sextets are given by their bits, most significant first.
 */
module Base64Url {
  import opened Options

  datatype Byte = Byte(b7: bool, b6: bool, b5: bool, b4: bool, b3: bool, b2: bool, b1: bool, b0: bool)
  datatype Sextet = Sextet(s5: bool, s4: bool, s3: bool, s2: bool, s1: bool, s0: bool)

  // ----- Bytes and sextets -----

  function First(b: Byte): Sextet { Sextet(b.b7, b.b6, b.b5, b.b4, b.b3, b.b2) }
  function Second(b: Byte, c: Byte): Sextet { Sextet(b.b1, b.b0, c.b7, c.b6, c.b5, c.b4) }
  function Third(c: Byte, d: Byte): Sextet { Sextet(c.b3, c.b2, c.b1, c.b0, d.b7, d.b6) }
  function Fourth(d: Byte): Sextet { Sextet(d.b5, d.b4, d.b3, d.b2, d.b1, d.b0) }

  const ZERO := Byte(false, false, false, false, false, false, false, false)

  /** Four sextets per three bytes, and two or three for what is left. */
  function Pack(b: seq<Byte>): seq<Sextet> {
    if b == [] then []
    else if |b| == 1 then [First(b[0]), Second(b[0], ZERO)]
    else if |b| == 2 then [First(b[0]), Second(b[0], b[1]), Third(b[1], ZERO)]
    else [First(b[0]), Second(b[0], b[1]), Third(b[1], b[2]), Fourth(b[2])] + Pack(b[3..])
  }

  function High(v: Sextet, w: Sextet): Byte { Byte(v.s5, v.s4, v.s3, v.s2, v.s1, v.s0, w.s5, w.s4) }
  function Middle(w: Sextet, x: Sextet): Byte { Byte(w.s3, w.s2, w.s1, w.s0, x.s5, x.s4, x.s3, x.s2) }
  function Low(x: Sextet, y: Sextet): Byte { Byte(x.s1, x.s0, y.s5, y.s4, y.s3, y.s2, y.s1, y.s0) }

  /** The way back; a lone sextet and nonzero trailing bits are refused. */
  function Unpack(v: seq<Sextet>): Option<seq<Byte>> {
    if v == [] then Some([])
    else if |v| == 1 then None
    else if |v| == 2 then
      if v[1].s3 || v[1].s2 || v[1].s1 || v[1].s0 then None else Some([High(v[0], v[1])])
    else if |v| == 3 then
      if v[2].s1 || v[2].s0 then None else Some([High(v[0], v[1]), Middle(v[1], v[2])])
    else
      var rest := Unpack(v[4..]);
      if rest.None? then None
      else Some([High(v[0], v[1]), Middle(v[1], v[2]), Low(v[2], v[3])] + rest.value)
  }

  lemma {:induction false} UnpackPack(b: seq<Byte>)
    ensures Unpack(Pack(b)) == Some(b)
  {
    if |b| >= 3 {
      UnpackPack(b[3..]);
      assert Pack(b)[4..] == Pack(b[3..]);
      assert b == [b[0], b[1], b[2]] + b[3..];
    } else if |b| == 2 {
      assert b == [b[0], b[1]];
    } else if |b| == 1 {
      assert b == [b[0]];
    }
  }

  lemma {:induction false} PackUnpack(v: seq<Sextet>)
    requires Unpack(v).Some?
    ensures Pack(Unpack(v).value) == v
  {
    if |v| >= 4 {
      PackUnpack(v[4..]);
      assert Unpack(v).value[3..] == Unpack(v[4..]).value;
      assert v == [v[0], v[1], v[2], v[3]] + v[4..];
    } else if |v| == 3 {
      assert v == [v[0], v[1], v[2]];
    } else if |v| == 2 {
      assert v == [v[0], v[1]];
    }
  }

  // ----- Sextets and symbols -----

  function Number(v: Sextet): (n: nat)
    ensures n < 64
  {
    (if v.s5 then 32 else 0) + (if v.s4 then 16 else 0) + (if v.s3 then 8 else 0)
    + (if v.s2 then 4 else 0) + (if v.s1 then 2 else 0) + (if v.s0 then 1 else 0)
  }

  function FromNumber(n: nat): Sextet
    requires n < 64
  {
    var a := if n >= 32 then n - 32 else n;
    var b := if a >= 16 then a - 16 else a;
    var c := if b >= 8 then b - 8 else b;
    var d := if c >= 4 then c - 4 else c;
    var e := if d >= 2 then d - 2 else d;
    Sextet(n >= 32, a >= 16, b >= 8, c >= 4, d >= 2, e >= 1)
  }

  function Symbol(v: Sextet): char {
    var n := Number(v);
    if n < 26 then (n + 'A' as int) as char
    else if n < 52 then (n - 26 + 'a' as int) as char
    else if n < 62 then (n - 52 + '0' as int) as char
    else if n == 62 then '-'
    else '_'
  }

  predicate IsSymbol(c: char) {
    'A' <= c <= 'Z' || 'a' <= c <= 'z' || '0' <= c <= '9' || c == '-' || c == '_'
  }

  function Value(c: char): Sextet
    requires IsSymbol(c)
  {
    FromNumber(
      if 'A' <= c <= 'Z' then c as int - 'A' as int
      else if 'a' <= c <= 'z' then c as int - 'a' as int + 26
      else if '0' <= c <= '9' then c as int - '0' as int + 52
      else if c == '-' then 62
      else 63)
  }

  lemma NumberFrom(n: nat)
    requires n < 64
    ensures Number(FromNumber(n)) == n
  {
  }

  lemma FromNumberOf(v: Sextet)
    ensures FromNumber(Number(v)) == v
  {
  }

  lemma ValueSymbol(v: Sextet)
    ensures IsSymbol(Symbol(v)) && Value(Symbol(v)) == v
  {
    FromNumberOf(v);
  }

  lemma SymbolValue(c: char)
    requires IsSymbol(c)
    ensures Symbol(Value(c)) == c
  {
    NumberFrom(if 'A' <= c <= 'Z' then c as int - 'A' as int
               else if 'a' <= c <= 'z' then c as int - 'a' as int + 26
               else if '0' <= c <= '9' then c as int - '0' as int + 52
               else if c == '-' then 62
               else 63);
  }

  predicate AllSymbols(s: string) {
    forall i :: 0 <= i < |s| ==> IsSymbol(s[i])
  }

  function Text(v: seq<Sextet>): (s: string)
    ensures |s| == |v| && forall i :: 0 <= i < |v| ==> s[i] == Symbol(v[i])
  {
    seq(|v|, i requires 0 <= i < |v| => Symbol(v[i]))
  }

  function Values(s: string): (v: seq<Sextet>)
    requires AllSymbols(s)
    ensures |v| == |s| && forall i :: 0 <= i < |s| ==> v[i] == Value(s[i])
  {
    seq(|s|, i requires 0 <= i < |s| => Value(s[i]))
  }

  lemma ValuesText(v: seq<Sextet>)
    ensures AllSymbols(Text(v)) && Values(Text(v)) == v
  {
    forall i | 0 <= i < |v|
      ensures IsSymbol(Text(v)[i]) && Value(Text(v)[i]) == v[i]
    {
      ValueSymbol(v[i]);
    }
  }

  lemma TextValues(s: string)
    requires AllSymbols(s)
    ensures Text(Values(s)) == s
  {
    forall i | 0 <= i < |s|
      ensures Text(Values(s))[i] == s[i]
    {
      SymbolValue(s[i]);
    }
  }

  // ----- The engines -----

  /** `URL_SAFE_NO_PAD`, encoding. */
  function Encode(b: seq<Byte>): string {
    Text(Pack(b))
  }

  /** `URL_SAFE_NO_PAD`, decoding. */
  function Decode(s: string): Option<seq<Byte>> {
    if AllSymbols(s) then Unpack(Values(s)) else None
  }

  /** `URL_SAFE`, decoding: exactly the canonical padding is required. */
  function DecodePadded(s: string): Option<seq<Byte>> {
    if |s| % 4 != 0 then None
    else if |s| >= 2 && s[|s| - 1] == '=' && s[|s| - 2] == '=' then Decode(s[..|s| - 2])
    else if |s| >= 1 && s[|s| - 1] == '=' then Decode(s[..|s| - 1])
    else Decode(s)
  }

  lemma DecodeEncode(b: seq<Byte>)
    ensures Decode(Encode(b)) == Some(b)
  {
    UnpackPack(b);
    ValuesText(Pack(b));
  }

  lemma EncodeDecode(s: string)
    requires Decode(s).Some?
    ensures Encode(Decode(s).value) == s
  {
    PackUnpack(Values(s));
    TextValues(s);
  }

  // ----- The encoding, in numbers -----

  function ByteNumber(b: Byte): (n: nat)
    ensures n < 256
  {
    (if b.b7 then 128 else 0) + (if b.b6 then 64 else 0) + (if b.b5 then 32 else 0) + (if b.b4 then 16 else 0)
    + (if b.b3 then 8 else 0) + (if b.b2 then 4 else 0) + (if b.b1 then 2 else 0) + (if b.b0 then 1 else 0)
  }

  /** The byte at an index as a number, zero beyond the end. */
  function ByteAt(b: seq<Byte>, i: nat): nat { if i < |b| then ByteNumber(b[i]) else 0 }

  /** Six bits of three bytes, the first six first. */
  function SixBits(x: nat, y: nat, z: nat, r: nat): nat
    requires r < 4
  {
    match r
    case 0 => x / 4
    case 1 => x % 4 * 16 + y / 16
    case 2 => y % 16 * 4 + z / 64
    case 3 => z % 64
  }

  /** The code of the symbol for a number: A to Z, a to z, 0 to 9, '-' and '_'. */
  function SymbolCode(n: nat): nat {
    if n < 26 then 65 + n else if n < 52 then 97 + (n - 26) else if n < 62 then 48 + (n - 52) else if n == 62 then 45 else 95
  }

  lemma SymbolInTable(v: Sextet)
    ensures Symbol(v) as int == SymbolCode(Number(v))
  {
  }

  function Pair(p: bool, q: bool): nat { (if p then 2 else 0) + (if q then 1 else 0) }

  function Quad(p: bool, q: bool, r: bool, s: bool): nat { 4 * Pair(p, q) + Pair(r, s) }

  /** The bits of a byte, taken apart where a sextet ends in it. */
  lemma Low2(b: Byte)
    ensures ByteNumber(b) / 4 == Number(First(b)) && ByteNumber(b) % 4 == Pair(b.b1, b.b0)
  {
  }

  lemma High2(b: Byte)
    ensures ByteNumber(b) / 64 == Pair(b.b7, b.b6) && ByteNumber(b) % 64 == Number(Fourth(b))
  {
  }

  lemma Nibbles(b: Byte)
    ensures ByteNumber(b) / 16 == Quad(b.b7, b.b6, b.b5, b.b4) && ByteNumber(b) % 16 == Quad(b.b3, b.b2, b.b1, b.b0)
  {
  }

  lemma NumberParts(v: Sextet)
    ensures Number(v) == 16 * Pair(v.s5, v.s4) + Quad(v.s3, v.s2, v.s1, v.s0)
    ensures Number(v) == 4 * Quad(v.s5, v.s4, v.s3, v.s2) + Pair(v.s1, v.s0)
  {
  }

  lemma SecondNumber(x: Byte, y: Byte)
    ensures Number(Second(x, y)) == ByteNumber(x) % 4 * 16 + ByteNumber(y) / 16
  {
    Low2(x);
    Nibbles(y);
    NumberParts(Second(x, y));
  }

  lemma ThirdNumber(y: Byte, z: Byte)
    ensures Number(Third(y, z)) == ByteNumber(y) % 16 * 4 + ByteNumber(z) / 64
  {
    Nibbles(y);
    High2(z);
    NumberParts(Third(y, z));
  }

  /** Sextet r of three bytes. */
  function SextetOf(x: Byte, y: Byte, z: Byte, r: nat): Sextet
    requires r < 4
  {
    if r == 0 then First(x) else if r == 1 then Second(x, y) else if r == 2 then Third(y, z) else Fourth(z)
  }

  lemma SextetNumber(x: Byte, y: Byte, z: Byte, r: nat)
    requires r < 4
    ensures Number(SextetOf(x, y, z, r)) == SixBits(ByteNumber(x), ByteNumber(y), ByteNumber(z), r)
  {
    if r == 0 {
      Low2(x);
    } else if r == 1 {
      SecondNumber(x, y);
    } else if r == 2 {
      ThirdNumber(y, z);
    } else {
      High2(z);
    }
  }

  function Padded(b: seq<Byte>, i: nat): Byte { if i < |b| then b[i] else ZERO }

  /** Symbol i comes from the three bytes of its group, zeros standing in for missing ones. */
  lemma {:induction false} PackAt(b: seq<Byte>, i: nat, g: nat, r: nat)
    requires i < |Pack(b)| && i == 4 * g + r && r < 4
    ensures Pack(b)[i] == SextetOf(Padded(b, 3 * g), Padded(b, 3 * g + 1), Padded(b, 3 * g + 2), r)
  {
    if |b| >= 3 && i >= 4 {
      PackAt(b[3..], i - 4, g - 1, r);
    }
  }

  lemma {:induction false} PackLength(b: seq<Byte>)
    ensures |Pack(b)| == (4 * |b| + 2) / 3
  {
    if |b| >= 3 {
      PackLength(b[3..]);
    }
  }

  /** The encoding is that of section 5 of RFC 4648: symbol i is the table's entry for six bits of its group. */
  lemma EncodeMeaning(b: seq<Byte>, i: nat, g: nat, r: nat)
    requires i == 4 * g + r && r < 4
    ensures |Encode(b)| == (4 * |b| + 2) / 3
    ensures i < |Encode(b)| ==>
      Encode(b)[i] as int == SymbolCode(SixBits(ByteAt(b, 3 * g), ByteAt(b, 3 * g + 1), ByteAt(b, 3 * g + 2), r))
  {
    PackLength(b);
    if i < |Encode(b)| {
      PackAt(b, i, g, r);
      SymbolInTable(Pack(b)[i]);
      SextetNumber(Padded(b, 3 * g), Padded(b, 3 * g + 1), Padded(b, 3 * g + 2), r);
    }
  }

  /** The padding that fills the last group up. */
  function Padding(n: nat): string { if n % 3 == 1 then "==" else if n % 3 == 2 then "=" else "" }

  lemma PaddedLength(b: seq<Byte>)
    ensures (|Encode(b)| + |Padding(|b|)|) % 4 == 0 && (|b| % 3 != 0 ==> |Encode(b)| % 4 != 0)
  {
    PackLength(b);
    Fourths(|b| / 3, |b| % 3);
  }

  lemma Fourths(q: nat, r: nat)
    requires r < 3
    ensures (4 * (3 * q + r) + 2) / 3 == 4 * q + (if r == 0 then 0 else r + 1)
  {
  }

  lemma StripPadding(e: string, pad: string)
    requires (pad == "" || pad == "=" || pad == "==") && (|e| + |pad|) % 4 == 0 && AllSymbols(e)
    ensures DecodePadded(e + pad) == Decode(e)
  {
    var s := e + pad;
    assert e != "" ==> IsSymbol(e[|e| - 1]);
    if pad == "==" {
      assert s[..|s| - 2] == e;
    } else if pad == "=" {
      assert s[..|s| - 1] == e;
      assert |s| >= 2 ==> s[|s| - 2] == e[|e| - 1];
    } else {
      assert s == e;
    }
  }

  /** The padded engine takes exactly the encoding with its padding. */
  lemma PaddedDecodes(b: seq<Byte>)
    ensures DecodePadded(Encode(b) + Padding(|b|)) == Some(b)
    ensures |b| % 3 != 0 ==> DecodePadded(Encode(b)) == None
  {
    DecodeEncode(b);
    PaddedLength(b);
    StripPadding(Encode(b), Padding(|b|));
  }

  // ----- What an encoding can look like -----

  ghost predicate Ascii(b: seq<Byte>) {
    forall i :: 0 <= i < |b| ==> !b[i].b7
  }

  /** Of ASCII data, only every fourth symbol can be a dash. */
  lemma DashOnEveryFourth(b: seq<Byte>, i: nat)
    requires Ascii(b) && i < |Encode(b)| && Encode(b)[i] == '-'
    ensures i % 4 == 3
  {
    ValueSymbol(Pack(b)[i]);
    SextetOnEveryFourth(b, i);
  }

  lemma {:induction false} SextetOnEveryFourth(b: seq<Byte>, i: nat)
    requires Ascii(b) && i < |Pack(b)| && Pack(b)[i] == FromNumber(62)
    ensures i % 4 == 3
  {
    if |b| >= 3 && i >= 4 {
      SextetOnEveryFourth(b[3..], i - 4);
    }
  }

  /** The code of `}`. */
  const CLOSE_BRACE := Byte(false, true, true, true, true, true, false, true)

  /** The last sextet of data ending in `}`. */
  lemma {:induction false} LastOfBrace(b: seq<Byte>)
    requires b != [] && b[|b| - 1] == CLOSE_BRACE
    ensures Pack(b) != [] && Number(Pack(b)[|Pack(b)| - 1]) in {61, 16, 52}
  {
    if |b| > 3 {
      LastOfBrace(b[3..]);
    }
  }

  /** The encoding of ASCII data ending in `}`: dashes on every fourth symbol only, and a known last one. */
  lemma EncodedShape(b: seq<Byte>)
    requires Ascii(b) && b != [] && b[|b| - 1] == CLOSE_BRACE
    ensures Encode(b) != "" && AllSymbols(Encode(b)) && Encode(b)[|Encode(b)| - 1] in {'9', 'Q', '0'}
    ensures forall i :: 0 <= i < |Encode(b)| && Encode(b)[i] == '-' ==> i % 4 == 3
  {
    ValuesText(Pack(b));
    LastOfBrace(b);
    BraceSymbol(Pack(b)[|Pack(b)| - 1]);
    forall i | 0 <= i < |Encode(b)| && Encode(b)[i] == '-'
      ensures i % 4 == 3
    {
      DashOnEveryFourth(b, i);
    }
  }

  lemma BraceSymbol(v: Sextet)
    requires Number(v) in {61, 16, 52}
    ensures Symbol(v) in {'9', 'Q', '0'}
  {
  }

  /** Sextets that do not fill their last group are refused for a nonzero low bit at the end. */
  lemma {:induction false} TrailingBits(v: seq<Sextet>)
    requires |v| % 4 != 0 && v[|v| - 1].s0
    ensures Unpack(v) == None
  {
    if |v| > 4 {
      TrailingBits(v[4..]);
    }
  }

  /** Whole groups always decode, three bytes each. */
  lemma {:induction false} UnpackWhole(v: seq<Sextet>)
    requires |v| % 4 == 0
    ensures Unpack(v).Some? && 4 * |Unpack(v).value| == 3 * |v|
    ensures v != [] ==> Unpack(v).value[0] == High(v[0], v[1])
  {
    if v != [] {
      UnpackWhole(v[4..]);
    }
  }

  /** Whole groups decode on their own. */
  lemma {:induction false} UnpackConcat(v: seq<Sextet>, w: seq<Sextet>)
    requires |v| % 4 == 0 && Unpack(v).Some? && Unpack(w).Some?
    ensures Unpack(v + w) == Some(Unpack(v).value + Unpack(w).value)
  {
    if v == [] {
      assert v + w == w;
      assert [] + Unpack(w).value == Unpack(w).value;
    } else {
      assert (v + w)[4..] == v[4..] + w;
      UnpackConcat(v[4..], w);
      var head := [High(v[0], v[1]), Middle(v[1], v[2]), Low(v[2], v[3])];
      assert Unpack(v + w) == Some(head + Unpack(v[4..] + w).value);
      assert head + (Unpack(v[4..]).value + Unpack(w).value) == (head + Unpack(v[4..]).value) + Unpack(w).value;
    }
  }

  lemma ValuesConcat(a: string, b: string)
    requires AllSymbols(a) && AllSymbols(b)
    ensures AllSymbols(a + b) && Values(a + b) == Values(a) + Values(b)
  {
  }

  /** Data that fills whole groups, followed by more whole groups, decodes to both parts. */
  lemma DecodeWholeTail(json: seq<Byte>, tail: string)
    requires AllSymbols(tail) && |tail| % 4 == 0 && |Encode(json)| % 4 == 0
    ensures Decode(tail).Some? && Decode(Encode(json) + tail) == Some(json + Decode(tail).value)
  {
    UnpackWhole(Values(tail));
    ValuesText(Pack(json));
    UnpackPack(json);
    ValuesConcat(Encode(json), tail);
    UnpackConcat(Pack(json), Values(tail));
  }

  /** Otherwise a nonzero low bit in the last symbol is a trailing bit, and refused. */
  lemma DecodeRaggedTail(json: seq<Byte>, tail: string)
    requires AllSymbols(tail) && |tail| % 4 == 0 && tail != "" && Value(tail[|tail| - 1]).s0
    requires |Encode(json)| % 4 != 0
    ensures Decode(Encode(json) + tail) == None && |Encode(json) + tail| % 4 != 0
  {
    ValuesText(Pack(json));
    ValuesConcat(Encode(json), tail);
    TrailingBits(Pack(json) + Values(tail));
  }
}
