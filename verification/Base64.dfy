/** Base64 with padding (section 4 of RFC 4648): encoder, strict decoder and the in-place encoder. */
module Base64 {
  import opened Sequences
  import opened Wrappers

  type Byte = x: int | 0 <= x < 256

  const PAD: Byte := 61

  /** The alphabet of table 1 of RFC 4648. */
  function Letter(v: int): (b: Byte)
    requires 0 <= v < 64
    ensures b != PAD
  {
    if v < 26 then 65 + v
    else if v < 52 then 97 + (v - 26)
    else if v < 62 then 48 + (v - 52)
    else if v == 62 then 43 else 47
  }

  /** Characters as their ASCII codes. */
  function Ascii(s: string): (bs: seq<Byte>)
    requires forall i | 0 <= i < |s| :: s[i] < 128 as char
    ensures |bs| == |s| && forall i | 0 <= i < |s| :: bs[i] == s[i] as int
  {
    seq(|s|, i requires 0 <= i < |s| => s[i] as int)
  }

  // Table 1 of RFC 4648, 16 values a row.
  const ROW_0 := "ABCDEFGHIJKLMNOP"
  const ROW_1 := "QRSTUVWXYZabcdef"
  const ROW_2 := "ghijklmnopqrstuv"
  const ROW_3 := "wxyz0123456789+/"

  /** `Letter` is that table, and padding is '='. */
  lemma LetterIsAlphabet(v: int)
    requires 0 <= v < 64
    ensures Letter(v) == (ROW_0 + ROW_1 + ROW_2 + ROW_3)[v] as int
    ensures PAD == '=' as int
  {
    if v < 16 {
      FirstRow(v);
    } else if v < 32 {
      SecondRow(v - 16);
    } else if v < 48 {
      ThirdRow(v - 32);
    } else {
      FourthRow(v - 48);
    }
  }

  lemma FirstRow(v: int)
    requires 0 <= v < 16
    ensures Letter(v) == ROW_0[v] as int
  {
    assert v == 0 || v == 1 || v == 2 || v == 3 || v == 4 || v == 5 || v == 6 || v == 7
           || v == 8 || v == 9 || v == 10 || v == 11 || v == 12 || v == 13 || v == 14 || v == 15;
  }

  lemma SecondRow(v: int)
    requires 0 <= v < 16
    ensures Letter(16 + v) == ROW_1[v] as int
  {
    assert v == 0 || v == 1 || v == 2 || v == 3 || v == 4 || v == 5 || v == 6 || v == 7
           || v == 8 || v == 9 || v == 10 || v == 11 || v == 12 || v == 13 || v == 14 || v == 15;
  }

  lemma ThirdRow(v: int)
    requires 0 <= v < 16
    ensures Letter(32 + v) == ROW_2[v] as int
  {
    assert v == 0 || v == 1 || v == 2 || v == 3 || v == 4 || v == 5 || v == 6 || v == 7
           || v == 8 || v == 9 || v == 10 || v == 11 || v == 12 || v == 13 || v == 14 || v == 15;
  }

  lemma FourthRow(v: int)
    requires 0 <= v < 16
    ensures Letter(48 + v) == ROW_3[v] as int
  {
    assert v == 0 || v == 1 || v == 2 || v == 3 || v == 4 || v == 5 || v == 6 || v == 7
           || v == 8 || v == 9 || v == 10 || v == 11 || v == 12 || v == 13 || v == 14 || v == 15;
  }

  function Value(b: Byte): (v: Option<int>)
    ensures v.Some? ==> 0 <= v.value < 64
  {
    if 65 <= b <= 90 then Some(b - 65)
    else if 97 <= b <= 122 then Some(b - 97 + 26)
    else if 48 <= b <= 57 then Some(b - 48 + 52)
    else if b == 43 then Some(62)
    else if b == 47 then Some(63)
    else None
  }

  lemma LetterOfValue(b: Byte)
    ensures Value(b).Some? ==> Letter(Value(b).value) == b
  {
  }

  lemma ValueOfLetter(v: int)
    requires 0 <= v < 64
    ensures Value(Letter(v)) == Some(v)
  {
  }

  function Bits(a: Byte, b: Byte, c: Byte): int { 65536 * a + 256 * b + c }

  /** The k-th six-bit group of a 24-bit value. */
  function Sextet(val: int, k: int): int
    requires 0 <= k < 4
  {
    (if k == 0 then val / 262144 else if k == 1 then val / 4096 else if k == 2 then val / 64 else val) % 64
  }

  function EncodedLen(n: nat): nat { (n + 2) / 3 * 4 }

  /** Three more bytes take four more letters. */
  lemma LengthStep(n: nat)
    requires n >= 3
    ensures EncodedLen(n) == 4 + EncodedLen(n - 3)
  {
    assert (n + 2) / 3 == (n - 3 + 2) / 3 + 1;
  }

  lemma SextetRange(val: int)
    ensures 0 <= Sextet(val, 0) < 64 && 0 <= Sextet(val, 1) < 64 && 0 <= Sextet(val, 2) < 64 && 0 <= Sextet(val, 3) < 64
  {
  }

  /** What one full group of three bytes encodes to. */
  function Quartet(a: Byte, b: Byte, c: Byte): (q: seq<Byte>)
    ensures |q| == 4
  {
    SextetRange(Bits(a, b, c));
    var val := Bits(a, b, c);
    [Letter(Sextet(val, 0)), Letter(Sextet(val, 1)), Letter(Sextet(val, 2)), Letter(Sextet(val, 3))]
  }

  /** What the last one or two bytes encode to. */
  function Tail(s: seq<Byte>): (q: seq<Byte>)
    requires |s| == 1 || |s| == 2
    ensures |q| == 4
  {
    var val := Bits(s[0], if |s| == 2 then s[1] else 0, 0);
    SextetRange(val);
    [Letter(Sextet(val, 0)), Letter(Sextet(val, 1)), if |s| == 2 then Letter(Sextet(val, 2)) else PAD, PAD]
  }

  function Encode(s: seq<Byte>): (t: seq<Byte>)
    ensures |t| == EncodedLen(|s|)
  {
    if s == [] then []
    else if |s| < 3 then Tail(s)
    else
      LengthStep(|s|);
      Quartet(s[0], s[1], s[2]) + Encode(s[3..])
  }

  lemma EncodeByGroups(s: seq<Byte>)
    ensures s == [] ==> Encode(s) == []
    ensures 0 < |s| < 3 ==> Encode(s) == Tail(s)
    ensures |s| >= 3 ==> Encode(s) == Quartet(s[0], s[1], s[2]) + Encode(s[3..])
  {
  }

  /** Decoding per RFC 4648: complete quartets, padding only at the end, unused bits zero. */
  function Decode(t: seq<Byte>): Option<seq<Byte>> {
    if t == [] then Some([])
    else if |t| < 4 then None
    else
      match (Value(t[0]), Value(t[1]))
      case (Some(v0), Some(v1)) =>
        var a := 4 * v0 + v1 / 16;
        if |t| == 4 && t[3] == PAD then
          if t[2] == PAD then (if v1 % 16 == 0 then Some([a]) else None)
          else match Value(t[2])
            case None => None
            case Some(v2) => if v2 % 4 == 0 then Some([a, v1 % 16 * 16 + v2 / 4]) else None
        else
          (match (Value(t[2]), Value(t[3]), Decode(t[4..]))
           case (Some(v2), Some(v3), Some(rest)) => Some([a, v1 % 16 * 16 + v2 / 4, v2 % 4 * 64 + v3] + rest)
           case _ => None)
      case _ => None
  }

  lemma PositiveMultiple(d: int, k: int)
    requires d > 0 && k > 0
    ensures d * k >= d
  {
  }

  lemma Quotient(x: int, d: int, q: int, r: int)
    requires 0 <= r < d && x == d * q + r
    ensures x / d == q && x % d == r
  {
    var k := x / d - q;
    assert d * k == d * (x / d) - d * q;
    if k > 0 {
      PositiveMultiple(d, k);
    } else if k < 0 {
      PositiveMultiple(d, -k);
    }
  }

  /** The four groups in terms of the three bytes. */
  lemma SextetsOfBits(a: Byte, b: Byte, c: Byte)
    ensures Sextet(Bits(a, b, c), 0) == a / 4
    ensures Sextet(Bits(a, b, c), 1) == a % 4 * 16 + b / 16
    ensures Sextet(Bits(a, b, c), 2) == b % 16 * 4 + c / 64
    ensures Sextet(Bits(a, b, c), 3) == c % 64
  {
    var val := Bits(a, b, c);
    Quotient(val, 262144, a / 4, a % 4 * 65536 + 256 * b + c);
    Quotient(val, 4096, a * 16 + b / 16, b % 16 * 256 + c);
    Quotient(a * 16 + b / 16, 64, a / 4, a % 4 * 16 + b / 16);
    Quotient(val, 64, a * 1024 + b * 4 + c / 64, c % 64);
    Quotient(a * 1024 + b * 4 + c / 64, 64, a * 16 + b / 16, b % 16 * 4 + c / 64);
  }

  /** The three bytes in terms of the four groups. */
  lemma BytesOfSextets(a: Byte, b: Byte, c: Byte, v0: int, v1: int, v2: int, v3: int)
    requires v0 == a / 4 && v1 == a % 4 * 16 + b / 16 && v2 == b % 16 * 4 + c / 64 && v3 == c % 64
    ensures 4 * v0 + v1 / 16 == a && v1 % 16 * 16 + v2 / 4 == b && v2 % 4 * 64 + v3 == c
    ensures (b == 0 ==> v1 % 16 == 0) && (c == 0 ==> v2 % 4 == 0)
  {
    Quotient(v1, 16, a % 4, b / 16);
    Quotient(v2, 4, b % 16, c / 64);
  }

  lemma BitsOfSextets(v0: int, v1: int, v2: int, v3: int)
    requires 0 <= v0 < 64 && 0 <= v1 < 64 && 0 <= v2 < 64 && 0 <= v3 < 64
    ensures Sextet(Bits(4 * v0 + v1 / 16, v1 % 16 * 16 + v2 / 4, v2 % 4 * 64 + v3), 0) == v0
    ensures Sextet(Bits(4 * v0 + v1 / 16, v1 % 16 * 16 + v2 / 4, v2 % 4 * 64 + v3), 1) == v1
    ensures Sextet(Bits(4 * v0 + v1 / 16, v1 % 16 * 16 + v2 / 4, v2 % 4 * 64 + v3), 2) == v2
    ensures Sextet(Bits(4 * v0 + v1 / 16, v1 % 16 * 16 + v2 / 4, v2 % 4 * 64 + v3), 3) == v3
  {
    hide Sextet, Bits;
    SextetsOfBits(4 * v0 + v1 / 16, v1 % 16 * 16 + v2 / 4, v2 % 4 * 64 + v3);
    Quotient(4 * v0 + v1 / 16, 4, v0, v1 / 16);
    Quotient(v1 % 16 * 16 + v2 / 4, 16, v1 % 16, v2 / 4);
    Quotient(v2 % 4 * 64 + v3, 64, v2 % 4, v3);
  }

  lemma EncodeF()
    ensures Encode(Ascii("f")) == Ascii("Zg==")
  {
  }

  lemma EncodeFo()
    ensures Encode(Ascii("fo")) == Ascii("Zm8=")
  {
  }

  lemma EncodeFoo()
    ensures Encode(Ascii("foo")) == Ascii("Zm9v")
  {
    hide Encode;
    EncodeByGroups(Ascii("foo"));
    EncodeByGroups([]);
    assert Ascii("foo")[3..] == [];
  }

  /** Test vectors of section 10 of RFC 4648: nothing, a tail of one byte, one of two, and a full group. */
  lemma TestVectors()
    ensures Encode([]) == [] && Encode(Ascii("f")) == Ascii("Zg==")
    ensures Encode(Ascii("fo")) == Ascii("Zm8=") && Encode(Ascii("foo")) == Ascii("Zm9v")
  {
    hide *;
    EncodeByGroups([]);
    EncodeF();
    EncodeFo();
    EncodeFoo();
  }

  /** How the decoder reads a full quartet, one padding character and two. */
  lemma DecodeQuartet(t: seq<Byte>, v0: int, v1: int, v2: int, v3: int)
    requires |t| >= 4 && t[3] != PAD && Decode(t[4..]).Some?
    requires Value(t[0]) == Some(v0) && Value(t[1]) == Some(v1) && Value(t[2]) == Some(v2) && Value(t[3]) == Some(v3)
    ensures Decode(t) == Some([4 * v0 + v1 / 16, v1 % 16 * 16 + v2 / 4, v2 % 4 * 64 + v3] + Decode(t[4..]).value)
  {
    hide Value;
  }

  lemma DecodeOnePad(t: seq<Byte>, v0: int, v1: int, v2: int)
    requires |t| == 4 && t[2] != PAD && t[3] == PAD && v2 % 4 == 0
    requires Value(t[0]) == Some(v0) && Value(t[1]) == Some(v1) && Value(t[2]) == Some(v2)
    ensures Decode(t) == Some([4 * v0 + v1 / 16, v1 % 16 * 16 + v2 / 4])
  {
    hide Value;
  }

  lemma DecodeTwoPads(t: seq<Byte>, v0: int, v1: int)
    requires |t| == 4 && t[2] == PAD && t[3] == PAD && v1 % 16 == 0
    requires Value(t[0]) == Some(v0) && Value(t[1]) == Some(v1)
    ensures Decode(t) == Some([4 * v0 + v1 / 16])
  {
    hide Value;
  }

  /** The letters of a group of three bytes give back its sextets, and these its bytes. */
  lemma GroupValues(a: Byte, b: Byte, c: Byte) returns (v0: int, v1: int, v2: int, v3: int)
    ensures v0 == Sextet(Bits(a, b, c), 0) && v1 == Sextet(Bits(a, b, c), 1)
    ensures v2 == Sextet(Bits(a, b, c), 2) && v3 == Sextet(Bits(a, b, c), 3)
    ensures 0 <= v0 < 64 && 0 <= v1 < 64 && 0 <= v2 < 64 && 0 <= v3 < 64
    ensures Value(Letter(v0)) == Some(v0) && Value(Letter(v1)) == Some(v1)
    ensures Value(Letter(v2)) == Some(v2) && Value(Letter(v3)) == Some(v3)
    ensures 4 * v0 + v1 / 16 == a && v1 % 16 * 16 + v2 / 4 == b && v2 % 4 * 64 + v3 == c
    ensures (b == 0 ==> v1 % 16 == 0) && (c == 0 ==> v2 % 4 == 0)
  {
    hide *;
    var val := Bits(a, b, c);
    v0, v1, v2, v3 := Sextet(val, 0), Sextet(val, 1), Sextet(val, 2), Sextet(val, 3);
    SextetRange(val);
    SextetsOfBits(a, b, c);
    BytesOfSextets(a, b, c, v0, v1, v2, v3);
    ValueOfLetter(v0);
    ValueOfLetter(v1);
    ValueOfLetter(v2);
    ValueOfLetter(v3);
  }

  lemma DecodeGroup(a: Byte, b: Byte, c: Byte, t: seq<Byte>)
    requires Decode(t).Some?
    ensures Decode(Quartet(a, b, c) + t) == Some([a, b, c] + Decode(t).value)
  {
    hide Bits, Sextet, Letter, Value, Decode;
    var v0, v1, v2, v3 := GroupValues(a, b, c);
    assert (Quartet(a, b, c) + t)[4..] == t;
    DecodeQuartet(Quartet(a, b, c) + t, v0, v1, v2, v3);
  }

  lemma DecodeTwo(s: seq<Byte>)
    requires |s| == 2
    ensures Decode(Tail(s)) == Some(s)
  {
    hide Bits, Sextet, Letter, Value, Decode;
    var v0, v1, v2, _ := GroupValues(s[0], s[1], 0);
    DecodeOnePad(Tail(s), v0, v1, v2);
    assert s == [s[0], s[1]];
  }

  lemma DecodeOne(s: seq<Byte>)
    requires |s| == 1
    ensures Decode(Tail(s)) == Some(s)
  {
    hide Bits, Sextet, Letter, Value, Decode;
    var v0, v1, _, _ := GroupValues(s[0], 0, 0);
    DecodeTwoPads(Tail(s), v0, v1);
    assert s == [s[0]];
  }

  lemma DecodeNothing()
    ensures Decode([]) == Some([])
  {
  }

  /** Whatever is encoded decodes to itself. */
  lemma {:induction false} DecodeEncode(s: seq<Byte>)
    ensures Decode(Encode(s)) == Some(s)
  {
    hide *;
    EncodeByGroups(s);
    if s == [] {
      DecodeNothing();
    } else if |s| == 1 {
      DecodeOne(s);
    } else if |s| == 2 {
      DecodeTwo(s);
    } else {
      DecodeEncode(s[3..]);
      DecodeGroup(s[0], s[1], s[2], Encode(s[3..]));
      assert s == [s[0], s[1], s[2]] + s[3..];
    }
  }

  lemma PadHasNoValue()
    ensures Value(PAD) == None
  {
  }

  /** What it takes for a string to decode. */
  lemma DecodeNeeds(t: seq<Byte>)
    requires Decode(t).Some? && t != []
    ensures |t| >= 4 && Value(t[0]).Some? && Value(t[1]).Some?
    ensures |t| == 4 && t[3] == PAD && t[2] == PAD ==> Value(t[1]).value % 16 == 0
    ensures |t| == 4 && t[3] == PAD && t[2] != PAD ==> Value(t[2]).Some? && Value(t[2]).value % 4 == 0
    ensures !(|t| == 4 && t[3] == PAD) ==> Value(t[2]).Some? && Value(t[3]).Some? && Decode(t[4..]).Some?
  {
    hide Value;
  }

  /** Four sextets make three bytes that have just these sextets. */
  lemma LettersBack(t: seq<Byte>, v0: int, v1: int, v2: int, v3: int)
    requires |t| == 4
    requires Value(t[0]) == Some(v0) && Value(t[1]) == Some(v1) && Value(t[2]) == Some(v2) && Value(t[3]) == Some(v3)
    ensures Quartet(4 * v0 + v1 / 16, v1 % 16 * 16 + v2 / 4, v2 % 4 * 64 + v3) == t
  {
    hide Bits, Sextet, Letter, Value;
    LetterOfValue(t[0]);
    LetterOfValue(t[1]);
    LetterOfValue(t[2]);
    LetterOfValue(t[3]);
    BitsOfSextets(v0, v1, v2, v3);
  }

  lemma TailBackOnePad(t: seq<Byte>, v0: int, v1: int, v2: int)
    requires |t| == 4 && t[3] == PAD && v2 % 4 == 0
    requires Value(t[0]) == Some(v0) && Value(t[1]) == Some(v1) && Value(t[2]) == Some(v2)
    ensures Tail([4 * v0 + v1 / 16, v1 % 16 * 16 + v2 / 4]) == t
  {
    hide Bits, Sextet, Letter, Value;
    LetterOfValue(t[0]);
    LetterOfValue(t[1]);
    LetterOfValue(t[2]);
    BitsOfSextets(v0, v1, v2, 0);
  }

  lemma TailBackTwoPads(t: seq<Byte>, v0: int, v1: int)
    requires |t| == 4 && t[2] == PAD && t[3] == PAD && v1 % 16 == 0
    requires Value(t[0]) == Some(v0) && Value(t[1]) == Some(v1)
    ensures Tail([4 * v0 + v1 / 16]) == t
  {
    hide Bits, Sextet, Letter, Value;
    LetterOfValue(t[0]);
    LetterOfValue(t[1]);
    BitsOfSextets(v0, v1, 0, 0);
  }

  /** Only encodings decode: a decodable string is the encoding of what it decodes to. */
  lemma {:induction false} EncodeDecode(t: seq<Byte>)
    requires Decode(t).Some?
    ensures Encode(Decode(t).value) == t
  {
    hide *;
    if t == [] {
      DecodeNothing();
      EncodeByGroups([]);
    } else {
      DecodeNeeds(t);
      var v0, v1 := Value(t[0]).value, Value(t[1]).value;
      if |t| == 4 && t[3] == PAD && t[2] == PAD {
        DecodeTwoPads(t, v0, v1);
        TailBackTwoPads(t, v0, v1);
        EncodeByGroups(Decode(t).value);
      } else if |t| == 4 && t[3] == PAD {
        DecodeOnePad(t, v0, v1, Value(t[2]).value);
        TailBackOnePad(t, v0, v1, Value(t[2]).value);
        EncodeByGroups(Decode(t).value);
      } else {
        PadHasNoValue();
        DecodeQuartet(t, v0, v1, Value(t[2]).value, Value(t[3]).value);
        EncodeDecode(t[4..]);
        LettersBack(t[..4], v0, v1, Value(t[2]).value, Value(t[3]).value);
        EncodeByGroups(Decode(t).value);
        assert Decode(t).value[3..] == Decode(t[4..]).value;
        assert t == t[..4] + t[4..];
      }
    }
  }

  /** Distinct inputs have distinct encodings. */
  lemma EncodeIsInjective(s: seq<Byte>, t: seq<Byte>)
    ensures Encode(s) == Encode(t) <==> s == t
  {
    DecodeEncode(s);
    DecodeEncode(t);
  }

  method PutQuartet(dst: array<Byte>, di: nat, q: seq<Byte>)
    requires |q| == 4 && di + 4 <= dst.Length
    modifies dst
    ensures dst[..] == old(dst[..])[..di] + q + old(dst[..])[di + 4..]
  {
    dst[di], dst[di + 1], dst[di + 2], dst[di + 3] := q[0], q[1], q[2], q[3];
  }

  lemma Splice(buf: seq<Byte>, init: seq<Byte>, off: nat, w: seq<Byte>, q: seq<Byte>)
    requires off + |w| + |q| <= |init|
    requires buf == init[..off] + w + init[off + |w|..]
    ensures buf[..off + |w|] + q + buf[off + |w| + |q|..] == init[..off] + (w + q) + init[off + |w| + |q|..]
  {
    assert buf[..off + |w|] == init[..off] + w;
    assert buf[off + |w| + |q|..] == init[off + |w| + |q|..];
  }

  /** Taking one more group moves its quartet from what is left to what is written. */
  lemma TakeGroup(written: seq<Byte>, src: seq<Byte>, si: nat)
    requires si + 3 <= |src|
    ensures written + Encode(src[si..]) == written + Quartet(src[si], src[si + 1], src[si + 2]) + Encode(src[si + 3..])
  {
    hide *;
    EncodeByGroups(src[si..]);
    assert src[si..][3..] == src[si + 3..];
    ConcatAssociates(written, Quartet(src[si], src[si + 1], src[si + 2]), Encode(src[si + 3..]));
  }

  /** `base64.StdEncoding.Encode` into a buffer at an offset; bytes outside the encoding stay as they were. */
  method EncodeInto(dst: array<Byte>, off: nat, src: seq<Byte>)
    requires off + EncodedLen(|src|) <= dst.Length
    modifies dst
    ensures dst[..] == old(dst[..off]) + Encode(src) + old(dst[off + EncodedLen(|src|)..])
  {
    hide *;
    ghost var init, all := dst[..], Encode(src);
    ghost var written: seq<Byte> := [];
    var di, si := off, 0;
    LengthLeft(src);
    while |src| - si >= 3
      invariant 0 <= si <= |src| && di == off + |written|
      invariant all == written + Encode(src[si..])
      invariant dst[..] == init[..off] + written + init[di..]
    {
      TakeGroup(written, src, si);
      var q := Quartet(src[si], src[si + 1], src[si + 2]);
      Splice(dst[..], init, off, written, q);
      PutQuartet(dst, di, q);
      written := written + q;
      si := si + 3;
      di := di + 4;
    }
    EncodeByGroups(src[si..]);
    if si < |src| {
      var q := Tail(src[si..]);
      Splice(dst[..], init, off, written, q);
      PutQuartet(dst, di, q);
      written := written + q;
    }
    assert written == all;
  }

  lemma LengthLeft(src: seq<Byte>)
    ensures |Encode(src)| == EncodedLen(|src|)
    ensures src[0..] == src
  {
  }
}
