/** Unpadded base64url as Go's RawURLEncoding reads and writes it (RFC 4648, sections 3.2 and 5). */
module Base64Url {
  import opened Text

  type byte = b: int | 0 <= b < 256

  type sextet = v: int | 0 <= v < 64

  function Char(v: sextet): char {
    if v < 26 then ('A' as int + v) as char
    else if v < 52 then ('a' as int + (v - 26)) as char
    else if v < 62 then ('0' as int + (v - 52)) as char
    else if v == 62 then '-'
    else '_'
  }

  function Value(c: char): Option<sextet> {
    if 'A' <= c <= 'Z' then Some(c as int - 'A' as int)
    else if 'a' <= c <= 'z' then Some(c as int - 'a' as int + 26)
    else if '0' <= c <= '9' then Some(c as int - '0' as int + 52)
    else if c == '-' then Some(62)
    else if c == '_' then Some(63)
    else None
  }

  // The four sextets of three bytes, and the three bytes of four sextets.
  function S0(b0: byte): sextet { b0 / 4 }
  function S1(b0: byte, b1: byte): sextet { b0 % 4 * 16 + b1 / 16 }
  function S2(b1: byte, b2: byte): sextet { b1 % 16 * 4 + b2 / 64 }
  function S3(b2: byte): sextet { b2 % 64 }
  function B0(v0: sextet, v1: sextet): byte { v0 * 4 + v1 / 16 }
  function B1(v1: sextet, v2: sextet): byte { v1 % 16 * 16 + v2 / 4 }
  function B2(v2: sextet, v3: sextet): byte { v2 % 4 * 64 + v3 }

  lemma QuantumInverse(b0: byte, b1: byte, b2: byte)
    ensures B0(S0(b0), S1(b0, b1)) == b0 && B1(S1(b0, b1), S2(b1, b2)) == b1 && B2(S2(b1, b2), S3(b2)) == b2
  {
  }

  lemma SextetInverse(v0: sextet, v1: sextet, v2: sextet, v3: sextet)
    ensures S0(B0(v0, v1)) == v0 && S1(B0(v0, v1), B1(v1, v2)) == v1
    ensures S2(B1(v1, v2), B2(v2, v3)) == v2 && S3(B2(v2, v3)) == v3
    ensures S1(B0(v0, v1), 0) == v1 <==> v1 % 16 == 0
    ensures S2(B1(v1, v2), 0) == v2 <==> v2 % 4 == 0
  {
  }

  function Quantum(b0: byte, b1: byte, b2: byte): string {
    [Char(S0(b0)), Char(S1(b0, b1)), Char(S2(b1, b2)), Char(S3(b2))]
  }

  function Encode(b: seq<byte>): string {
    if |b| == 0 then ""
    else if |b| == 1 then [Char(S0(b[0])), Char(S1(b[0], 0))]
    else if |b| == 2 then [Char(S0(b[0])), Char(S1(b[0], b[1])), Char(S2(b[1], 0))]
    else Quantum(b[0], b[1], b[2]) + Encode(b[3..])
  }

  /** The decoder skips line breaks wherever they stand. */
  function StripBreaks(s: string): string {
    if s == "" then ""
    else if s[0] == '\r' || s[0] == '\n' then StripBreaks(s[1..])
    else [s[0]] + StripBreaks(s[1..])
  }

  /** Quanta of four characters, the last of which may have two or three; spare low bits of a short
      quantum are ignored, as the decoder is not strict. */
  function DecodeQuanta(s: string): Option<seq<byte>> {
    if |s| == 0 then Some([])
    else if |s| == 1 then None
    else
      var v0, v1 := Value(s[0]), Value(s[1]);
      if v0.None? || v1.None? then None
      else
        var b0 := B0(v0.value, v1.value);
        if |s| == 2 then Some([b0])
        else
          var v2 := Value(s[2]);
          if v2.None? then None
          else
            var b1 := B1(v1.value, v2.value);
            if |s| == 3 then Some([b0, b1])
            else
              var v3 := Value(s[3]);
              if v3.None? then None
              else
                var b2 := B2(v2.value, v3.value);
                var rest := DecodeQuanta(s[4..]);
                if rest.None? then None else Some([b0, b1, b2] + rest.value)
  }

  function Decode(s: string): Option<seq<byte>> {
    DecodeQuanta(StripBreaks(s))
  }

  // ---------- the encoder's image ----------

  predicate InAlphabet(s: string) {
    forall i :: 0 <= i < |s| ==> Value(s[i]).Some?
  }

  lemma ValueOfChar(v: sextet)
    ensures Value(Char(v)) == Some(v)
  {
  }

  lemma CharInjective(v: sextet, w: sextet)
    ensures Char(v) == Char(w) <==> v == w
  {
    ValueOfChar(v);
    ValueOfChar(w);
  }

  lemma {:induction false} EncodeInAlphabet(b: seq<byte>)
    ensures InAlphabet(Encode(b))
    ensures |Encode(b)| == (|b| * 4 + 2) / 3
  {
    if |b| < 3 {
    } else {
      EncodeInAlphabet(b[3..]);
    }
  }

  lemma {:induction false} NothingToStrip(s: string)
    requires InAlphabet(s)
    ensures StripBreaks(s) == s
  {
    if s == "" {
    } else {
      assert InAlphabet(s[1..]);
      NothingToStrip(s[1..]);
      assert Value(s[0]).Some?;
    }
  }

  lemma QuantumDecodes(b0: byte, b1: byte, b2: byte)
    ensures
      var q := Quantum(b0, b1, b2);
      && Value(q[0]) == Some(S0(b0)) && Value(q[1]) == Some(S1(b0, b1))
      && Value(q[2]) == Some(S2(b1, b2)) && Value(q[3]) == Some(S3(b2))
  {
    ValueOfChar(S0(b0));
    ValueOfChar(S1(b0, b1));
    ValueOfChar(S2(b1, b2));
    ValueOfChar(S3(b2));
  }

  lemma OneByte(b0: byte)
    ensures DecodeQuanta([Char(S0(b0)), Char(S1(b0, 0))]) == Some([b0])
  {
    var v0, v1 := S0(b0), S1(b0, 0);
    ValueOfChar(v0);
    ValueOfChar(v1);
    QuantumInverse(b0, 0, 0);
    TwoSextets(v0, v1);
  }

  lemma TwoSextets(v0: sextet, v1: sextet)
    requires Value(Char(v0)) == Some(v0) && Value(Char(v1)) == Some(v1)
    ensures DecodeQuanta([Char(v0), Char(v1)]) == Some([B0(v0, v1)])
  {
  }

  lemma TwoBytes(b0: byte, b1: byte)
    ensures DecodeQuanta([Char(S0(b0)), Char(S1(b0, b1)), Char(S2(b1, 0))]) == Some([b0, b1])
  {
    QuantumDecodes(b0, b1, 0);
    QuantumInverse(b0, b1, 0);
  }

  lemma ThreeBytes(b0: byte, b1: byte, b2: byte, tail: string)
    requires DecodeQuanta(tail).Some?
    ensures DecodeQuanta(Quantum(b0, b1, b2) + tail) == Some([b0, b1, b2] + DecodeQuanta(tail).value)
  {
    QuantumDecodes(b0, b1, b2);
    QuantumInverse(b0, b1, b2);
    var q := Quantum(b0, b1, b2);
    var s := q + tail;
    assert s[0] == q[0] && s[1] == q[1] && s[2] == q[2] && s[3] == q[3] && s[4..] == tail;
  }

  lemma ShortRound(b: seq<byte>)
    requires |b| < 3
    ensures DecodeQuanta(Encode(b)) == Some(b)
  {
    if |b| == 1 {
      OneByte(b[0]);
      assert b == [b[0]];
    } else if |b| == 2 {
      TwoBytes(b[0], b[1]);
      assert b == [b[0], b[1]];
    }
  }

  lemma LongRound(b: seq<byte>)
    requires |b| >= 3 && DecodeQuanta(Encode(b[3..])) == Some(b[3..])
    ensures DecodeQuanta(Encode(b)) == Some(b)
  {
    var tail := Encode(b[3..]);
    ThreeBytes(b[0], b[1], b[2], tail);
    assert [b[0], b[1], b[2]] + b[3..] == b;
  }

  lemma {:induction false} DecodeQuantaInverts(b: seq<byte>)
    ensures DecodeQuanta(Encode(b)) == Some(b)
  {
    if |b| < 3 {
      ShortRound(b);
    } else {
      DecodeQuantaInverts(b[3..]);
      LongRound(b);
    }
  }

  /** Decoding inverts encoding on every byte string. */
  lemma DecodeInvertsEncode(b: seq<byte>)
    ensures Decode(Encode(b)) == Some(b)
  {
    EncodeInAlphabet(b);
    NothingToStrip(Encode(b));
    DecodeQuantaInverts(b);
  }

  // ---------- the encoding, bit by bit ----------

  /** The table of RFC 4648, section 5: A to Z, a to z, 0 to 9, '-' and '_', in this order. */
  lemma CharTable(v: sextet)
    ensures Char(0) == 'A' && Char(25) == 'Z' && Char(26) == 'a' && Char(51) == 'z'
    ensures Char(52) == '0' && Char(61) == '9' && Char(62) == '-' && Char(63) == '_'
    ensures v !in {25, 51, 61, 62, 63} ==> Char(v + 1) as int == Char(v) as int + 1
  {
  }

  /** Byte i, or the padding behind the last. */
  function ByteAt(b: seq<byte>, i: nat): byte {
    if i < |b| then b[i] else 0
  }

  /** Bits 6k to 6k + 5 of the bytes, the highest bit of each byte first. */
  function BitsAt(b: seq<byte>, k: nat): sextet {
    var i := k / 4 * 3;
    var group := ByteAt(b, i) * 0x1_0000 + ByteAt(b, i + 1) * 0x100 + ByteAt(b, i + 2);
    match k % 4
    case 0 => group / 0x4_0000
    case 1 => group / 0x1000 % 64
    case 2 => group / 64 % 64
    case _ => group % 64
  }

  lemma Divides(n: int, d: int, q: int, r: int)
    requires d > 0 && n == q * d + r && 0 <= r < d
    ensures n / d == q && n % d == r
  {
    var k := n / d - q;
    assert k * d == r - n % d;
    assert k >= 1 ==> k * d >= d;
    assert k <= -1 ==> k * d <= -d;
  }

  lemma QuantumBits(b0: byte, b1: byte, b2: byte)
    ensures
      var group := b0 * 0x1_0000 + b1 * 0x100 + b2;
      && S0(b0) == group / 0x4_0000 && S1(b0, b1) == group / 0x1000 % 64
      && S2(b1, b2) == group / 64 % 64 && S3(b2) == group % 64
  {
    var group := b0 * 0x1_0000 + b1 * 0x100 + b2;
    Divides(group, 0x4_0000, b0 / 4, b0 % 4 * 0x1_0000 + b1 * 0x100 + b2);
    Divides(group, 0x1000, b0 * 16 + b1 / 16, b1 % 16 * 0x100 + b2);
    Divides(b0 * 16 + b1 / 16, 64, b0 / 4, S1(b0, b1));
    Divides(group, 64, b0 * 1024 + b1 * 4 + b2 / 64, b2 % 64);
    Divides(b0 * 1024 + b1 * 4 + b2 / 64, 64, b0 * 16 + b1 / 16, S2(b1, b2));
  }

  lemma BitsOfRest(b: seq<byte>, k: nat)
    requires |b| >= 3 && k >= 4
    ensures BitsAt(b, k) == BitsAt(b[3..], k - 4)
  {
    var i := k / 4 * 3;
    assert (k - 4) / 4 * 3 == i - 3;
    assert ByteAt(b, i) == ByteAt(b[3..], i - 3) && ByteAt(b, i + 1) == ByteAt(b[3..], i - 2)
        && ByteAt(b, i + 2) == ByteAt(b[3..], i - 1);
  }

  /** Character k of the encoding stands for bits 6k to 6k + 5, zero bits filling up the last. */
  lemma {:induction false} EncodeBits(b: seq<byte>, k: nat)
    requires k < |Encode(b)|
    ensures Encode(b)[k] == Char(BitsAt(b, k))
    decreases |b|
  {
    QuantumBits(ByteAt(b, 0), ByteAt(b, 1), ByteAt(b, 2));
    if |b| < 3 || k < 4 {
    } else {
      BitsOfRest(b, k);
      EncodeBits(b[3..], k - 4);
    }
  }

  // ---------- everything the decoder accepts ----------

  /** The spare bits of the last quantum are zero. */
  predicate Canonical(s: string)
    requires InAlphabet(s)
  {
    match |s| % 4
    case 2 => Value(s[|s| - 1]).value % 16 == 0
    case 3 => Value(s[|s| - 1]).value % 4 == 0
    case _ => true
  }

  lemma CharOfValue(c: char)
    requires Value(c).Some?
    ensures Char(Value(c).value) == c
  {
  }

  lemma LongDecodes(s: string)
    requires |s| >= 4 && DecodeQuanta(s).Some?
    ensures InAlphabet(s[..4]) && DecodeQuanta(s[4..]).Some?
    ensures |DecodeQuanta(s).value| == 3 + |DecodeQuanta(s[4..]).value|
    ensures Encode(DecodeQuanta(s).value) == s[..4] + Encode(DecodeQuanta(s[4..]).value)
  {
    var v0, v1, v2, v3 := Value(s[0]).value, Value(s[1]).value, Value(s[2]).value, Value(s[3]).value;
    SextetInverse(v0, v1, v2, v3);
    CharOfValue(s[0]);
    CharOfValue(s[1]);
    CharOfValue(s[2]);
    CharOfValue(s[3]);
    var b := DecodeQuanta(s).value;
    assert b[3..] == DecodeQuanta(s[4..]).value;
    assert s[..4] == [s[0], s[1], s[2], s[3]];
  }

  lemma {:induction false} QuantaLength(s: string, quanta: nat, spare: nat)
    requires DecodeQuanta(s).Some? && |s| == 4 * quanta + spare && spare < 4
    ensures spare != 1
    ensures |DecodeQuanta(s).value| == 3 * quanta + (if spare == 0 then 0 else spare - 1)
  {
    if quanta == 0 {
    } else {
      LongDecodes(s);
      QuantaLength(s[4..], quanta - 1, spare);
    }
  }

  /** The number of bytes is fixed by the number of characters other than line breaks. */
  lemma DecodedLength(s: string)
    requires Decode(s).Some?
    ensures |Decode(s).value| == |StripBreaks(s)| * 3 / 4
  {
    var n := |StripBreaks(s)|;
    QuantaLength(StripBreaks(s), n / 4, n % 4);
  }

  lemma {:induction false} AlphabetDecodes(s: string)
    requires InAlphabet(s) && |s| % 4 != 1
    ensures DecodeQuanta(s).Some?
  {
    if |s| < 4 {
    } else {
      assert InAlphabet(s[4..]);
      AlphabetDecodes(s[4..]);
    }
  }

  /** A text decodes exactly when its characters other than line breaks are of the alphabet and their
      number is not 1 modulo 4. */
  lemma Decodable(s: string)
    ensures Decode(s).Some? <==> InAlphabet(StripBreaks(s)) && |StripBreaks(s)| % 4 != 1
  {
    var clean := StripBreaks(s);
    if Decode(s).Some? {
      QuantaLength(clean, |clean| / 4, |clean| % 4);
      EncodeInvertsQuanta(clean);
    } else if InAlphabet(clean) && |clean| % 4 != 1 {
      AlphabetDecodes(clean);
    }
  }

  lemma ShortDecodes(s: string)
    requires |s| < 4 && DecodeQuanta(s).Some?
    ensures InAlphabet(s) && (Encode(DecodeQuanta(s).value) == s <==> Canonical(s))
  {
    if |s| == 2 {
      TwoChars(s);
    } else if |s| == 3 {
      ThreeChars(s);
    }
  }

  lemma TwoChars(s: string)
    requires |s| == 2 && InAlphabet(s)
    ensures DecodeQuanta(s).Some? && (Encode(DecodeQuanta(s).value) == s <==> Value(s[1]).value % 16 == 0)
  {
    var v0, v1 := Value(s[0]).value, Value(s[1]).value;
    SextetInverse(v0, v1, 0, 0);
    CharOfValue(s[0]);
    CharOfValue(s[1]);
    CharInjective(S1(B0(v0, v1), 0), v1);
    assert s == [Char(v0), Char(v1)];
  }

  lemma ThreeChars(s: string)
    requires |s| == 3 && InAlphabet(s)
    ensures DecodeQuanta(s).Some? && (Encode(DecodeQuanta(s).value) == s <==> Value(s[2]).value % 4 == 0)
  {
    var v0, v1, v2 := Value(s[0]).value, Value(s[1]).value, Value(s[2]).value;
    SextetInverse(v0, v1, v2, 0);
    CharOfValue(s[0]);
    CharOfValue(s[1]);
    CharOfValue(s[2]);
    CharInjective(S2(B1(v1, v2), 0), v2);
    assert s == [Char(v0), Char(v1), Char(v2)];
  }

  lemma {:induction false} EncodeInvertsQuanta(s: string)
    requires DecodeQuanta(s).Some?
    ensures InAlphabet(s) && (Encode(DecodeQuanta(s).value) == s <==> Canonical(s))
  {
    if |s| < 4 {
      ShortDecodes(s);
    } else {
      LongDecodes(s);
      EncodeInvertsQuanta(s[4..]);
      SameTail(s, 4, Encode(DecodeQuanta(s[4..]).value));
      CanonicalTail(s);
    }
  }

  /** Re-encoding gives back the text, without its line breaks, exactly when its spare bits are zero. */
  lemma EncodeInvertsDecode(s: string)
    requires Decode(s).Some?
    ensures
      var clean := StripBreaks(s);
      InAlphabet(clean) && (Encode(Decode(s).value) == clean <==> Canonical(clean))
  {
    EncodeInvertsQuanta(StripBreaks(s));
  }

  lemma SameTail(s: string, n: nat, tail: string)
    requires n <= |s|
    ensures s[..n] + tail == s <==> tail == s[n..]
  {
    assert (s[..n] + tail)[n..] == tail;
    assert s == s[..n] + s[n..];
  }

  lemma CanonicalTail(s: string)
    requires |s| >= 4 && InAlphabet(s[..4]) && InAlphabet(s[4..])
    ensures InAlphabet(s) && (Canonical(s) <==> Canonical(s[4..]))
  {
    forall i | 0 <= i < |s|
      ensures Value(s[i]).Some?
    {
      assert s[i] == if i < 4 then s[..4][i] else s[4..][i - 4];
    }
    if |s| > 4 {
      assert s[4..][|s| - 5] == s[|s| - 1];
    }
  }

  lemma {:induction false} StripConcat(s: string, t: string)
    ensures StripBreaks(s + t) == StripBreaks(s) + StripBreaks(t)
  {
    if s == "" {
      assert s + t == t;
    } else {
      assert (s + t)[1..] == s[1..] + t;
      StripConcat(s[1..], t);
    }
  }
}
