/** pkg/auth/auth.go: session tokens in JWS compact form (RFC 7515, section 7.1). */
module Token {
  import opened Text
  import opened GoInt
  import opened GoTime
  import opened Base64Url

  // ---------- claims ----------

  datatype Claims = Claims(subject: string, issuedAt: int64, expiresAt: int64)

  /** Printable ASCII that encoding/json writes and reads without escapes. */
  predicate Plain(s: string) {
    forall i :: 0 <= i < |s| ==> ' ' <= s[i] <= '~' && s[i] !in {'"', '\\', '<', '>', '&'}
  }

  const SUB := "{\"sub\":\""
  const IAT := "\",\"iat\":"
  const EXP := ",\"exp\":"
  const END := "}"

  /** json.Marshal of TokenClaims. */
  function Marshal(c: Claims): string {
    SUB + (c.subject + (IAT + (IntText(c.issuedAt) + (EXP + (IntText(c.expiresAt) + END)))))
  }

  /** A JSON integer in int64 range, without superfluous zeros, and the text after it. */
  function TakeInt(s: string): Option<(int64, string)> {
    var (negative, body) := TakeMinus(s);
    var scan := TakeNat(body);
    if scan.None? then None
    else
      var (magnitude, rest) := scan.value;
      var m: int := magnitude;
      var n := if negative then -m else m;
      if body[0] == '0' && |rest| + 1 < |body| then None
      else if -TWO_63 <= n < TWO_63 then Some((n, rest))
      else None
  }

  function Expect(s: string, literal: string): Option<string> {
    if HasPrefix(s, literal) then Some(s[|literal|..]) else None
  }

  /** json.Unmarshal restricted to the shape Marshal writes. */
  function Unmarshal(s: string): Option<Claims> {
    var s1 := Expect(s, SUB);
    if s1.None? then None
    else
      var i := Index(s1.value, '"');
      var s2 := Expect(s1.value[i..], IAT);
      if s2.None? || !Plain(s1.value[..i]) then None
      else
        var iat := TakeInt(s2.value);
        if iat.None? then None
        else
          var s3 := Expect(iat.value.1, EXP);
          if s3.None? then None
          else
            var exp := TakeInt(s3.value);
            if exp.None? || exp.value.1 != END then None
            else Some(Claims(s1.value[..i], iat.value.0, exp.value.0))
  }

  lemma TakeIntPrinted(n: int64, rest: string)
    requires rest != "" && !IsDigit(rest[0])
    ensures TakeInt(IntText(n) + rest) == Some((n, rest))
  {
    TakeMinusPrinted(n, rest);
    TakeNatPrinted(Abs(n), rest);
    NatTextRoundTrip(Abs(n));
    var body := NatText(Abs(n)) + rest;
    assert body[0] == NatText(Abs(n))[0];
  }

  /** Parsing inverts printing for every claims value with a plain subject. */
  lemma UnmarshalInvertsMarshal(c: Claims)
    requires Plain(c.subject)
    ensures Unmarshal(Marshal(c)) == Some(c)
  {
    var s4 := IntText(c.expiresAt) + END;
    var s3 := EXP + s4;
    var s2 := IntText(c.issuedAt) + s3;
    var s1 := c.subject + (IAT + s2);
    PrefixOfConcat(SUB, s1);
    IndexOfQuote(c.subject, s2);
    PrefixOfConcat(IAT, s2);
    TakeIntPrinted(c.issuedAt, s3);
    PrefixOfConcat(EXP, s4);
    TakeIntPrinted(c.expiresAt, END);
  }

  // ---------- what is parsed ----------

  /** A JSON text of the integer n. */
  predicate Denotes(text: string, n: int) {
    text == IntText(n) || (n == 0 && text == "-0")
  }

  lemma TakenNat(body: string)
    requires TakeNat(body).Some?
    ensures
      var (n, rest) := TakeNat(body).value;
      && |rest| < |body| && (rest == "" || !IsDigit(rest[0])) && body == body[..|body| - |rest|] + rest
      && ((body[0] == '0' ==> |rest| + 1 == |body|) ==> body[..|body| - |rest|] == NatText(n))
  {
    var digits := body[..DigitRun(body)];
    assert digits[0] == body[0];
    if body[0] == '0' ==> |digits| == 1 {
      NatValueRoundTrip(digits);
    }
  }

  lemma TakenInt(s: string)
    requires TakeInt(s).Some?
    ensures
      var (n, rest) := TakeInt(s).value;
      && |rest| <= |s| && (rest == "" || !IsDigit(rest[0]))
      && s == s[..|s| - |rest|] + rest && Denotes(s[..|s| - |rest|], n)
  {
    var (negative, body) := TakeMinus(s);
    TakenNat(body);
    var rest := TakeInt(s).value.1;
    var digits := body[..|body| - |rest|];
    if negative {
      assert s[..|s| - |rest|] == "-" + digits;
      assert NatText(0) == "0";
    }
  }

  lemma MinusZero(rest: string)
    requires rest != "" && !IsDigit(rest[0])
    ensures TakeInt("-0" + rest) == Some((0, rest))
  {
    TakeNatPrinted(0, rest);
    assert NatText(0) == "0";
    assert ("-0" + rest)[1..] == "0" + rest;
  }

  lemma TakeIntDenoted(text: string, n: int64, rest: string)
    requires Denotes(text, n) && rest != "" && !IsDigit(rest[0])
    ensures TakeInt(text + rest) == Some((n, rest))
  {
    if text == IntText(n) {
      TakeIntPrinted(n, rest);
    } else {
      MinusZero(rest);
    }
  }

  /** The claims text with the integers spelled like this. */
  function ClaimsText(subject: string, iat: string, exp: string): string {
    "{\"sub\":\"" + (subject + ("\",\"iat\":" + (iat + (",\"exp\":" + (exp + "}")))))
  }

  ghost predicate Spells(s: string, c: Claims, iat: string, exp: string) {
    Denotes(iat, c.issuedAt) && Denotes(exp, c.expiresAt) && s == ClaimsText(c.subject, iat, exp)
  }

  lemma ParsesSpelled(s: string, c: Claims, iat: string, exp: string)
    requires Plain(c.subject) && Spells(s, c, iat, exp)
    ensures Unmarshal(s) == Some(c)
  {
    var s4 := exp + END;
    var s3 := EXP + s4;
    var s2 := iat + s3;
    var s1 := c.subject + (IAT + s2);
    PrefixOfConcat(SUB, s1);
    IndexOfQuote(c.subject, s2);
    PrefixOfConcat(IAT, s2);
    TakeIntDenoted(iat, c.issuedAt, s3);
    PrefixOfConcat(EXP, s4);
    TakeIntDenoted(exp, c.expiresAt, END);
  }

  lemma ExpectedText(s: string, literal: string)
    requires Expect(s, literal).Some?
    ensures s == literal + Expect(s, literal).value
  {
  }

  /** The tail of the claims text, from ",\"iat\":" on. */
  lemma SpelledNumbers(s: string) returns (iat: string, exp: string)
    requires Expect(s, IAT).Some? && TakeInt(Expect(s, IAT).value).Some?
    requires
      var s3 := Expect(TakeInt(Expect(s, IAT).value).value.1, EXP);
      s3.Some? && TakeInt(s3.value).Some? && TakeInt(s3.value).value.1 == END
    ensures
      var n := TakeInt(Expect(s, IAT).value).value;
      && Denotes(iat, n.0) && Denotes(exp, TakeInt(Expect(n.1, EXP).value).value.0)
      && s == IAT + (iat + (EXP + (exp + END)))
  {
    var s2 := Expect(s, IAT).value;
    var s3 := Expect(TakeInt(s2).value.1, EXP).value;
    iat := s2[..|s2| - |TakeInt(s2).value.1|];
    exp := s3[..|s3| - |END|];
    ExpectedText(s, IAT);
    TakenInt(s2);
    ExpectedText(TakeInt(s2).value.1, EXP);
    TakenInt(s3);
  }

  lemma SpelledParses(s: string) returns (iat: string, exp: string)
    requires Unmarshal(s).Some?
    ensures Plain(Unmarshal(s).value.subject) && Spells(s, Unmarshal(s).value, iat, exp)
  {
    var s1 := Expect(s, SUB).value;
    var i := Index(s1, '"');
    ExpectedText(s, SUB);
    assert s1 == s1[..i] + s1[i..];
    iat, exp := SpelledNumbers(s1[i..]);
  }

  /** Exactly the texts of this shape are parsed, whatever text they are found in. */
  lemma UnmarshalExactly(s: string, c: Claims)
    ensures Unmarshal(s) == Some(c) <==> Plain(c.subject) && exists iat, exp :: Spells(s, c, iat, exp)
  {
    if Unmarshal(s) == Some(c) {
      var iat, exp := SpelledParses(s);
    }
    if Plain(c.subject) && exists iat, exp :: Spells(s, c, iat, exp) {
      var iat, exp :| Spells(s, c, iat, exp);
      ParsesSpelled(s, c, iat, exp);
    }
  }

  lemma IndexOfQuote(subject: string, rest: string)
    requires Plain(subject)
    ensures
      var s := subject + (IAT + rest);
      var i := Index(s, '"');
      i == |subject| && s[..i] == subject && s[i..] == IAT + rest
  {
    var s := subject + (IAT + rest);
    IndexOfFirst(subject, '"', IAT[1..] + rest);
    assert s == subject + ['"'] + (IAT[1..] + rest);
    assert s[..|subject|] == subject;
  }

  // ---------- text and bytes ----------

  predicate Ascii(s: string) {
    forall i :: 0 <= i < |s| ==> s[i] as int < 128
  }

  function ToBytes(s: string): seq<byte>
    requires Ascii(s)
  {
    seq(|s|, i requires 0 <= i < |s| => s[i] as int)
  }

  function ToText(b: seq<byte>): string {
    seq(|b|, i requires 0 <= i < |b| => b[i] as char)
  }

  lemma {:induction false} NatTextAscii(n: nat)
    ensures Ascii(NatText(n))
  {
    if n < 10 {
    } else {
      NatTextAscii(n / 10);
    }
  }

  lemma IntTextAscii(n: int)
    ensures Ascii(IntText(n))
  {
    NatTextAscii(if n < 0 then -n else n);
  }

  lemma MarshalAscii(c: Claims)
    requires Plain(c.subject)
    ensures Ascii(Marshal(c))
  {
    IntTextAscii(c.issuedAt);
    IntTextAscii(c.expiresAt);
    assert Ascii(SUB) && Ascii(IAT) && Ascii(EXP) && Ascii(END) && Ascii(c.subject);
  }

  lemma TextOfBytes(s: string)
    requires Ascii(s)
    ensures ToText(ToBytes(s)) == s
  {
  }

  // ---------- tokens ----------

  /** mac stands for HMAC-SHA256: any function of key and message with 32-byte results. */
  datatype Authenticator = Authenticator(secret: string, mac: (string, string) -> seq<byte>)

  ghost predicate Mac32(a: Authenticator) {
    forall m :: |a.mac(a.secret, m)| == 32
  }

  datatype TokenError = Malformed | BadSignatureEncoding | BadSignature | BadPayloadEncoding | BadClaims | Expired

  datatype Result<T> = Ok(value: T) | Err(error: TokenError)

  /** The instants whose Unix seconds an int64 holds. */
  predicate Representable(nanos: int) {
    -TWO_63 * SECOND <= nanos < TWO_63 * SECOND
  }

  const HEADER := "{\"alg\":\"HS256\",\"typ\":\"JWT\"}"

  function HeaderBytes(): seq<byte> {
    assert Ascii(HEADER);
    ToBytes(HEADER)
  }

  function SigningInput(c: Claims): string
    requires Ascii(Marshal(c))
  {
    Encode(HeaderBytes()) + "." + Encode(ToBytes(Marshal(c)))
  }

  function SignatureOf(a: Authenticator, c: Claims): seq<byte>
    requires Ascii(Marshal(c))
  {
    a.mac(a.secret, SigningInput(c))
  }

  function Sign(a: Authenticator, c: Claims): string
    requires Ascii(Marshal(c))
  {
    SigningInput(c) + "." + Encode(SignatureOf(a, c))
  }

  /** The claims of a token issued at t0 (t1 is the second clock reading) for `duration`. */
  function IssuedClaims(t0: int, t1: int, duration: int): (c: Claims)
    requires Representable(t0 + duration) && Representable(t1)
    ensures Plain(c.subject) && Ascii(Marshal(c))
    ensures c == Claims("admin", Unix(t1), Unix(t0 + duration))
  {
    var c := Claims("admin", Unix(t1), Unix(t0 + duration));
    MarshalAscii(c);
    c
  }

  function IssueToken(a: Authenticator, t0: int, t1: int, duration: int): (string, int64)
    requires Representable(t0 + duration) && Representable(t1)
  {
    var c := IssuedClaims(t0, t1, duration);
    (Sign(a, c), c.expiresAt)
  }

  function ValidateToken(a: Authenticator, token: string, now: int): Result<Claims> {
    var parts := Split(token, '.');
    if |parts| != 3 then Err(Malformed)
    else
      var signingInput := parts[0] + "." + parts[1];
      var sig := Decode(parts[2]);
      if sig.None? then Err(BadSignatureEncoding)
      else if sig.value != a.mac(a.secret, signingInput) then Err(BadSignature)
      else
        var payload := Decode(parts[1]);
        if payload.None? then Err(BadPayloadEncoding)
        else
          var claims := Unmarshal(ToText(payload.value));
          if claims.None? then Err(BadClaims)
          else if Unix(now) > claims.value.expiresAt then Err(Expired)
          else Ok(claims.value)
  }

  // ---------- what is accepted ----------

  /** The three parts are a header, a payload of these claims and the signature over both. */
  ghost predicate Attests(a: Authenticator, header: string, payload: string, signature: string, c: Claims) {
    && Decode(signature) == Some(a.mac(a.secret, header + "." + payload))
    && Decode(payload).Some? && Unmarshal(ToText(Decode(payload).value)) == Some(c)
  }

  /** A token is accepted with claims c exactly if it consists of three parts of which the last is the
      signature of the first two, the second is c, and c has not expired. */
  lemma AcceptedExactly(a: Authenticator, token: string, now: int, c: Claims)
    ensures ValidateToken(a, token, now) == Ok(c) <==>
              (exists h, p, s :: Split(token, '.') == [h, p, s] && Attests(a, h, p, s, c)) && Unix(now) <= c.expiresAt
  {
    var parts := Split(token, '.');
    if |parts| == 3 {
      assert parts == [parts[0], parts[1], parts[2]];
    }
  }

  /** The refusals, in the order of the checks. */
  lemma RefusedExactly(a: Authenticator, token: string, now: int, h: string, p: string, s: string)
    ensures Split(token, '.') == [h, p, s] ==>
              var verdict, sig := ValidateToken(a, token, now), Decode(s);
              && verdict != Err(Malformed)
              && (verdict == Err(BadSignatureEncoding) <==> sig.None?)
              && (verdict == Err(BadSignature) <==> sig.Some? && sig.value != a.mac(a.secret, h + "." + p))
    ensures ValidateToken(a, token, now) == Err(Malformed) <==> |Split(token, '.')| != 3
  {
    var parts := Split(token, '.');
    if parts == [h, p, s] {
      assert parts[0] == h && parts[1] == p && parts[2] == s;
    }
  }

  /** Nothing but the right signature will do: the signing input of any claims with other bytes as its
      signature is refused. */
  lemma OtherSignatureRefused(a: Authenticator, c: Claims, other: seq<byte>, now: int)
    requires Ascii(Marshal(c)) && other != SignatureOf(a, c)
    ensures ValidateToken(a, SigningInput(c) + "." + Encode(other), now) == Err(BadSignature)
  {
    var h, p, s := Encode(HeaderBytes()), Encode(ToBytes(Marshal(c))), Encode(other);
    EncodeInAlphabet(HeaderBytes());
    EncodeInAlphabet(ToBytes(Marshal(c)));
    EncodeInAlphabet(other);
    ThreeParts(h, p, s, "");
    AlphabetFree(s);
    SplitFirst(s, '.', "");
    assert s + "" == s && h + "." + p + "." + s + "" == SigningInput(c) + "." + s;
    assert [h, p] + [s] == [h, p, s];
    DecodeInvertsEncode(other);
    RefusedExactly(a, SigningInput(c) + "." + s, now, h, p, s);
  }

  lemma MarshalText(c: Claims)
    ensures Marshal(c) == ClaimsText(c.subject, IntText(c.issuedAt), IntText(c.expiresAt))
  {
  }

  lemma HeaderText()
    ensures ToText(HeaderBytes()) == "{\"alg\":\"HS256\",\"typ\":\"JWT\"}"
  {
    assert Ascii(HEADER);
    TextOfBytes(HEADER);
  }

  /** The three parts of a signed token, decoded. */
  lemma SignedText(a: Authenticator, c: Claims)
    requires Ascii(Marshal(c))
    ensures
      var parts := Split(Sign(a, c), '.');
      && |parts| == 3
      && Decode(parts[0]) == Some(HeaderBytes()) && Decode(parts[1]) == Some(ToBytes(Marshal(c)))
      && Decode(parts[2]) == Some(a.mac(a.secret, parts[0] + "." + parts[1]))
  {
    StillThreeParts(a, c, "");
    assert Sign(a, c) + "" == Sign(a, c) && Encode(SignatureOf(a, c)) + "" == Encode(SignatureOf(a, c));
    DecodeInvertsEncode(HeaderBytes());
    DecodeInvertsEncode(ToBytes(Marshal(c)));
    DecodeInvertsEncode(SignatureOf(a, c));
  }

  /** An issued token spelled out: its header and claims as text, and the signature over both. */
  lemma IssuedText(a: Authenticator, t0: int, t1: int, duration: int)
    requires Representable(t0 + duration) && Representable(t1)
    ensures
      var (token, exp) := IssueToken(a, t0, t1, duration);
      var parts := Split(token, '.');
      && |parts| == 3
      && Decode(parts[0]).Some? && ToText(Decode(parts[0]).value) == "{\"alg\":\"HS256\",\"typ\":\"JWT\"}"
      && Decode(parts[1]).Some?
      && ToText(Decode(parts[1]).value) == ClaimsText("admin", IntText(Unix(t1)), IntText(Unix(t0 + duration)))
      && Decode(parts[2]) == Some(a.mac(a.secret, parts[0] + "." + parts[1]))
  {
    var c := IssuedClaims(t0, t1, duration);
    SignedText(a, c);
    HeaderText();
    TextOfBytes(Marshal(c));
    MarshalText(c);
  }

  // ---------- round trip ----------

  lemma AlphabetFree(s: string)
    requires InAlphabet(s)
    ensures Free(s, '.')
  {
    assert Value('.').None?;
  }

  /** Three dot-free parts come apart again, and dots in appended text make further parts. */
  lemma ThreeParts(h: string, p: string, s: string, tail: string)
    requires InAlphabet(h) && InAlphabet(p) && InAlphabet(s)
    ensures Split(h + "." + p + "." + s + tail, '.') == [h, p] + Split(s + tail, '.')
  {
    AlphabetFree(h);
    AlphabetFree(p);
    SplitFirst(h, '.', p + "." + (s + tail));
    SplitFirst(p, '.', s + tail);
    ConcatAssoc(h + "." + p + ".", s, tail);
    ConcatAssoc(h + ".", p + ".", s + tail);
    ConcatAssoc(h + ".", p, ".");
  }

  lemma SignedParts(a: Authenticator, c: Claims, tail: string)
    requires Ascii(Marshal(c))
    ensures
      Split(Sign(a, c) + tail, '.')
      == [Encode(HeaderBytes()), Encode(ToBytes(Marshal(c)))] + Split(Encode(SignatureOf(a, c)) + tail, '.')
    ensures Free(tail, '.') ==> Free(Encode(SignatureOf(a, c)) + tail, '.')
  {
    EncodeInAlphabet(HeaderBytes());
    EncodeInAlphabet(ToBytes(Marshal(c)));
    EncodeInAlphabet(SignatureOf(a, c));
    AlphabetFree(Encode(SignatureOf(a, c)));
    ThreeParts(Encode(HeaderBytes()), Encode(ToBytes(Marshal(c))), Encode(SignatureOf(a, c)), tail);
  }

  /** With dot-free text appended there are still exactly three parts. */
  lemma StillThreeParts(a: Authenticator, c: Claims, tail: string)
    requires Ascii(Marshal(c)) && Free(tail, '.')
    ensures
      Split(Sign(a, c) + tail, '.')
      == [Encode(HeaderBytes()), Encode(ToBytes(Marshal(c))), Encode(SignatureOf(a, c)) + tail]
  {
    SignedParts(a, c, tail);
    SplitFirst(Encode(SignatureOf(a, c)) + tail, '.', "");
  }

  /** A signed token is accepted with its own claims until they expire, and only then refused. */
  lemma ValidateSigned(a: Authenticator, c: Claims, now: int)
    requires Plain(c.subject) && Ascii(Marshal(c))
    ensures ValidateToken(a, Sign(a, c), now) == if Unix(now) > c.expiresAt then Err(Expired) else Ok(c)
  {
    StillThreeParts(a, c, "");
    var sig := SignatureOf(a, c);
    assert Sign(a, c) + "" == Sign(a, c) && Encode(sig) + "" == Encode(sig);
    DecodeInvertsEncode(sig);
    DecodeInvertsEncode(ToBytes(Marshal(c)));
    TextOfBytes(Marshal(c));
    UnmarshalInvertsMarshal(c);
  }

  /** A token issued at t0 for d is accepted, with its claims, exactly while the whole seconds of the
      clock do not exceed those of t0 + d: at every t <= t0 + d, and at no t >= t0 + d + 1s. */
  lemma TokenRoundTrip(a: Authenticator, t0: int, t1: int, duration: int, now: int)
    requires Representable(t0 + duration) && Representable(t1)
    ensures
      var (token, exp) := IssueToken(a, t0, t1, duration);
      var verdict := ValidateToken(a, token, now);
      && exp == Unix(t0 + duration)
      && (verdict == Ok(Claims("admin", Unix(t1), exp)) <==> Unix(now) <= exp)
      && (now <= t0 + duration ==> verdict.Ok?)
      && (now >= t0 + duration + SECOND ==> verdict == Err(Expired))
  {
    ValidateSigned(a, IssuedClaims(t0, t1, duration), now);
  }

  // ---------- appended text ----------

  lemma {:induction false} OnlyBreaks(s: string)
    ensures StripBreaks(s) == "" <==> forall i :: 0 <= i < |s| ==> s[i] == '\r' || s[i] == '\n'
  {
    if s == "" {
    } else {
      OnlyBreaks(s[1..]);
    }
  }

  /** Text appended to a signed token leaves it valid exactly when the decoder skips all of it:
      when it consists of line breaks. Anything else, such as "tampered", is refused. */
  lemma AppendedText(a: Authenticator, c: Claims, tail: string, now: int)
    requires Mac32(a) && Plain(c.subject) && Ascii(Marshal(c)) && Unix(now) <= c.expiresAt
    ensures ValidateToken(a, Sign(a, c) + tail, now).Ok? <==>
              forall i :: 0 <= i < |tail| ==> tail[i] == '\r' || tail[i] == '\n'
  {
    if Free(tail, '.') {
      AppendedNoDot(a, c, tail, now);
    } else {
      AppendedDot(a, c, tail, now);
      assert !Free(tail, '.');
    }
  }

  lemma AppendedDot(a: Authenticator, c: Claims, tail: string, now: int)
    requires Ascii(Marshal(c)) && !Free(tail, '.')
    ensures ValidateToken(a, Sign(a, c) + tail, now) == Err(Malformed)
  {
    SignedParts(a, c, tail);
    StillNotFree(Encode(SignatureOf(a, c)), tail, '.');
    SplitsInTwo(Encode(SignatureOf(a, c)) + tail, '.');
  }

  lemma StillNotFree(s: string, tail: string, sep: char)
    requires !Free(tail, sep)
    ensures !Free(s + tail, sep)
  {
    var k :| 0 <= k < |tail| && tail[k] == sep;
    assert (s + tail)[|s| + k] == sep;
  }

  lemma AppendedNoDot(a: Authenticator, c: Claims, tail: string, now: int)
    requires Mac32(a) && Plain(c.subject) && Ascii(Marshal(c)) && Unix(now) <= c.expiresAt && Free(tail, '.')
    ensures ValidateToken(a, Sign(a, c) + tail, now).Ok? <==>
              forall i :: 0 <= i < |tail| ==> tail[i] == '\r' || tail[i] == '\n'
  {
    LongerSignature(SignatureOf(a, c), tail);
    StillThreeParts(a, c, tail);
    DecodeInvertsEncode(ToBytes(Marshal(c)));
    TextOfBytes(Marshal(c));
    UnmarshalInvertsMarshal(c);
  }

  lemma LongerSignature(sig: seq<byte>, tail: string)
    requires |sig| == 32
    ensures Decode(Encode(sig) + tail) == Some(sig) <==>
              forall i :: 0 <= i < |tail| ==> tail[i] == '\r' || tail[i] == '\n'
  {
    EncodeInAlphabet(sig);
    NothingToStrip(Encode(sig));
    StripConcat(Encode(sig), tail);
    OnlyBreaks(tail);
    if StripBreaks(tail) == "" {
      assert Encode(sig) + "" == Encode(sig);
      DecodeInvertsEncode(sig);
    } else {
      assert |Encode(sig)| == 43;
      TooLong(Encode(sig) + tail, 44);
    }
  }

  /** A text of n characters besides line breaks decodes to 3n/4 bytes, if at all. */
  lemma TooLong(s: string, n: nat)
    requires |StripBreaks(s)| >= n
    ensures Decode(s).None? || |Decode(s).value| >= n * 3 / 4
  {
    if Decode(s).Some? {
      DecodedLength(s);
    }
  }
}
