/** Go string helpers: fmt's %d, strings.Split, strings.TrimPrefix and suffix tests. */
module Text {

  lemma ConcatAssoc(x: string, y: string, z: string)
    ensures (x + y) + z == x + (y + z)
  {
  }

  datatype Option<+T> = None | Some(value: T)

  // ---------- decimal numbers ----------

  predicate IsDigit(c: char) {
    '0' <= c <= '9'
  }

  predicate AllDigits(s: string) {
    forall i :: 0 <= i < |s| ==> IsDigit(s[i])
  }

  function DigitChar(d: nat): char
    requires d < 10
  {
    ('0' as int + d) as char
  }

  function DigitValue(c: char): nat
    requires IsDigit(c)
  {
    c as int - '0' as int
  }

  /** The text %d prints for a natural number. */
  function NatText(n: nat): string {
    if n < 10 then [DigitChar(n)] else NatText(n / 10) + [DigitChar(n % 10)]
  }

  /** The text %d prints for any integer. */
  function IntText(n: int): string {
    if n < 0 then "-" + NatText(-n) else NatText(n)
  }

  /** The number a digit string denotes. */
  function NatValue(s: string): nat
    requires AllDigits(s)
  {
    if s == "" then 0 else NatValue(s[..|s| - 1]) * 10 + DigitValue(s[|s| - 1])
  }

  /** Length of the longest prefix of digits. */
  function DigitRun(s: string): (n: nat)
    ensures n <= |s|
    ensures AllDigits(s[..n])
    ensures n < |s| ==> !IsDigit(s[n])
  {
    if s == "" || !IsDigit(s[0]) then 0
    else
      var rest := DigitRun(s[1..]);
      assert s[..1 + rest] == [s[0]] + s[1..][..rest];
      1 + rest
  }

  lemma {:induction false} NatTextRoundTrip(n: nat)
    ensures AllDigits(NatText(n)) && |NatText(n)| >= 1
    ensures NatValue(NatText(n)) == n
    ensures n > 0 ==> NatText(n)[0] != '0'
  {
    if n < 10 {
    } else {
      NatTextRoundTrip(n / 10);
      var t := NatText(n);
      assert t[..|t| - 1] == NatText(n / 10);
      assert t[0] == NatText(n / 10)[0];
    }
  }

  /** Printing inverts reading for digits without superfluous zeros. */
  lemma {:induction false} NatValueRoundTrip(s: string)
    requires AllDigits(s) && s != "" && (s[0] == '0' ==> |s| == 1)
    ensures NatText(NatValue(s)) == s
    ensures |s| > 1 ==> NatValue(s) > 0
  {
    var n := |s| - 1;
    if n == 0 {
      assert NatValue(s[..0]) == 0;
    } else {
      NatValueRoundTrip(s[..n]);
      assert s[..n][0] == s[0];
      assert NatValue(s[..n]) > 0 by {
        if n == 1 {
          assert s[..1][..0] == "" && NatValue(s[..1]) == DigitValue(s[0]);
        }
      }
      assert s == s[..n] + [s[n]];
    }
  }

  lemma NatTextInjective(a: nat, b: nat)
    requires NatText(a) == NatText(b)
    ensures a == b
  {
    NatTextRoundTrip(a);
    NatTextRoundTrip(b);
  }

  /** A digit run stops exactly where the digits do. */
  lemma {:induction false} DigitRunStops(digits: string, rest: string)
    requires AllDigits(digits)
    requires rest != "" ==> !IsDigit(rest[0])
    ensures DigitRun(digits + rest) == |digits|
  {
    var s := digits + rest;
    var n := DigitRun(s);
    assert forall i :: 0 <= i < |digits| ==> s[i] == digits[i] && IsDigit(s[i]);
    assert rest != "" ==> s[|digits|] == rest[0];
    assert forall i :: 0 <= i < n ==> IsDigit(s[..n][i]) && s[i] == s[..n][i];
  }

  /** The number at the front of s and the text after it. */
  function TakeNat(s: string): Option<(nat, string)> {
    var run := DigitRun(s);
    if run == 0 then None else Some((NatValue(s[..run]), s[run..]))
  }

  lemma TakeNatPrinted(n: nat, junk: string)
    requires junk != "" ==> !IsDigit(junk[0])
    ensures TakeNat(NatText(n) + junk) == Some((n, junk))
    ensures IsDigit((NatText(n) + junk)[0])
  {
    var digits := NatText(n);
    NatTextRoundTrip(n);
    DigitRunStops(digits, junk);
    assert (digits + junk)[..|digits|] == digits && (digits + junk)[|digits|..] == junk;
    assert (digits + junk)[0] == digits[0];
  }

  /** Whether s starts with a minus sign, and the text after it. */
  function TakeMinus(s: string): (bool, string) {
    if s != "" && s[0] == '-' then (true, s[1..]) else (false, s)
  }

  function Abs(n: int): nat {
    if n < 0 then -n else n
  }

  lemma TakeMinusPrinted(n: int, junk: string)
    requires junk != "" ==> !IsDigit(junk[0])
    ensures TakeMinus(IntText(n) + junk) == (n < 0, NatText(Abs(n)) + junk)
    ensures (IntText(n) + junk)[0] == '-' || IsDigit((IntText(n) + junk)[0])
  {
    TakeNatPrinted(Abs(n), junk);
    var body := NatText(Abs(n)) + junk;
    if n < 0 {
      ConcatAssoc("-", NatText(-n), junk);
      assert ("-" + body)[1..] == body;
    }
  }

  // ---------- prefixes, suffixes, splitting ----------

  predicate HasPrefix(s: string, p: string) {
    |p| <= |s| && s[..|p|] == p
  }

  predicate HasSuffix(s: string, p: string) {
    |p| <= |s| && s[|s| - |p|..] == p
  }

  function TrimPrefix(s: string, p: string): string {
    if HasPrefix(s, p) then s[|p|..] else s
  }

  lemma PrefixOfConcat(p: string, t: string)
    ensures HasPrefix(p + t, p) && TrimPrefix(p + t, p) == t && (p + t)[|p|..] == t
  {
    assert (p + t)[..|p|] == p;
  }

  predicate Free(s: string, sep: char) {
    forall i :: 0 <= i < |s| ==> s[i] != sep
  }

  /** Position of the first sep, or the length of s. */
  function Index(s: string, sep: char): (i: nat)
    ensures i <= |s|
    ensures Free(s[..i], sep)
    ensures i < |s| ==> s[i] == sep
  {
    if s == "" || s[0] == sep then 0
    else
      var rest := Index(s[1..], sep);
      assert s[..1 + rest] == [s[0]] + s[1..][..rest];
      1 + rest
  }

  /** strings.Split for a one-character separator. */
  function Split(s: string, sep: char): (parts: seq<string>)
    ensures |parts| >= 1
    ensures forall k :: 0 <= k < |parts| ==> Free(parts[k], sep)
    decreases |s|
  {
    var i := Index(s, sep);
    if i == |s| then assert s[..i] == s; [s] else [s[..i]] + Split(s[i + 1..], sep)
  }

  lemma IndexOfFirst(head: string, sep: char, tail: string)
    requires Free(head, sep)
    ensures Index(head + [sep] + tail, sep) == |head|
    ensures Index(head, sep) == |head|
  {
    var s := head + [sep] + tail;
    var i := Index(s, sep);
    assert s[|head|] == sep && forall k :: 0 <= k < |head| ==> s[k] == head[k];
    assert forall k :: 0 <= k < i ==> s[..i][k] != sep && s[k] == s[..i][k];
    assert forall k :: 0 <= k < |head| ==> head[k] != sep;
  }

  lemma SplitFirst(head: string, sep: char, tail: string)
    requires Free(head, sep)
    ensures Split(head + [sep] + tail, sep) == [head] + Split(tail, sep)
    ensures Split(head, sep) == [head]
  {
    IndexOfFirst(head, sep, tail);
    var s := head + [sep] + tail;
    assert s[..|head|] == head && s[|head| + 1..] == tail && head[..|head|] == head;
  }

  lemma SplitsInTwo(s: string, sep: char)
    requires !Free(s, sep)
    ensures |Split(s, sep)| >= 2
  {
    assert s[..|s|] == s;
  }
}
