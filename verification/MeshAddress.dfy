/** Mesh addresses: Sprintf and Sscanf of "10.42.0.%d". */
module MeshAddress {
  import opened Text

  const PREFIX := "10.42.0."

  function MeshIP(octet: int): string {
    PREFIX + IntText(octet)
  }

  /** Sscanf's %d: an optional sign, then the longest run of digits; the rest of the
      input is ignored, and no digit at all is an error. */
  function ScanInt(s: string): Option<int> {
    var (negative, body) := if s != "" && s[0] == '+' then (false, s[1..]) else TakeMinus(s);
    var scan := TakeNat(body);
    if scan.None? then None
    else
      var magnitude: int := scan.value.0;
      Some(if negative then -magnitude else magnitude)
  }

  function ScanMesh(s: string): Option<int> {
    if HasPrefix(s, PREFIX) then ScanInt(s[|PREFIX|..]) else None
  }

  lemma ScanIntPrinted(n: int, junk: string)
    requires junk != "" ==> !IsDigit(junk[0])
    ensures ScanInt(IntText(n) + junk) == Some(n)
  {
    TakeMinusPrinted(n, junk);
    TakeNatPrinted(Abs(n), junk);
  }

  /** Scanning inverts printing for every integer, whatever text follows the number. */
  lemma ScanInvertsPrint(octet: int, junk: string)
    requires junk != "" ==> !IsDigit(junk[0])
    ensures ScanMesh(MeshIP(octet) + junk) == Some(octet)
  {
    ScanIntPrinted(octet, junk);
    PrefixOfConcat(PREFIX, IntText(octet) + junk);
    assert MeshIP(octet) + junk == PREFIX + (IntText(octet) + junk);
  }

  lemma ScanMeshIP(octet: int)
    ensures ScanMesh(MeshIP(octet)) == Some(octet)
  {
    ScanInvertsPrint(octet, "");
    assert MeshIP(octet) + "" == MeshIP(octet);
  }

  lemma MeshIPInjective(a: int, b: int)
    requires MeshIP(a) == MeshIP(b)
    ensures a == b
  {
    ScanMeshIP(a);
    ScanMeshIP(b);
  }
}
