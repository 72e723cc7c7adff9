/** Names in the ISO repository: filepath.Base, the filename normaliser and the listing filter. */
module IsoNames {
  import opened Text

  // ---------- lower case ----------

  /** strings.ToLower as far as the suffix tests can see: the characters whose lower case is ASCII. */
  function Lower(c: char): char {
    if 'A' <= c <= 'Z' then (c as int + 32) as char
    else if c == '\U{130}' then 'i'
    else if c == '\U{212A}' then 'k'
    else c
  }

  function ToLower(s: string): string {
    seq(|s|, i requires 0 <= i < |s| => Lower(s[i]))
  }

  predicate EndsIn(s: string, suffix: string) {
    HasSuffix(ToLower(s), suffix)
  }

  /** The test StartDownload makes before appending ".iso". */
  predicate IsImage(s: string) {
    EndsIn(s, ".iso") || EndsIn(s, ".img")
  }

  /** The filter of ListISOs. */
  predicate IsListed(s: string) {
    IsImage(s) || EndsIn(s, ".vhdx")
  }

  // ---------- filepath.Base ----------

  function TrimSlashes(s: string): string {
    if s != "" && s[|s| - 1] == '/' then TrimSlashes(s[..|s| - 1]) else s
  }

  function AfterLastSlash(s: string): string {
    if Free(s, '/') then s else AfterLastSlash(s[1..])
  }

  function Base(path: string): string {
    if path == "" then "."
    else
      var last := AfterLastSlash(TrimSlashes(path));
      if last == "" then "/" else last
  }

  // ---------- the normaliser ----------

  const FALLBACK := "downloaded-image.iso"

  function Normalise(urlPath: string, filename: string): string {
    var named := if filename == "" then Base(urlPath) else filename;
    var present := if named == "" || named == "." || named == "/" then FALLBACK else named;
    var image := if IsImage(present) then present else present + ".iso";
    Base(image)
  }

  function PartName(name: string): string {
    name + ".part"
  }

  predicate IsPart(name: string) {
    HasSuffix(name, ".part")
  }

  /** What every stored filename is like. */
  predicate IsStored(name: string) {
    Free(name, '/') && IsImage(name)
  }

  lemma EndCharacters(s: string, suffix: string, i: nat)
    requires EndsIn(s, suffix) && i < |suffix|
    ensures |suffix| <= |s| && Lower(s[|s| - |suffix| + i]) == suffix[i]
  {
    var t := ToLower(s);
    assert t[|t| - |suffix|..][i] == t[|t| - |suffix| + i];
  }

  lemma ImageEnd(s: string)
    requires IsImage(s)
    ensures |s| >= 4 && forall i :: |s| - 4 <= i < |s| ==> s[i] != '/'
    ensures s[|s| - 1] != 't'
  {
    var suffix := if EndsIn(s, ".iso") then ".iso" else ".img";
    forall i | |s| - 4 <= i < |s|
      ensures |s| >= 4 && s[i] != '/'
    {
      EndCharacters(s, suffix, i - (|s| - 4));
    }
    EndCharacters(s, suffix, 3);
  }

  lemma SameEnd(s: string, t: string)
    requires |s| >= 4 && |t| >= 4 && s[|s| - 4..] == t[|t| - 4..]
    ensures IsImage(s) == IsImage(t)
  {
    assert ToLower(s)[|s| - 4..] == ToLower(s[|s| - 4..]);
    assert ToLower(t)[|t| - 4..] == ToLower(t[|t| - 4..]);
  }

  lemma AppendedIsoIsImage(s: string)
    ensures IsImage(s + ".iso")
  {
    assert ToLower(s + ".iso")[|s|..] == ".iso";
  }

  lemma {:induction false} LastPartKeepsEnd(s: string)
    requires |s| >= 4 && Free(s[|s| - 4..], '/')
    ensures
      var t := AfterLastSlash(s);
      Free(t, '/') && |t| >= 4 && t[|t| - 4..] == s[|s| - 4..]
    decreases |s|
  {
    if Free(s, '/') {
    } else {
      forall k | |s| - 4 <= k < |s|
        ensures s[k] != '/'
      {
        assert s[|s| - 4..][k - (|s| - 4)] == s[k];
      }
      assert s[1..][|s| - 5..] == s[|s| - 4..];
      LastPartKeepsEnd(s[1..]);
    }
  }

  /** Taking the base name of an image path gives an image name. */
  lemma BaseOfImage(s: string)
    requires IsImage(s)
    ensures IsStored(Base(s)) && (Free(s, '/') ==> Base(s) == s)
  {
    ImageEnd(s);
    assert s[|s| - 1] != '/' && TrimSlashes(s) == s;
    LastPartKeepsEnd(s);
    SameEnd(s, AfterLastSlash(s));
  }

  lemma StoredIsFixed(urlPath: string, name: string)
    requires IsStored(name)
    ensures Normalise(urlPath, name) == name
  {
    ImageEnd(name);
    BaseOfImage(name);
  }

  /** For every input: the stored name has no slash, ends in .iso or .img up to case, and normalising
      it again changes nothing. */
  lemma NormaliseStores(urlPath: string, filename: string, otherPath: string)
    ensures
      var name := Normalise(urlPath, filename);
      IsStored(name) && Normalise(otherPath, name) == name
  {
    var named := if filename == "" then Base(urlPath) else filename;
    var present := if named == "" || named == "." || named == "/" then FALLBACK else named;
    var image := if IsImage(present) then present else present + ".iso";
    AppendedIsoIsImage(present);
    BaseOfImage(image);
    StoredIsFixed(otherPath, Base(image));
  }

  /** A stored name is listed, its .part file is not, and that is no other download's destination. */
  lemma PartsStayHidden(name: string, other: string)
    requires IsStored(name) && IsStored(other)
    ensures IsListed(name) && !IsListed(PartName(name))
    ensures PartName(name) != other && IsPart(PartName(name)) && !IsPart(other)
  {
    var part := PartName(name);
    assert part[|name|..] == ".part" && part[|part| - 1] == 't' && Lower('t') == 't';
    if EndsIn(part, ".vhdx") {
      EndCharacters(part, ".vhdx", 4);
    }
    if IsImage(part) {
      ImageEnd(part);
    }
    NotPart(other);
  }

  /** No listed name is a .part name. */
  lemma NotPart(name: string)
    requires IsListed(name)
    ensures !IsPart(name)
  {
    if IsPart(name) {
      PartEnd(name);
    }
    if IsImage(name) {
      ImageEnd(name);
    } else {
      EndCharacters(name, ".vhdx", 4);
    }
  }

  lemma PartEnd(name: string)
    requires IsPart(name)
    ensures name[|name| - 1] == 't'
  {
    assert name[|name| - 5..][4] == name[|name| - 1];
  }

  lemma PartNameInjective(a: string, b: string)
    requires PartName(a) == PartName(b)
    ensures a == b
  {
    assert PartName(a)[..|a|] == a && PartName(b)[..|b|] == b;
  }

  // ---------- the suffix tests, letter by letter ----------

  /** The last characters of s are of these kinds. */
  predicate Ends(s: string, kinds: seq<set<char>>) {
    |kinds| <= |s| && forall i :: 0 <= i < |kinds| ==> s[|s| - |kinds| + i] in kinds[i]
  }

  lemma EndsByLetters(s: string, suffix: string, kinds: seq<set<char>>)
    requires |kinds| == |suffix|
    requires forall i, c :: 0 <= i < |suffix| ==> (Lower(c) == suffix[i] <==> c in kinds[i])
    ensures EndsIn(s, suffix) <==> Ends(s, kinds)
  {
    if EndsIn(s, suffix) {
      forall i | 0 <= i < |kinds|
        ensures s[|s| - |kinds| + i] in kinds[i]
      {
        EndCharacters(s, suffix, i);
      }
    }
    if Ends(s, kinds) {
      var low := ToLower(s);
      forall i | 0 <= i < |suffix|
        ensures low[|s| - |suffix|..][i] == suffix[i]
      {
        assert s[|s| - |kinds| + i] in kinds[i];
      }
      assert low[|s| - |suffix|..] == suffix;
    }
  }

  const ISO_ENDING: seq<set<char>> := [{'.'}, {'i', 'I', '\U{130}'}, {'s', 'S'}, {'o', 'O'}]
  const IMG_ENDING: seq<set<char>> := [{'.'}, {'i', 'I', '\U{130}'}, {'m', 'M'}, {'g', 'G'}]
  const VHDX_ENDING: seq<set<char>> := [{'.'}, {'v', 'V'}, {'h', 'H'}, {'d', 'D'}, {'x', 'X'}]

  /** Stored names end in .iso or .img, listed ones in these or .vhdx, in any mixture of cases. */
  lemma EndingsByLetters(s: string)
    ensures IsImage(s) <==> Ends(s, ISO_ENDING) || Ends(s, IMG_ENDING)
    ensures IsListed(s) <==> Ends(s, ISO_ENDING) || Ends(s, IMG_ENDING) || Ends(s, VHDX_ENDING)
  {
    EndsByLetters(s, ".iso", ISO_ENDING);
    EndsByLetters(s, ".img", IMG_ENDING);
    EndsByLetters(s, ".vhdx", VHDX_ENDING);
  }

  // ---------- which name is stored ----------

  predicate AllSlashes(s: string) {
    forall i :: 0 <= i < |s| ==> s[i] == '/'
  }

  /** A directory part: empty, or up to and including a slash. */
  predicate IsDir(s: string) {
    s == "" || s[|s| - 1] == '/'
  }

  lemma {:induction false} TrimmedSlashes(s: string, slashes: string)
    requires AllSlashes(slashes) && (s == "" || s[|s| - 1] != '/')
    ensures TrimSlashes(s + slashes) == s
    decreases |slashes|
  {
    if slashes == "" {
      assert s + slashes == s;
    } else {
      var n := |slashes| - 1;
      assert (s + slashes)[..|s| + n] == s + slashes[..n];
      TrimmedSlashes(s, slashes[..n]);
    }
  }

  lemma {:induction false} LastPart(dir: string, base: string)
    requires IsDir(dir) && Free(base, '/')
    ensures AfterLastSlash(dir + base) == base
    decreases |dir|
  {
    if dir == "" {
      assert dir + base == base;
    } else {
      assert (dir + base)[|dir| - 1] == '/';
      assert (dir + base)[1..] == dir[1..] + base;
      LastPart(dir[1..], base);
    }
  }

  /** The base of a path is its last part, trailing slashes apart; without one it is "/" or ".". */
  lemma BaseOf(dir: string, base: string, slashes: string)
    requires IsDir(dir) && Free(base, '/') && AllSlashes(slashes) && (base == "" ==> dir == "")
    ensures Base(dir + base + slashes) == if base != "" then base else if slashes != "" then "/" else "."
  {
    TrimmedSlashes(dir + base, slashes);
    LastPart(dir, base);
  }

  /** Every path has such parts. */
  lemma {:induction false} PathParts(path: string) returns (dir: string, base: string, slashes: string)
    ensures path == dir + base + slashes
    ensures IsDir(dir) && Free(base, '/') && AllSlashes(slashes) && (base == "" ==> dir == "")
  {
    if path == "" {
      dir, base, slashes := "", "", "";
    } else {
      var n := |path| - 1;
      dir, base, slashes := PathParts(path[..n]);
      if path[n] == '/' {
        slashes := slashes + "/";
      } else if slashes == "" {
        base := base + [path[n]];
      } else {
        dir, base, slashes := dir + base + slashes, [path[n]], "";
      }
      assert path == path[..n] + [path[n]];
    }
  }

  lemma NamedStored(dir: string, base: string)
    requires IsDir(dir) && Free(base, '/')
    ensures
      var named := dir + base;
      Base(if IsImage(named) then named else named + ".iso") == if IsImage(named) then base else base + ".iso"
  {
    var named := dir + base;
    if IsImage(named) {
      ImageEnd(named);
      assert base == "" ==> named == dir;
      BaseOf(dir, base, "");
      assert dir + base + "" == named;
    } else {
      assert Free(".iso", '/');
      BaseOf(dir, base + ".iso", "");
      assert dir + (base + ".iso") + "" == named + ".iso";
    }
  }

  lemma FallbackStored()
    ensures IsImage(FALLBACK) && Base(FALLBACK) == "downloaded-image.iso"
  {
    AppendedIsoIsImage("downloaded-image");
    assert "downloaded-image" + ".iso" == FALLBACK;
    assert Free(FALLBACK, '/');
    BaseOfImage(FALLBACK);
  }

  /** A file name given counts by its last part, and gets ".iso" if it is not an image. */
  lemma GivenName(urlPath: string, dir: string, base: string)
    requires IsDir(dir) && Free(base, '/') && dir + base !in {"", ".", "/"}
    ensures Normalise(urlPath, dir + base) == if IsImage(dir + base) then base else base + ".iso"
  {
    NamedStored(dir, base);
  }

  /** Without one, the last part of the URL's path does. */
  lemma NameFromURL(dir: string, base: string, slashes: string)
    requires IsDir(dir) && Free(base, '/') && AllSlashes(slashes) && base !in {"", "."}
    ensures Normalise(dir + base + slashes, "") == if IsImage(base) then base else base + ".iso"
  {
    BaseOf(dir, base, slashes);
    NamedStored("", base);
    assert "" + base == base;
    assert "/"[0] == '/' && !Free("/", '/');
  }

  /** And if that is nothing either, or the name given is no name, it is fixed. */
  lemma FallbackName(urlPath: string, filename: string)
    requires filename in {".", "/"} || (filename == "" && (AllSlashes(urlPath) || Base(urlPath) == "."))
    ensures Normalise(urlPath, filename) == "downloaded-image.iso"
  {
    FallbackStored();
    if filename == "" && AllSlashes(urlPath) {
      BaseOf("", "", urlPath);
      assert "" + "" + urlPath == urlPath;
    }
  }
}
