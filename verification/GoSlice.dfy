/** Go slices: a window onto a shared backing array, with in-place append. */
module GoSlice {

  /** items[off .. off+len]; the capacity reaches to the end of the array. */
  datatype Slice<!T> = Slice(items: array<T>, off: nat, len: nat) {

    predicate Valid() {
      off + len <= items.Length
    }

    function Cap(): nat
      requires Valid()
    {
      items.Length - off
    }

    function Elems(): seq<T>
      requires Valid()
      reads items
    {
      items[off..off + len]
    }

    /** s[1:], which shares the array and loses one slot of capacity. */
    function Tail(): (t: Slice<T>)
      requires Valid() && len > 0
    {
      Slice(items, off + 1, len - 1)
    }
  }

  method Make<T(0)>(capacity: nat) returns (s: Slice<T>)
    ensures s.Valid() && fresh(s.items) && s.len == 0 && s.off == 0 && s.Cap() == capacity
  {
    var items := new T[capacity];
    s := Slice(items, 0, 0);
  }

  /** append(s, x): writes in place while capacity lasts, otherwise moves to a fresh
      array, with `spare` unused slots (the runtime's growth policy). */
  method Append<T(0)>(s: Slice<T>, x: T, spare: nat) returns (r: Slice<T>)
    requires s.Valid()
    modifies s.items
    ensures r.Valid()
    ensures r.Elems() == old(s.Elems()) + [x]
    ensures r.items == s.items || fresh(r.items)
    ensures r.items == s.items <==> s.len < s.Cap()
  {
    if s.len < s.Cap() {
      s.items[s.off + s.len] := x;
      r := Slice(s.items, s.off, s.len + 1);
    } else {
      var grown := new T[s.len + 1 + spare];
      forall k | 0 <= k < s.len {
        grown[k] := s.items[s.off + k];
      }
      grown[s.len] := x;
      r := Slice(grown, 0, s.len + 1);
      assert r.Elems() == old(s.Elems()) + [x];
    }
  }

  /** append(s[:i], s[i+1:]...): shifts the tail left inside the same array. */
  method DeleteAt<T>(s: Slice<T>, i: nat) returns (r: Slice<T>)
    requires s.Valid() && i < s.len
    modifies s.items
    ensures r.Valid() && r.items == s.items && r.off == s.off && r.len == s.len - 1
    ensures r.Elems() == old(s.Elems())[..i] + old(s.Elems())[i + 1..]
  {
    ghost var before := s.Elems();
    forall k | s.off + i <= k < s.off + s.len - 1 {
      s.items[k] := s.items[k + 1];
    }
    r := Slice(s.items, s.off, s.len - 1);
    ghost var after := r.Elems();
    assert forall k :: 0 <= k < i ==> after[k] == before[k];
    assert forall k :: i <= k < |after| ==> after[k] == before[k + 1];
  }

  /** make + copy: a fresh array holding the same elements. */
  method Copy<T(0)>(s: Slice<T>) returns (c: array<T>)
    requires s.Valid()
    ensures fresh(c) && c[..] == s.Elems()
  {
    c := new T[s.len];
    forall k | 0 <= k < s.len {
      c[k] := s.items[s.off + k];
    }
  }
}
