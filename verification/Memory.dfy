/** memcpy and memmove on byte buffers. */
module Memory {
  import opened Words

  method Copy<T>(dst: array<T>, at: nat, s: seq<T>)
    requires at + |s| <= dst.Length
    modifies dst
    ensures dst[at..at + |s|] == s
    ensures dst[..] == old(dst[..at]) + s + old(dst[at + |s|..])
    ensures forall x :: 0 <= x < at || at + |s| <= x < dst.Length ==> dst[x] == old(dst[x])
  {
    for i := 0 to |s|
      modifies dst
      invariant dst[at..at + i] == s[..i]
      invariant forall x :: 0 <= x < at || at + i <= x < dst.Length ==> dst[x] == old(dst[x])
    {
      dst[at + i] := s[i];
    }
    assert s[..|s|] == s;
  }

  /** The areas may overlap: the copy runs in the direction that reads before it writes. */
  method Move(a: array<Byte>, to: nat, from: nat, len: nat)
    requires to + len <= a.Length && from + len <= a.Length
    modifies a
    ensures a[to..to + len] == old(a[from..from + len])
    ensures forall x :: 0 <= x < to || to + len <= x < a.Length ==> a[x] == old(a[x])
  {
    if to <= from {
      for i := 0 to len
        modifies a
        invariant forall x :: to <= x < to + i ==> a[x] == old(a[x - to + from])
        invariant forall x :: 0 <= x < to || to + i <= x < a.Length ==> a[x] == old(a[x])
      {
        a[to + i] := a[from + i];
      }
    } else {
      var i := len;
      while i > 0
        invariant 0 <= i <= len
        invariant forall x :: to + i <= x < to + len ==> a[x] == old(a[x - to + from])
        invariant forall x :: 0 <= x < to + i || to + len <= x < a.Length ==> a[x] == old(a[x])
      {
        i := i - 1;
        a[to + i] := a[from + i];
      }
    }
    SameSlice(old(a[..]), a[..], to, from, len);
  }

  lemma {:induction false} SameSlice(before: seq<Byte>, after: seq<Byte>, to: nat, from: nat, len: nat)
    requires |before| == |after| && to + len <= |after| && from + len <= |before|
    requires forall x :: to <= x < to + len ==> after[x] == before[x - to + from]
    ensures after[to..to + len] == before[from..from + len]
  {
    var a, b := after[to..to + len], before[from..from + len];
    forall k | 0 <= k < len ensures a[k] == b[k] {
      assert a[k] == after[to + k];
    }
  }
}
