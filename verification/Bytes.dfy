/** The byte type shared by all components, and plain facts about byte strings. */
module Bytes {

  /** An `unsigned char`. */
  type byte = b: int | 0 <= b < 0x100

  function Zeros(n: nat): (z: seq<byte>)
    ensures |z| == n
    ensures forall i :: 0 <= i < n ==> z[i] == 0
  {
    seq(n, _ => 0)
  }

  lemma SliceOfSlice<T>(s: seq<T>, lo: nat, hi: nat, a: nat, b: nat)
    requires lo <= hi <= |s| && a <= b <= hi - lo
    ensures s[lo..hi][a..b] == s[lo + a..lo + b]
  {
    var t := s[lo..hi];
    assert |t[a..b]| == |s[lo + a..lo + b]|;
    forall k | 0 <= k < b - a ensures t[a..b][k] == s[lo + a..lo + b][k] {
      assert t[a..b][k] == t[a + k];
    }
  }
}
