/** Bytes, fixed-width words in network order, and in-place patches of a byte string. */
module Bytes {

  type Byte = x: int | 0 <= x < 256

  type U32 = x: int | 0 <= x < 0x1_0000_0000

  const MAX_U32: int := 0xffff_ffff
  const MAX_U64: int := 0xffff_ffff_ffff_ffff

  /** The four bytes of v, most significant first. */
  function Word(v: U32): (b: seq<Byte>)
    ensures |b| == 4
  {
    var q1 := v / 0x100;
    var q2 := q1 / 0x100;
    [q2 / 0x100, q2 % 0x100, q1 % 0x100, v % 0x100]
  }

  function WordAt(s: seq<Byte>, i: nat): U32
    requires i + 4 <= |s|
  {
    var b: seq<int> := s;
    b[i] * 0x100_0000 + b[i + 1] * 0x1_0000 + b[i + 2] * 0x100 + b[i + 3]
  }

  lemma WordRoundTrip(s: seq<Byte>, i: nat, v: U32)
    requires i + 4 <= |s| && s[i..i + 4] == Word(v)
    ensures WordAt(s, i) == v
  {
    var w := s[i..i + 4];
    assert w[0] == s[i] && w[1] == s[i + 1] && w[2] == s[i + 2] && w[3] == s[i + 3];
  }

  function Fill(b: Byte, n: nat): (s: seq<Byte>)
    ensures |s| == n
    ensures forall i :: 0 <= i < n ==> s[i] == b
  {
    seq(n, _ => b)
  }

  /** s with the bytes from off on overwritten by patch. */
  function Patch(s: seq<Byte>, off: nat, patch: seq<Byte>): (r: seq<Byte>)
    requires off + |patch| <= |s|
    ensures |r| == |s|
    ensures r[off..off + |patch|] == patch
    ensures forall i :: 0 <= i < |s| && !(off <= i < off + |patch|) ==> r[i] == s[i]
  {
    s[..off] + patch + s[off + |patch|..]
  }

  /** n bytes read alike at index i of s and at index j of t. */
  predicate Agree(s: seq<Byte>, i: nat, t: seq<Byte>, j: nat, n: nat)
    decreases n
  {
    i + n <= |s| && j + n <= |t| && (n > 0 ==> s[i] == t[j] && Agree(s, i + 1, t, j + 1, n - 1))
  }

  lemma AgreeHead(s: seq<Byte>, i: nat, t: seq<Byte>, j: nat, n: nat)
    requires Agree(s, i, t, j, n)
    ensures i + n <= |s| && j + n <= |t| && (n > 0 ==> s[i] == t[j])
  {
  }

  lemma {:induction false} AgreeWithin(s: seq<Byte>, i: nat, t: seq<Byte>, j: nat, n: nat, from: nat, m: nat)
    requires Agree(s, i, t, j, n) && from + m <= n
    ensures Agree(s, i + from, t, j + from, m)
    decreases n
  {
    if from > 0 {
      AgreeWithin(s, i + 1, t, j + 1, n - 1, from - 1, m);
    } else if m > 0 {
      AgreeWithin(s, i + 1, t, j + 1, n - 1, 0, m - 1);
    }
  }

  lemma {:induction false} AgreeIsEqualSlices(s: seq<Byte>, i: nat, t: seq<Byte>, j: nat, n: nat)
    requires i + n <= |s| && j + n <= |t|
    ensures Agree(s, i, t, j, n) <==> s[i..i + n] == t[j..j + n]
    decreases n
  {
    if n > 0 {
      AgreeIsEqualSlices(s, i + 1, t, j + 1, n - 1);
      assert s[i..i + n] == [s[i]] + s[i + 1..i + n];
      assert t[j..j + n] == [t[j]] + t[j + 1..j + n];
    }
  }

  lemma AgreeWord(s: seq<Byte>, i: nat, t: seq<Byte>, j: nat)
    requires Agree(s, i, t, j, 4)
    ensures i + 4 <= |s| && j + 4 <= |t| && WordAt(s, i) == WordAt(t, j)
  {
    AgreeIsEqualSlices(s, i, t, j, 4);
    var a, b := s[i..i + 4], t[j..j + 4];
    assert a[0] == b[0] && a[1] == b[1] && a[2] == b[2] && a[3] == b[3];
  }

  lemma WordInSlice(s: seq<Byte>, lo: nat, hi: nat, i: nat)
    requires lo <= hi <= |s| && i + 4 <= hi - lo
    ensures WordAt(s[lo..hi], i) == WordAt(s, lo + i)
  {
  }

  lemma SliceJoin(s: seq<Byte>, a: nat, b: nat, c: nat)
    requires a <= b <= c <= |s|
    ensures s[a..b] + s[b..c] == s[a..c]
  {
  }

  lemma SliceOfSlice(s: seq<Byte>, a: nat, b: nat, c: nat, d: nat)
    requires a <= b <= |s| && c <= d <= b - a
    ensures s[a..b][c..d] == s[a + c..a + d]
  {
    var inner, outer := s[a..b][c..d], s[a + c..a + d];
    forall k | 0 <= k < d - c
      ensures inner[k] == outer[k]
    {
      assert inner[k] == s[a..b][c + k] == s[a + c + k];
    }
    assert inner == outer;
  }
}
