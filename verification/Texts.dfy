/** Letter case and surrounding white space of names. */
module Texts {
  function LowerChar(c: char): char {
    if 'A' <= c <= 'Z' then ((c as int) + 32) as char else c
  }

  function Lower(s: string): (r: string)
    ensures |r| == |s| && forall i :: 0 <= i < |s| ==> r[i] == LowerChar(s[i])
  {
    seq(|s|, i requires 0 <= i < |s| => LowerChar(s[i]))
  }

  const CAPITALS := "ABCDEFGHIJKLMNOPQRSTUVWXYZ"
  const SMALL := "abcdefghijklmnopqrstuvwxyz"

  /** Each of the 26 capitals becomes its small letter, and nothing else changes. */
  lemma CapitalsExactly(c: char)
    ensures forall i :: 0 <= i < 26 ==> LowerChar(CAPITALS[i]) == SMALL[i]
    ensures c !in CAPITALS ==> LowerChar(c) == c
  {
    if 'A' <= c <= 'Z' {
      assert CAPITALS[c as int - 65] == c;
    }
  }

  predicate IsSpace(c: char) {
    var u := c as int;
    9 <= u <= 13 || u == 0x20 || u == 0x85 || u == 0xa0 || u == 0x1680 || 0x2000 <= u <= 0x200a
    || u == 0x2028 || u == 0x2029 || u == 0x202f || u == 0x205f || u == 0x3000
  }

  function TrimLeft(s: string): string {
    if s != "" && IsSpace(s[0]) then TrimLeft(s[1..]) else s
  }

  function TrimRight(s: string): string {
    if s != "" && IsSpace(s[|s| - 1]) then TrimRight(s[..|s| - 1]) else s
  }

  function Trimmed(s: string): string {
    TrimRight(TrimLeft(s))
  }

  /** s is white space, then the part between i and j, then white space. */
  ghost predicate Surrounded(s: string, i: int, j: int) {
    && 0 <= i <= j <= |s|
    && (forall k :: 0 <= k < i ==> IsSpace(s[k]))
    && (forall k :: j <= k < |s| ==> IsSpace(s[k]))
  }

  lemma {:induction false} TrimsLeft(s: string) returns (i: int)
    ensures 0 <= i <= |s| && TrimLeft(s) == s[i..] && forall k :: 0 <= k < i ==> IsSpace(s[k])
  {
    hide IsSpace;
    i := 0;
    if s != "" && IsSpace(s[0]) {
      var rest := TrimsLeft(s[1..]);
      i := rest + 1;
      forall k | 0 <= k < i
        ensures IsSpace(s[k])
      {
        assert k > 0 ==> s[k] == s[1..][k - 1];
      }
    }
  }

  lemma {:induction false} TrimsRight(s: string) returns (j: int)
    ensures 0 <= j <= |s| && TrimRight(s) == s[..j] && forall k :: j <= k < |s| ==> IsSpace(s[k])
  {
    hide IsSpace;
    j := |s|;
    if s != "" && IsSpace(s[|s| - 1]) {
      j := TrimsRight(s[..|s| - 1]);
    }
  }

  lemma {:induction false} TrimsLeftTo(s: string, i: int)
    requires 0 <= i < |s| && !IsSpace(s[i]) && forall k :: 0 <= k < i ==> IsSpace(s[k])
    ensures TrimLeft(s) == s[i..]
  {
    hide IsSpace;
    if i > 0 {
      TrimsLeftTo(s[1..], i - 1);
    }
  }

  lemma {:induction false} TrimsRightTo(s: string, j: int)
    requires 0 < j <= |s| && !IsSpace(s[j - 1]) && forall k :: j <= k < |s| ==> IsSpace(s[k])
    ensures TrimRight(s) == s[..j]
    decreases |s|
  {
    hide IsSpace;
    if j < |s| {
      TrimsRightTo(s[..|s| - 1], j);
    }
  }

  /** A text and its trimmed form: what is left has no white space at its ends. */
  lemma TrimmedExactly(s: string, i: int, j: int)
    requires Surrounded(s, i, j) && (i < j ==> !IsSpace(s[i]) && !IsSpace(s[j - 1]))
    ensures Trimmed(s) == s[i..j]
  {
    hide IsSpace;
    if i < j {
      TrimsLeftTo(s, i);
      TrimsRightTo(s[i..], j - i);
      assert s[i..][..j - i] == s[i..j];
    } else {
      AllTrimmed(s);
    }
  }

  lemma {:induction false} AllTrimmed(s: string)
    requires forall k :: 0 <= k < |s| ==> IsSpace(s[k])
    ensures Trimmed(s) == ""
  {
    hide IsSpace;
    if s != "" {
      AllTrimmed(s[1..]);
    }
  }

  /** Something is left exactly if not all is white space. */
  lemma SomethingLeft(s: string)
    ensures Trimmed(s) != "" <==> exists k :: 0 <= k < |s| && !IsSpace(s[k])
  {
    hide IsSpace;
    if forall k :: 0 <= k < |s| ==> IsSpace(s[k]) {
      AllTrimmed(s);
    } else {
      var k :| 0 <= k < |s| && !IsSpace(s[k]);
      var i := TrimsLeft(s);
      var j := TrimsRight(s[i..]);
      assert s[k] == s[i..][k - i];
    }
  }
}
