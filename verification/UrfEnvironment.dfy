/**
 The caller's objects, as the translator may rely on them: a context that can be canceled at any
 time, a reader that splits its bytes as it likes, and a seekable destination that may take a write
 in pieces.  Each may fail; ghost flags remember that it did, and the destination keeps a log of
 every content it ever had that starts with the PWG marker.
 */
module UrfEnvironment {
  import opened Bytes
  import opened RasterReaders

  class Context {
    var canceled: bool

    constructor ()
      ensures !canceled
    {
      canceled := false;
    }

    method Err() returns (c: bool)
      modifies this
      ensures c == canceled
      ensures old(canceled) ==> canceled
    {
      if * {
        canceled := true;
      }
      c := canceled;
    }
  }

  datatype ReadError = NoError | EOF | UnexpectedEOF | OtherError

  /** A reader of data. */
  class Source {
    const data: seq<Byte>
    var pos: nat
    ghost var faulted: bool
    // The last answer.
    ghost var lastCount: int
    ghost var lastError: ReadError

    ghost predicate Valid()
      reads this
    {
      pos <= |data|
    }

    constructor (data: seq<Byte>)
      ensures Valid() && this.data == data && pos == 0 && !faulted
    {
      this.data := data;
      pos, faulted, lastCount, lastError := 0, false, 0, NoError;
    }

    /**
     Fills part of buf[lo..hi].  A count outside the buffer, no progress, an error, and bytes together
     with an unexpected EOF are faults.
     */
    method Read(buf: array<Byte>, lo: nat, hi: nat) returns (n: int, err: ReadError)
      requires Valid() && lo < hi <= buf.Length
      modifies this, buf
      ensures Valid() && (old(faulted) ==> faulted)
      ensures buf[..lo] == old(buf[..lo])
      ensures 0 <= n <= hi - lo ==> pos == old(pos) + n && buf[lo..lo + n] == data[old(pos)..pos]
      ensures !(0 <= n <= hi - lo) ==> faulted
      ensures err.EOF? || err.UnexpectedEOF? ==> pos == |data|
      ensures err.OtherError? || (n == 0 && err.NoError?) ==> faulted
      ensures n > 0 && err.UnexpectedEOF? ==> faulted
      ensures lastCount == n && lastError == err
    {
      var k := *;
      if k < 0 || k > hi - lo || k > |data| - pos {
        k := 0;
      }
      forall i | 0 <= i < k {
        buf[lo + i] := data[pos + i];
      }
      assert buf[lo..lo + k] == data[pos..pos + k];
      n, pos := k, pos + k;
      err := NoError;
      if {
        case k > 0 =>
        case pos == |data| =>
          err := EOF;
        case pos == |data| =>
          err := UnexpectedEOF;
          faulted := faulted || k > 0;
        case true =>
          faulted := true;
          if * {
            err := OtherError;
          } else if * {
            n := -1;
          } else if * {
            n := hi - lo + 1;
          } else {
            n, pos := 0, pos - k;
            assert buf[lo..lo + n] == [] == data[pos..pos];
          }
      }
      lastCount, lastError := n, err;
    }
  }

  /** content with bytes written at pos; a gap is filled with zeros. */
  function Written(content: seq<Byte>, pos: nat, bytes: seq<Byte>): seq<Byte> {
    var base := if pos > |content| then content + Fill(0, pos - |content|) else content;
    base[..pos] + bytes + if pos + |bytes| <= |base| then base[pos + |bytes|..] else []
  }

  predicate Marked(s: seq<Byte>) {
    |s| >= 4 && s[..4] == RAS2
  }

  class Destination {
    var content: seq<Byte>
    var pos: nat
    ghost var faulted: bool
    ghost var marked: seq<seq<Byte>>

    constructor ()
      ensures content == [] && pos == 0 && !faulted && marked == []
    {
      content, pos, faulted, marked := [], 0, false, [];
    }

    /** Writes some prefix of bytes, of the returned length unless that length is out of range. */
    method Write(bytes: seq<Byte>) returns (n: int, failed: bool, ghost taken: nat)
      modifies this
      ensures old(faulted) ==> faulted
      ensures taken <= |bytes| && (0 <= n <= |bytes| ==> taken == n)
      ensures content == Written(old(content), old(pos), bytes[..taken]) && pos == old(pos) + taken
      ensures marked == old(marked) + if Marked(content) then [content] else []
      ensures failed || !(0 <= n <= |bytes|) || (n == 0 < |bytes|) ==> faulted
    {
      var k := *;
      if k < 0 || k > |bytes| {
        k := 0;
      }
      content := Written(content, pos, bytes[..k]);
      pos := pos + k;
      marked := marked + if Marked(content) then [content] else [];
      n, failed, taken := k, false, k;
      if k == 0 < |bytes| {
        faulted := true;
      }
      if * {
        faulted := true;
        if * {
          failed := true;
        } else if * {
          n := -1;
        } else {
          n := |bytes| + 1;
        }
      }
    }

    /**
     Moves to an offset from the start or to the end, and reports where it went; that may be elsewhere,
     but an end position that is reported is the size.
     */
    method Seek(off: nat, fromEnd: bool) returns (p: nat, failed: bool)
      requires fromEnd ==> off == 0
      modifies this`pos, this`faulted
      ensures old(faulted) ==> faulted
      ensures !failed ==> p == pos && (fromEnd ==> p == |content|)
      ensures failed || p != (if fromEnd then |content| else off) ==> faulted
    {
      pos, failed := if fromEnd then |content| else off, false;
      if * {
        faulted := true;
        failed := *;
        failed := failed || fromEnd;
        pos := *;
      }
      p := pos;
    }
  }
}
