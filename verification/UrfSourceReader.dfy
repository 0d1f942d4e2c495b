/** The bounded source reader: a limit that a source of exactly that size still meets. */
module UrfSourceReader {
  import opened Bytes
  import opened UrfTranslation
  import opened UrfEnvironment

  /** How one read ends: with bytes, at the end of the source, or in one of the error classes. */
  datatype ReadEnd = Bytes | EndOfSource | OverLimit | ContextDone | Failed

  /** What a one-byte probe at the limit reports. */
  function ProbeEnd(n: int, err: ReadError): ReadEnd {
    if n < 0 || n > 1 then Failed
    else if n > 0 then
      if err.UnexpectedEOF? then EndOfSource
      else if err.OtherError? then Failed
      else OverLimit
    else if err.NoError? || err.OtherError? then Failed
    else EndOfSource
  }

  class SourceReader {
    const ctx: Context
    const r: Source
    const limit: I64
    var count: nat
    var pendingEOF: bool
    // The probe at the limit took the one byte beyond it for the end of the source.
    ghost var cut: bool

    /** The source as the limit lets it be seen. */
    ghost function Seen(): Input {
      if limit > 0 then Limited(r.data, limit) else Input([], false)
    }

    /** The source as it is translated: all of it, unless its last byte was cut off. */
    ghost function Taken(): seq<Byte>
      reads this
    {
      if cut && 0 < limit <= |r.data| then r.data[..limit] else r.data
    }

    /** A source is cut only at the fault of its reader, and has then exactly one byte more than the limit. */
    ghost predicate CutAtLimit()
      reads this, r
    {
      limit > 0 && r.Valid() && (cut ==> r.faulted && |r.data| == limit + 1)
    }

    /** count bytes were handed over, and none is lost. */
    ghost predicate Valid()
      reads this, r
    {
      && !cut
      && limit > 0 && r.Valid()
      && count == r.pos <= |Seen().bytes|
      && (pendingEOF ==> count == |r.data|)
    }

    ghost predicate Clean()
      reads ctx, r
    {
      !ctx.canceled && !r.faulted
    }

    constructor (ctx: Context, r: Source, limit: I64)
      requires limit > 0 && r.Valid() && r.pos == 0
      ensures Valid() && this.ctx == ctx && this.r == r && this.limit == limit && count == 0
    {
      this.ctx, this.r, this.limit := ctx, r, limit;
      count, pendingEOF, cut := 0, false, false;
    }

    /**
     At the limit: asks for one more byte.  The end is reported when there is none, and when the
     reader hands over its last byte together with an unexpected EOF.
     */
    method Probe() returns (end: ReadEnd)
      requires Valid() && count == limit
      modifies r, this`cut
      ensures Clean() ==> old(Clean())
      ensures CutAtLimit() && (cut ==> end.EndOfSource?)
      ensures cut <==> r.lastCount == 1 && r.lastError.UnexpectedEOF?
      ensures !end.Bytes? && !end.ContextDone?
      ensures end.EndOfSource? ==> (cut <==> Seen().over)
      ensures end.OverLimit? ==> Seen().over
      ensures end.Failed? ==> !Clean()
    {
      var probe := new Byte[1];
      var got, err := r.Read(probe, 0, 1);
      end := ProbeEnd(got, err);
      cut := end.EndOfSource? && got == 1;
    }

    /** One read from the source below the limit. */
    method Fetch(buf: array<Byte>, lo: nat, hi: nat) returns (n: nat, end: ReadEnd)
      requires Valid() && !pendingEOF && lo < hi <= buf.Length && count + (hi - lo) <= limit
      modifies this`count, this`pendingEOF, r, buf
      ensures Clean() ==> old(Clean())
      ensures r.Valid()
      ensures buf[..lo] == old(buf[..lo])
      ensures count == old(count) + n && n <= hi - lo && count <= |Seen().bytes|
      ensures buf[lo..lo + n] == Seen().bytes[old(count)..count]
      ensures end.Bytes? ==> Valid() && n > 0
      ensures end.EndOfSource? ==> Valid() && count == |r.data| && (Clean() ==> n == 0)
      ensures !end.OverLimit? && !end.ContextDone?
      ensures end.Failed? ==> !Clean()
    {
      ghost var before := count;
      var got, err := r.Read(buf, lo, hi);
      if got < 0 || got > hi - lo {
        return 0, Failed;
      }
      n := got;
      count := count + got;
      assert Seen().bytes[before..count] == r.data[before..count];
      if err.NoError? {
        end := if got == 0 then Failed else Bytes;
      } else if err.EOF? && got > 0 {
        pendingEOF := true;
        end := Bytes;
      } else {
        end := if err.OtherError? then Failed else EndOfSource;
      }
    }

    /**
     Reads into buf[lo..hi].  Bytes move the count; the end is reported only when the whole source
     was handed over, or is cut one byte before its end; the limit only when a further byte exists.
     */
    method Read(buf: array<Byte>, lo: nat, hi: nat) returns (n: nat, end: ReadEnd)
      requires Valid() && lo < hi <= buf.Length
      modifies this, ctx, r, buf
      ensures Clean() ==> old(Clean())
      ensures CutAtLimit() && (cut ==> end.EndOfSource?)
      ensures buf[..lo] == old(buf[..lo])
      ensures count == old(count) + n && n <= hi - lo && count <= |Seen().bytes|
      ensures buf[lo..lo + n] == Seen().bytes[old(count)..count]
      ensures end.Bytes? ==> Valid() && n > 0
      ensures end.EndOfSource? ==> count == |Seen().bytes| && (cut <==> Seen().over) && (Clean() ==> n == 0) && (n > 0 ==> Valid())
      ensures end.OverLimit? ==> n == 0 && count == |Seen().bytes| && Seen().over
      ensures end.ContextDone? ==> ctx.canceled
      ensures end.Failed? ==> !Clean()
    {
      n := 0;
      var canceled := ctx.Err();
      if canceled {
        return 0, ContextDone;
      }
      if pendingEOF {
        pendingEOF := false;
        return 0, EndOfSource;
      }
      var remaining := limit - count;
      if remaining == 0 {
        end := Probe();
        return 0, end;
      }
      var top := if hi - lo > remaining then lo + remaining else hi;
      n, end := Fetch(buf, lo, top);
    }
  }
}
