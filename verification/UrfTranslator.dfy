/**
 The translator itself: nested loops over pages, row groups and packets that copy what they read,
 then patch the page counts and the marker into the destination.  Every method is tied to the
 functions of UrfTranslation; while pages are being copied the destination never shows a marker.
 */
module UrfTranslator {
  import opened Basics
  import opened Bytes
  import opened RasterReaders
  import opened PwgHeader
  import opened UrfTranslation
  import opened UrfEnvironment
  import opened UrfSourceReader

  type Error = Option<Kind>

  /** The first four bytes, as far as written, are zero. */
  predicate Blank(s: seq<Byte>) {
    forall i :: 0 <= i < |s| && i < 4 ==> s[i] == 0
  }

  lemma BlankUnmarked(s: seq<Byte>)
    requires Blank(s)
    ensures !Marked(s)
  {
    if |s| >= 4 {
      assert s[..4][0] == s[0];
    }
  }

  function ScanError(r: Scan): Error {
    if r.At? then None else Some(r.kind)
  }

  /** How far a translation has come: what is written, what is read, and the log of marked contents. */
  datatype Mark = Mark(content: seq<Byte>, count: nat, output: int, marked: seq<seq<Byte>>)

  /** From a to b, exactly the bytes read were written. */
  ghost predicate Follows(a: Mark, b: Mark, bytes: seq<Byte>) {
    && a.count <= b.count <= |bytes|
    && b.content == a.content + bytes[a.count..b.count]
    && b.output - b.count == a.output - a.count
    && b.marked == a.marked
  }

  lemma FollowsOn(a: Mark, b: Mark, c: Mark, bytes: seq<Byte>)
    requires Follows(a, b, bytes) && Follows(b, c, bytes)
    ensures Follows(a, c, bytes)
    ensures c.output - c.count == a.output - a.count && c.marked == a.marked
  {
    SliceJoin(bytes, a.count, b.count, c.count);
  }

  lemma FollowsSelf(a: Mark, bytes: seq<Byte>)
    requires a.count <= |bytes|
    ensures Follows(a, a, bytes)
  {
  }

  class Translator {
    const ctx: Context
    const src: SourceReader
    const dst: Destination
    const cfg: Config
    const scratch: array<Byte>

    var pages: nat
    var pageCounts: seq<nat>
    var outputBytes: nat
    var pageLogical: U64

    /** The pages emitted so far. */
    ghost var done: seq<PageOut>

    ghost predicate Clean()
      reads ctx, src.r, dst
    {
      !ctx.canceled && !src.r.faulted && !dst.faulted
    }

    /** Between copies: the reader has lost nothing and the destination is written to its end. */
    ghost predicate Ready()
      reads src, src.r, dst, this`outputBytes
    {
      && src.ctx == ctx && cfg.Valid() && src.limit == cfg.limits.maxInputBytes && scratch.Length == SCRATCH
      && src.Valid()
      && dst.pos == |dst.content| == outputBytes <= cfg.limits.maxOutputBytes
      && 4 <= |dst.content| && Blank(dst.content)
    }

    ghost function Here(): Mark
      reads src`count, dst`content, dst`marked, this`outputBytes
    {
      Mark(dst.content, src.count, outputBytes, dst.marked)
    }

    ghost function Now(): Flow
      reads src`count, this`outputBytes
    {
      Flow(src.Seen(), cfg.limits.maxOutputBytes, outputBytes - src.count)
    }

    /** No fault, and bytes copied, since an earlier state. */
    twostate predicate Kept()
      reads ctx, src, src.r, dst
    {
      && (Clean() ==> old(Clean()))
      && src.CutAtLimit()
      && dst.marked == old(dst.marked)
    }

    constructor (ctx: Context, r: Source, dst: Destination, cfg: Config)
      requires cfg.Valid() && r.Valid() && r.pos == 0 && dst.content == [] && dst.pos == 0
      ensures this.ctx == ctx && src.ctx == ctx && src.r == r && this.dst == dst && this.cfg == cfg
      ensures fresh(src) && fresh(scratch)
      ensures src.Valid() && src.limit == cfg.limits.maxInputBytes && scratch.Length == SCRATCH
      ensures src.count == 0 && outputBytes == 0 && pages == 0 && pageCounts == [] && pageLogical == 0 && done == []
    {
      this.ctx, this.dst, this.cfg := ctx, dst, cfg;
      src := new SourceReader(ctx, r, cfg.limits.maxInputBytes);
      scratch := new Byte[SCRATCH];
      pages, pageCounts, outputBytes, pageLogical, done := 0, [], 0, 0, [];
    }

    method CheckContext() returns (e: Error)
      modifies ctx
      ensures old(ctx.canceled) ==> ctx.canceled
      ensures e == if ctx.canceled then Some(Canceled) else None
    {
      var canceled := ctx.Err();
      e := if canceled then Some(Canceled) else None;
    }

    /** The error of a read that ended early; the limit is recognised before a cancellation. */
    method ReadFailure(end: ReadEnd) returns (e: Kind)
      requires !end.Bytes?
      modifies ctx
      ensures old(ctx.canceled) ==> ctx.canceled
      ensures end.OverLimit? ==> e == ResourceLimit
      ensures end.EndOfSource? && !ctx.canceled ==> e == MalformedInput
    {
      if end.OverLimit? {
        return ResourceLimit;
      }
      var canceled := ctx.Err();
      if canceled {
        return Canceled;
      }
      e := if end.EndOfSource? then MalformedInput else SourceIO;
    }

    /** Reads exactly n bytes into buf, in as many reads as it takes. */
    method ReadFull(buf: array<Byte>, n: nat) returns (e: Error)
      requires src.ctx == ctx && src.Valid() && n <= buf.Length
      modifies src, ctx, src.r, buf
      ensures src.Clean() ==> old(src.Clean())
      ensures src.CutAtLimit()
      ensures src.count <= |src.Seen().bytes|
      ensures e.None? ==> src.Valid() && src.count == old(src.count) + n && buf[..n] == src.Seen().bytes[old(src.count)..src.count]
      ensures src.Clean() ==> e == if old(src.count) + n <= |src.Seen().bytes| then None else Some(src.Seen().Short())
    {
      var total := 0;
      while total < n
        invariant total <= n
        invariant src.Valid() && (src.Clean() ==> old(src.Clean()))
        invariant src.count == old(src.count) + total
        invariant buf[..total] == src.Seen().bytes[old(src.count)..src.count]
      {
        ghost var before, was := src.count, buf[..total];
        var got, end := src.Read(buf, total, n);
        assert buf[..total + got] == was + buf[total..total + got];
        SliceJoin(src.Seen().bytes, old(src.count), before, src.count);
        total := total + got;
        if !end.Bytes? {
          var kind := ReadFailure(end);
          return Some(kind);
        }
      }
      e := None;
    }

    /** Appends bytes, in as many writes as it takes. */
    method Write(bytes: seq<Byte>) returns (e: Error)
      requires dst.pos == |dst.content| == outputBytes <= cfg.limits.maxOutputBytes && Blank(dst.content + bytes)
      modifies this`outputBytes, ctx, dst
      ensures (!ctx.canceled && !dst.faulted) ==> old(!ctx.canceled && !dst.faulted)
      ensures dst.marked == old(dst.marked)
      ensures e.None? ==>
        && dst.content == old(dst.content) + bytes
        && dst.pos == |dst.content| == outputBytes <= cfg.limits.maxOutputBytes
      ensures !ctx.canceled && !dst.faulted ==>
        e == if old(outputBytes) + |bytes| <= cfg.limits.maxOutputBytes then None else Some(ResourceLimit)
    {
      e := CheckContext();
      if e.Some? {
        return;
      }
      if outputBytes + |bytes| > cfg.limits.maxOutputBytes {
        return Some(ResourceLimit);
      }
      var left := bytes;
      while left != []
        invariant (!ctx.canceled && !dst.faulted) ==> old(!ctx.canceled && !dst.faulted)
        invariant dst.content + left == old(dst.content) + bytes
        invariant dst.pos == |dst.content| == outputBytes
        invariant dst.marked == old(dst.marked)
        decreases |left|
      {
        e := CheckContext();
        if e.Some? {
          return;
        }
        ghost var before := dst.content;
        var n, failed, taken := dst.Write(left);
        assert dst.content == before + left[..taken];
        assert dst.content + left[taken..] == old(dst.content) + bytes;
        assert dst.content == (old(dst.content) + bytes)[..|dst.content|];
        BlankUnmarked(dst.content);
        if n < 0 || n > |left| {
          return Some(DestinationIO);
        }
        outputBytes := outputBytes + n;
        if failed || n == 0 {
          return Some(DestinationIO);
        }
        left := left[n..];
      }
      e := None;
    }

    /** One read of n bytes through buf, and one write of them. */
    method Copy(buf: array<Byte>, n: nat) returns (e: Error)
      requires Ready() && n <= buf.Length
      modifies this`outputBytes, src, src.r, ctx, dst, buf
      ensures Kept()
      ensures e.None? ==> Ready() && Follows(old(Here()), Here(), src.Seen().bytes)
      ensures e.None? ==> UrfTranslation.Copy(old(Now()), old(src.count), n) == At(src.count) && buf[..n] == src.Seen().bytes[old(src.count)..src.count]
      ensures Clean() ==> e == ScanError(UrfTranslation.Copy(old(Now()), old(src.count), n))
    {
      e := ReadFull(buf, n);
      if e.None? {
        ghost var was := dst.content;
        e := Write(buf[..n]);
        assert e.None? ==> dst.content[..4] == was[..4];
      }
    }

    method CopyBytes(n: nat) returns (e: Error)
      requires Ready()
      modifies this`outputBytes, src, src.r, ctx, dst, scratch
      ensures Kept()
      ensures e.None? ==> Ready() && Follows(old(Here()), Here(), src.Seen().bytes)
      ensures e.None? ==> UrfTranslation.CopyBytes(old(Now()), old(src.count), n) == At(src.count)
      ensures Clean() ==> e == ScanError(UrfTranslation.CopyBytes(old(Now()), old(src.count), n))
    {
      ghost var f, start := Now(), Here();
      ReadyFacts();
      FollowsSelf(start, src.Seen().bytes);
      hide Ready, Follows, UrfTranslation.Copy;
      var left := n;
      while left > 0
        invariant 0 <= left && Ready() && Kept() && Follows(start, Here(), src.Seen().bytes) && Now() == f
        invariant UrfTranslation.CopyBytes(f, start.count, n) == UrfTranslation.CopyBytes(f, src.count, left)
      {
        e := CheckContext();
        if e.Some? {
          return;
        }
        ReadyFacts();
        var chunk := Min(SCRATCH, left);
        ghost var before := Here();
        e := Copy(scratch, chunk);
        if e.Some? {
          return;
        }
        FollowsOn(start, before, Here(), src.Seen().bytes);
        left := left - chunk;
      }
      e := None;
    }

    /** A control or repeat byte, copied and looked at. */
    method CopyByte() returns (b: Byte, e: Error)
      requires Ready()
      modifies this`outputBytes, src, src.r, ctx, dst
      ensures Kept()
      ensures e.None? ==> Ready() && Follows(old(Here()), Here(), src.Seen().bytes)
      ensures e.None? ==> UrfTranslation.Copy(old(Now()), old(src.count), 1) == At(src.count) && b == src.Seen().bytes[old(src.count)]
      ensures e.None? ==> src.count == old(src.count) + 1 && Now() == old(Now())
      ensures Clean() ==> e == ScanError(UrfTranslation.Copy(old(Now()), old(src.count), 1))
    {
      var buf := new Byte[1];
      e := Copy(buf, 1);
      b := buf[0];
      assert buf[..1][0] == b;
    }

    lemma ReadyFacts()
      requires Ready()
      ensures scratch.Length == SCRATCH && src.count <= |src.Seen().bytes| && src.ctx == ctx && cfg.Valid() && src.r.Valid()
      ensures src.CutAtLimit() && !src.cut
    {
    }

    /** One packet of a line with remaining bytes left; it returns what the packet leaves. */
    method CopyPacket(bpp: nat, remaining: nat) returns (left: nat, e: Error)
      requires Ready() && 0 < bpp <= 3 && remaining > 0
      modifies this`outputBytes, src, src.r, ctx, dst, scratch
      ensures Kept()
      ensures e.None? ==> Ready() && Follows(old(Here()), Here(), src.Seen().bytes)
      ensures e.None? ==> UrfTranslation.CopyPacket(old(Now()), old(src.count), bpp, remaining) == PacketAt(src.count, left)
      ensures Clean() && e.Some? ==> UrfTranslation.CopyPacket(old(Now()), old(src.count), bpp, remaining) == PacketStop(e.value)
    {
      ReadyFacts();
      hide Ready, Follows, PacketWant, UrfTranslation.CopyBytes;
      ghost var start := Here();
      left := 0;
      e := CheckContext();
      if e.Some? {
        return;
      }
      var c: Byte;
      c, e := CopyByte();
      if e.Some? {
        return;
      }
      ghost var before := Here();
      if c == 0x80 {
        return 0, None;
      }
      var want := PacketWant(c, bpp, remaining);
      if c > 0x80 {
        e := CopyBytes(want);
      } else if want < bpp {
        return 0, None;
      } else {
        e := CopyBytes(bpp);
      }
      if e.None? {
        left := remaining - want;
        FollowsOn(start, before, Here(), src.Seen().bytes);
      }
    }

    method CopyRow(bpp: nat, rowBytes: nat) returns (e: Error)
      requires Ready() && 0 < bpp <= 3
      modifies this`outputBytes, src, src.r, ctx, dst, scratch
      ensures Kept()
      ensures e.None? ==> Ready() && Follows(old(Here()), Here(), src.Seen().bytes)
      ensures e.None? ==> UrfTranslation.CopyRow(old(Now()), old(src.count), bpp, rowBytes) == At(src.count)
      ensures Clean() ==> e == ScanError(UrfTranslation.CopyRow(old(Now()), old(src.count), bpp, rowBytes))
    {
      ghost var f, start := Now(), Here();
      ReadyFacts();
      FollowsSelf(start, src.Seen().bytes);
      hide Ready, Follows, UrfTranslation.CopyPacket;
      var remaining := rowBytes;
      while remaining > 0
        invariant 0 <= remaining && Ready() && Kept() && Follows(start, Here(), src.Seen().bytes) && Now() == f
        invariant UrfTranslation.CopyRow(f, start.count, bpp, rowBytes) == UrfTranslation.CopyRow(f, src.count, bpp, remaining)
      {
        ghost var before := Here();
        remaining, e := CopyPacket(bpp, remaining);
        if e.Some? {
          return;
        }
        FollowsOn(start, before, Here(), src.Seen().bytes);
      }
      e := None;
    }

    /** A repeat byte and the line it repeats; it returns the number of rows they stand for. */
    method CopyRowGroup(page: Page) returns (rows: nat, e: Error)
      requires Ready()
      modifies this`outputBytes, src, src.r, ctx, dst, scratch
      ensures Kept()
      ensures e.None? ==> Ready() && Follows(old(Here()), Here(), src.Seen().bytes)
      ensures e.None? ==> UrfTranslation.CopyRowGroup(old(Now()), old(src.count), page) == At(src.count)
      ensures e.None? ==> rows == src.Seen().bytes[old(src.count)] as int + 1
      ensures Clean() ==> e == ScanError(UrfTranslation.CopyRowGroup(old(Now()), old(src.count), page))
    {
      ReadyFacts();
      hide Ready, Follows, UrfTranslation.CopyRow;
      ghost var start := Here();
      rows := 0;
      e := CheckContext();
      if e.Some? {
        return;
      }
      var repeat: Byte;
      repeat, e := CopyByte();
      if e.Some? {
        return;
      }
      rows := repeat as int + 1;
      ghost var before := Here();
      e := CopyRow(page.colour.Bytes(1), page.RowBytes());
      if e.None? {
        FollowsOn(start, before, Here(), src.Seen().bytes);
      }
    }

    /** The row groups of one page. */
    method CopyPageData(page: Page) returns (e: Error)
      requires Ready()
      modifies this`outputBytes, src, src.r, ctx, dst, scratch
      ensures Kept()
      ensures e.None? ==> Ready() && Follows(old(Here()), Here(), src.Seen().bytes)
      ensures e.None? ==> CopyRows(old(Now()), old(src.count), page, 0) == At(src.count)
      ensures Clean() ==> e == ScanError(CopyRows(old(Now()), old(src.count), page, 0))
    {
      ghost var f, start := Now(), Here();
      ReadyFacts();
      FollowsSelf(start, src.Seen().bytes);
      hide Ready, Follows, RowsAfter, UrfTranslation.CopyRowGroup;
      var rowsDone := 0;
      while rowsDone < page.height
        invariant 0 <= rowsDone <= page.height && Ready() && Kept() && Follows(start, Here(), src.Seen().bytes) && Now() == f
        invariant CopyRows(f, start.count, page, 0) == CopyRows(f, src.count, page, rowsDone)
      {
        ghost var before := Here();
        var repeatRows;
        repeatRows, e := CopyRowGroup(page);
        if e.Some? {
          return;
        }
        FollowsOn(start, before, Here(), src.Seen().bytes);
        rowsDone := RowsAfter(page, rowsDone, repeatRows);
      }
      e := None;
    }

    // ---- page headers ----

    method PutText(h: array<Byte>, off: nat, text: seq<Byte>)
      requires off + |text| <= h.Length
      modifies h
      ensures h[..] == Patch(old(h[..]), off, text)
    {
      forall i | 0 <= i < |text| {
        h[off + i] := text[i];
      }
    }

    method Put32(h: array<Byte>, off: nat, v: U32, ghost words: seq<U32>)
      requires h.Length == PWG_PAGE_HEADER && |words| == WORDS && h[..] == Frame(cfg.page, words)
      requires WORDS_AT <= off < WORDS_AT + 4 * WORDS && off % 4 == 0
      modifies h
      ensures h[..] == Frame(cfg.page, Put(words, off, v))
    {
      FramePatch(cfg.page, words, off, v);
      PutText(h, off, Word(v));
    }

    method PutSheet(h: array<Byte>, page: Page)
      requires h.Length == PWG_PAGE_HEADER && h[..] == Frame(cfg.page, BlankWords())
      modifies h
      ensures h[..] == Frame(cfg.page, SheetWords(BlankWords(), cfg.page, page))
    {
      hide Frame, Put;
      var s := cfg.page;
      var across, down := s.mediaWidth, s.mediaHeight;
      if page.landscape {
        across, down := down, across;
      }
      ghost var w := BlankWords();
      Put32(h, 272, Flag(s.sides != "one-sided"), w); w := Put(w, 272, Flag(s.sides != "one-sided"));
      Put32(h, 276, s.resolutionX, w); w := Put(w, 276, s.resolutionX);
      Put32(h, 280, s.resolutionY, w); w := Put(w, 280, s.resolutionY);
      Put32(h, 292, Points(across), w); w := Put(w, 292, Points(across));
      Put32(h, 296, Points(down), w); w := Put(w, 296, Points(down));
      Put32(h, 324, s.mediaSource, w); w := Put(w, 324, s.mediaSource);
      Put32(h, 352, Points(across), w); w := Put(w, 352, Points(across));
      Put32(h, 356, Points(down), w); w := Put(w, 356, Points(down));
      Put32(h, 368, Flag(s.sides == "two-sided-short-edge"), w);
    }

    method PutRaster(h: array<Byte>, page: Page, ghost words: seq<U32>)
      requires h.Length == PWG_PAGE_HEADER && |words| == WORDS && h[..] == Frame(cfg.page, words) && page.Valid()
      modifies h
      ensures h[..] == Frame(cfg.page, RasterWords(words, page))
    {
      hide Frame, Put;
      ghost var w := words;
      Put32(h, 372, page.width, w); w := Put(w, 372, page.width);
      Put32(h, 376, page.height, w); w := Put(w, 376, page.height);
      Put32(h, 384, 8, w); w := Put(w, 384, 8);
      Put32(h, 388, 8 * page.colour.Bytes(1), w); w := Put(w, 388, 8 * page.colour.Bytes(1));
      Put32(h, 392, page.RowBytes(), w); w := Put(w, 392, page.RowBytes());
      Put32(h, 396, 0, w); w := Put(w, 396, 0);
      Put32(h, 400, PwgSpace(page.colour), w); w := Put(w, 400, PwgSpace(page.colour));
      Put32(h, 420, page.colour.Bytes(1), w);
    }

    method PutTrailer(h: array<Byte>, page: Page, ghost words: seq<U32>)
      requires h.Length == PWG_PAGE_HEADER && |words| == WORDS && h[..] == Frame(cfg.page, words)
      modifies h
      ensures h[..] == Frame(cfg.page, TrailingWords(words, cfg.page, page, pages, 0))
    {
      hide Frame, Put;
      var s := cfg.page;
      var acrossF, downF := s.pointsWidth, s.pointsHeight;
      if page.landscape {
        acrossF, downF := downF, acrossF;
      }
      var (cross, feed) := Transforms(s, pages);
      ghost var w := words;
      Put32(h, 428, acrossF, w); w := Put(w, 428, acrossF);
      Put32(h, 432, downF, w); w := Put(w, 432, downF);
      Put32(h, TOTAL_PAGES, 0, w); w := Put(w, TOTAL_PAGES, 0);
      Put32(h, 456, cross, w); w := Put(w, 456, cross);
      Put32(h, 460, feed, w); w := Put(w, 460, feed);
      Put32(h, 472, page.width, w); w := Put(w, 472, page.width);
      Put32(h, 476, page.height, w); w := Put(w, 476, page.height);
      Put32(h, 480, 0xff_ffff, w); w := Put(w, 480, 0xff_ffff);
      Put32(h, 484, s.printQuality, w);
    }

    /** Writes the header of the next page, whose page count is still zero, and remembers where that count is. */
    method EmitPageHeader(page: Page) returns (e: Error)
      requires Ready() && page.Valid()
      modifies this`outputBytes, this`pageCounts, ctx, dst
      ensures Kept()
      ensures e.None? ==> Ready() && dst.content == old(dst.content) + Header(cfg.page, page, pages, 0)
      ensures e.None? ==> pageCounts == old(pageCounts) + [old(outputBytes) + TOTAL_PAGES]
      ensures e.None? ==> outputBytes == old(outputBytes) + PWG_PAGE_HEADER <= cfg.limits.maxOutputBytes
      ensures Clean() ==>
        e == if old(outputBytes) + PWG_PAGE_HEADER <= cfg.limits.maxOutputBytes then None else Some(ResourceLimit)
    {
      hide Header, Frame, HeaderWords;
      var h := new Byte[PWG_PAGE_HEADER](_ => 0);
      assert h[..] == Fill(0, PWG_PAGE_HEADER);
      PutText(h, 0, PWG_RASTER);
      PutText(h, 128, Text(cfg.page.mediaType));
      PutText(h, 1732, Text(cfg.page.mediaName));
      FrameBlank(cfg.page);
      PutSheet(h, page);
      PutRaster(h, page, SheetWords(BlankWords(), cfg.page, page));
      PutTrailer(h, page, RasterWords(SheetWords(BlankWords(), cfg.page, page), page));
      assert h[..] == Header(cfg.page, page, pages, 0) by {
        HeaderUnfolds(page);
      }
      var countOffset := outputBytes + TOTAL_PAGES;
      e := Write(h[..]);
      if e.None? {
        pageCounts := pageCounts + [countOffset];
      }
    }

    lemma HeaderUnfolds(page: Page)
      requires page.Valid()
      ensures Header(cfg.page, page, pages, 0)
        == Frame(cfg.page, TrailingWords(RasterWords(SheetWords(BlankWords(), cfg.page, page), page), cfg.page, page, pages, 0))
    {
    }

    // ---- the page loop ----

    /** What has been emitted are the pages done, none of which announces a page count yet. */
    ghost predicate Emitting()
      reads this`pages, this`pageCounts, this`done, dst
    {
      && AllValid(done) && pages == |done| <= cfg.limits.maxPages
      && dst.content == Staged(cfg.page, done, 0, 0)
      && CountsAt(pageCounts, done)
    }

    /** Reads a page header; fewer than 32 bytes without an error are the end of the document. */
    method ReadHeader(raw: array<Byte>) returns (n: nat, e: Error)
      requires src.ctx == ctx && src.Valid() && raw.Length == URF_PAGE_HEADER
      modifies src, ctx, src.r, raw
      ensures src.Clean() ==> old(src.Clean())
      ensures src.CutAtLimit()
      ensures n <= URF_PAGE_HEADER && (e.None? ==> src.count == old(src.count) + n <= |src.Seen().bytes|)
      ensures e.None? && n == URF_PAGE_HEADER ==> src.Valid() && raw[..] == src.Seen().bytes[old(src.count)..src.count]
      ensures e.None? && n < URF_PAGE_HEADER ==> src.count == |src.Seen().bytes| && (src.cut <==> src.Seen().over)
      ensures src.Clean() ==>
        if old(src.count) + URF_PAGE_HEADER <= |src.Seen().bytes| then e.None? && n == URF_PAGE_HEADER
        else if src.Seen().over then e == Some(ResourceLimit)
        else e.None? && n < URF_PAGE_HEADER
    {
      n := 0;
      while n < URF_PAGE_HEADER
        invariant n <= URF_PAGE_HEADER
        invariant src.Valid() && (src.Clean() ==> old(src.Clean()))
        invariant src.count == old(src.count) + n
        invariant raw[..n] == src.Seen().bytes[old(src.count)..src.count]
      {
        ghost var before, was := src.count, raw[..n];
        var got, end := src.Read(raw, n, URF_PAGE_HEADER);
        assert raw[..n + got] == was + raw[n..n + got];
        SliceJoin(src.Seen().bytes, old(src.count), before, src.count);
        n := n + got;
        if !end.Bytes? {
          if end.OverLimit? {
            return n, Some(ResourceLimit);
          }
          var canceled := ctx.Err();
          if canceled {
            return n, Some(Canceled);
          }
          if end.EndOfSource? {
            return n, None;
          }
          return n, Some(SourceIO);
        }
      }
      assert raw[..] == raw[..n];
      e := None;
    }

    /** One page: its header was read from position before; it is checked, emitted and copied. */
    method TranslatePage(raw: array<Byte>, ghost before: nat) returns (e: Error)
      requires Ready() && Emitting() && raw.Length == URF_PAGE_HEADER
      requires src.count == before + URF_PAGE_HEADER && raw[..] == src.Seen().bytes[before..src.count]
      modifies this`pages, this`pageCounts, this`pageLogical, this`done, this`outputBytes, src, src.r, ctx, dst, scratch
      ensures Kept()
      ensures e.None? ==> Ready() && Emitting()
      ensures e.None? ==>
        && old(|done|) < cfg.limits.maxPages && |done| == old(|done|) + 1
        && CopyPage(cfg, src.Seen(), before, old(done), old(pageLogical)) == OnePage(done[|done| - 1], src.count, pageLogical)
        && done == old(done) + [done[|done| - 1]]
      ensures Clean() && e.Some? ==> CopyPage(cfg, src.Seen(), before, old(done), old(pageLogical)) == NoPage(e.value)
    {
      hide Ready, Emitting, Follows, CheckPage, CopyRows, Header, Staged;
      ReadyFacts();
      EmittingParts();
      if pages >= cfg.limits.maxPages {
        return Some(ResourceLimit);
      }
      var check := CheckPage(cfg, raw[..], pageLogical);
      if check.PageBad? {
        return Some(check.kind);
      }
      pageLogical := check.logical;
      ghost var start, bytes := src.count, src.Seen().bytes;
      e := EmitPageHeader(check.page);
      if e.Some? {
        return;
      }
      ghost var mark := Here();
      e := CopyPageData(check.page);
      if e.Some? {
        return;
      }
      FollowsUnfold(mark, Here(), bytes);
      ghost var out := PageOut(check.page, bytes[start..src.count]);
      pages := pages + 1;
      done := done + [out];
      EmittingGrows(old(pageCounts), old(done), out);
    }

    /** The page loop: it ends without an error at the end of the source. */
    method TranslatePages() returns (e: Error)
      requires Ready() && Emitting() && pages == 0 && pageLogical == 0
      modifies this`pages, this`pageCounts, this`pageLogical, this`done, this`outputBytes, src, src.r, ctx, dst, scratch
      ensures Kept()
      ensures e.None? ==> Emitting() && dst.pos == |dst.content| == outputBytes <= cfg.limits.maxOutputBytes && Blank(dst.content)
      ensures e.None? ==>
        && src.count == |src.Seen().bytes| && (src.cut <==> src.Seen().over)
        && CopyPages(cfg, Input(src.Seen().bytes, false), old(src.count), [], 0) == Pages(done)
      ensures Clean() && e.Some? ==> CopyPages(cfg, src.Seen(), old(src.count), [], 0) == NoPages(e.value)
    {
      assert done == [];
      ReadyFacts();
      hide Ready, Emitting, CopyPage;
      ghost var inp, from := src.Seen(), src.count;
      ghost var whole := Input(inp.bytes, false);
      while true
        invariant Ready() && Emitting() && Kept() && |done| <= cfg.limits.maxPages && src.count <= |inp.bytes|
        invariant CopyPages(cfg, inp, from, [], 0) == CopyPages(cfg, inp, src.count, done, pageLogical)
        invariant CopyPages(cfg, whole, from, [], 0) == CopyPages(cfg, whole, src.count, done, pageLogical)
        decreases |inp.bytes| - src.count
      {
        e := CheckContext();
        if e.Some? {
          return;
        }
        var raw := new Byte[URF_PAGE_HEADER];
        ghost var before := src.count;
        ReadyParts();
        var n;
        n, e := ReadHeader(raw);
        if e.Some? {
          return;
        }
        if n < URF_PAGE_HEADER {
          return;
        }
        ReadyAgain();
        CopyPageSeesBytes(cfg, inp, before, done, pageLogical);
        e := TranslatePage(raw, before);
        if e.Some? {
          return;
        }
      }
    }

    // ---- finishing ----

    /** Overwrites the bytes at off; every marked content on the way is the old one with part of them. */
    method SeekWrite(off: nat, bytes: seq<Byte>) returns (e: Error)
      requires off + |bytes| <= |dst.content|
      modifies ctx, dst
      ensures !ctx.canceled && !dst.faulted ==> old(!ctx.canceled && !dst.faulted) && e.None?
      ensures e.None? ==> dst.content == Patch(old(dst.content), off, bytes)
      ensures |dst.content| == old(|dst.content|)
      ensures OnlyPatched(old(dst.marked), dst.marked, old(dst.content), off, bytes)
    {
      ghost var before, was := dst.content, dst.marked;
      OnlyPatchedSelf(was, before, off, bytes);
      assert Patch(before, off, bytes[..0]) == before;
      hide Patch, Marked, OnlyPatched, Written;
      e := CheckContext();
      if e.Some? {
        return;
      }
      var pos, failed := dst.Seek(off, false);
      if failed || pos != off {
        return Some(DestinationIO);
      }
      var written := 0;
      while written < |bytes|
        invariant written <= |bytes| && dst.pos == off + written
        invariant dst.content == Patch(before, off, bytes[..written])
        invariant !ctx.canceled && !dst.faulted ==> old(!ctx.canceled && !dst.faulted)
        invariant OnlyPatched(was, dst.marked, before, off, bytes)
      {
        e := CheckContext();
        if e.Some? {
          return;
        }
        var n;
        n, e := WriteRest(bytes, written, off, before, was);
        if e.Some? {
          return;
        }
        written := written + n;
      }
      assert bytes[..written] == bytes;
      e := None;
    }

    /** One write of the bytes from written on. */
    method WriteRest(bytes: seq<Byte>, written: nat, ghost off: nat, ghost before: seq<Byte>, ghost was: seq<seq<Byte>>)
      returns (n: nat, e: Error)
      requires written < |bytes| && off + |bytes| <= |before|
      requires dst.pos == off + written && dst.content == Patch(before, off, bytes[..written])
      requires OnlyPatched(was, dst.marked, before, off, bytes)
      modifies dst
      ensures !dst.faulted ==> old(!dst.faulted) && e.None?
      ensures OnlyPatched(was, dst.marked, before, off, bytes) && |dst.content| == |before|
      ensures e.None? ==>
        && 0 < n && written + n <= |bytes| && dst.pos == off + written + n
        && dst.content == Patch(before, off, bytes[..written + n])
    {
      hide Patch, Marked, OnlyPatched, Written;
      ghost var log := dst.marked;
      var count, failed, taken := dst.Write(bytes[written..]);
      PatchMore(before, off, bytes, written, taken);
      OnlyPatchedMore(was, log, dst.marked, before, off, bytes, written + taken);
      if count < 0 || count > |bytes| - written || failed || count == 0 {
        return 0, Some(DestinationIO);
      }
      n, e := count, None;
    }

    /** Patches the count of page k. */
    method PatchCount(k: nat) returns (e: Error)
      requires AllValid(done) && CountsAt(pageCounts, done) && k < |pageCounts|
      requires pages == |done| <= MAX_U32 && dst.content == Staged(cfg.page, done, k, pages)
      modifies ctx, dst
      ensures !ctx.canceled && !dst.faulted ==> old(!ctx.canceled && !dst.faulted) && e.None?
      ensures e.None? ==> dst.content == Staged(cfg.page, done, k + 1, pages)
      ensures |dst.content| == old(|dst.content|) && dst.marked == old(dst.marked)
    {
      CountOffset(pageCounts, done, k);
      PatchStaged(cfg.page, done, k, pages);
      StagedBlank(cfg.page, done, k, pages);
      hide Body, Patch, Staged, Blank, OnlyPatched, CountsAt, EmittedBytes, Word;
      ghost var was, before := dst.marked, dst.content;
      e := SeekWrite(pageCounts[k], Word(pages));
      NothingMarked(was, dst.marked, before, pageCounts[k], Word(pages));
    }

    method PatchCounts() returns (e: Error)
      requires AllValid(done) && CountsAt(pageCounts, done) && pages == |done| == |pageCounts| <= MAX_U32
      requires dst.content == Staged(cfg.page, done, 0, pages)
      modifies ctx, dst
      ensures !ctx.canceled && !dst.faulted ==> old(!ctx.canceled && !dst.faulted) && e.None?
      ensures e.None? ==> dst.content == Staged(cfg.page, done, pages, pages)
      ensures |dst.content| == old(|dst.content|) && dst.marked == old(dst.marked)
    {
      hide AllValid, Staged, CountsAt;
      for k := 0 to |pageCounts|
        invariant |dst.content| == old(|dst.content|) && dst.marked == old(dst.marked)
        invariant dst.content == Staged(cfg.page, done, k, pages)
        invariant !ctx.canceled && !dst.faulted ==> old(!ctx.canceled && !dst.faulted)
      {
        e := PatchCount(k);
        if e.Some? {
          return;
        }
      }
      e := None;
    }

    /** Writes the marker over the zeros, as the last change. */
    method PatchMark() returns (e: Error)
      requires AllValid(done) && pages == |done| <= MAX_U32
      requires dst.content == Staged(cfg.page, done, pages, pages)
      modifies ctx, dst
      ensures !ctx.canceled && !dst.faulted ==> old(!ctx.canceled && !dst.faulted) && e.None?
      ensures e.None? ==> dst.content == Document(cfg.page, done)
      ensures |dst.content| == old(|dst.content|)
      ensures OnlyAdded(old(dst.marked), dst.marked, Document(cfg.page, done))
    {
      StagedBlank(cfg.page, done, pages, pages);
      PatchMarker(cfg.page, done, pages);
      hide Body, Patch, Staged, Document, Blank, OnlyPatched, OnlyAdded;
      ghost var was, before := dst.marked, dst.content;
      e := SeekWrite(0, RAS2);
      MarkedIsWhole(was, dst.marked, before, Document(cfg.page, done));
    }

    /** Patches every page count, then the marker, and checks the size of the destination. */
    method Finalize() returns (e: Error)
      requires Emitting() && |dst.content| == outputBytes <= cfg.limits.maxOutputBytes && Blank(dst.content)
      modifies ctx, dst
      ensures !ctx.canceled && !dst.faulted ==> old(!ctx.canceled && !dst.faulted) && e.None?
      ensures e.None? ==> dst.content == Document(cfg.page, done) && dst.pos == 0 && |dst.content| == outputBytes
      ensures OnlyAdded(old(dst.marked), dst.marked, Document(cfg.page, done))
    {
      e := CheckContext();
      if e.Some? {
        return;
      }
      ghost var was := dst.marked;
      EmittingUnpatched();
      OnlyAddedSelf(was, Document(cfg.page, done));
      hide Emitting, AllValid, Staged, Document, Blank, OnlyAdded, CountsAt;
      e := PatchCounts();
      if e.Some? {
        return;
      }
      e := PatchMark();
      if e.Some? {
        return;
      }
      e := Measure();
    }

    /** The destination must be exactly as long as what was emitted; it is left rewound. */
    method Measure() returns (e: Error)
      requires |dst.content| == outputBytes <= cfg.limits.maxOutputBytes
      modifies ctx, dst`pos, dst`faulted
      ensures !ctx.canceled && !dst.faulted ==> old(!ctx.canceled && !dst.faulted) && e.None?
      ensures e.None? ==> dst.pos == 0
    {
      e := CheckContext();
      if e.Some? {
        return;
      }
      var end, failed := dst.Seek(0, true);
      if failed || end != outputBytes {
        return Some(DestinationIO);
      }
      e := CheckContext();
      if e.Some? {
        return;
      }
      end, failed := dst.Seek(0, false);
      if failed || end != 0 {
        return Some(DestinationIO);
      }
      e := CheckContext();
    }

    /** The provisional marker and the file header. */
    method Begin() returns (e: Error)
      requires cfg.Valid() && src.ctx == ctx && src.Valid() && src.limit == cfg.limits.maxInputBytes && scratch.Length == SCRATCH
      requires src.count == 0 && dst.content == [] && dst.pos == 0 && outputBytes == 0
      requires pages == 0 && pageCounts == [] && done == []
      modifies this`outputBytes, src, src.r, ctx, dst
      ensures Kept()
      ensures e.None? ==> Ready() && Emitting() && src.count == URF_FILE_HEADER
      ensures e.None? || Clean() ==> e == BeginError(cfg, src.Seen())
    {
      e := Write([0, 0, 0, 0]);
      if e.Some? {
        return;
      }
      e := ReadFileHeader();
    }

    /** The provisional marker, the file header, the pages, and the patches. */
    method Run() returns (e: Error)
      requires cfg.Valid() && src.ctx == ctx && src.Valid() && src.limit == cfg.limits.maxInputBytes && scratch.Length == SCRATCH
      requires src.count == 0 && dst.content == [] && dst.pos == 0 && outputBytes == 0
      requires pages == 0 && pageCounts == [] && pageLogical == 0 && done == []
      modifies this, src, src.r, ctx, dst, scratch
      ensures (Clean() ==> old(Clean())) && src.CutAtLimit()
      ensures e.None? ==> AllValid(done) && |done| == pages <= cfg.limits.maxPages
      ensures e.None? ==> dst.content == Document(cfg.page, done) && dst.pos == 0 && outputBytes == |dst.content|
      ensures e.None? ==> Translated(cfg, src.Taken()) == Pages(done) && src.count == |src.Taken()|
      ensures OnlyDocument(old(dst.marked), dst.marked)
      ensures Clean() && e.Some? ==> Translated(cfg, src.r.data) == NoPages(e.value)
    {
      hide Ready, Emitting, CopyPages, Document, OnlyAdded, Blank;
      TranslatedFrom(cfg, src.r.data);
      e := Begin();
      if e.Some? {
        return;
      }
      e := TranslatePages();
      if e.Some? {
        return;
      }
      ghost var log := dst.marked;
      EmittingPages();
      if pages == 0 {
        return Some(MalformedInput);
      }
      e := Finalize();
      DocumentSize(cfg.page, done);
    }

    lemma EmittingPages()
      requires Emitting()
      ensures AllValid(done) && pages == |done| <= cfg.limits.maxPages
    {
    }

    /** The log grew by nothing but the document that the source translates to. */
    ghost predicate OnlyDocument(was: seq<seq<Byte>>, now: seq<seq<Byte>>)
      requires cfg.Valid()
      reads src
    {
      var r := Translated(cfg, src.Taken());
      now == was || (r.Pages? && AllValid(r.pages) && OnlyAdded(was, now, Document(cfg.page, r.pages)))
    }

    /** The sync word in either spelling; the other eight bytes are not looked at. */
    method ReadFileHeader() returns (e: Error)
      requires src.ctx == ctx && src.Valid() && src.count == 0
      modifies src, ctx, src.r
      ensures src.Clean() ==> old(src.Clean())
      ensures src.CutAtLimit()
      ensures e.None? ==> src.Valid() && src.count == URF_FILE_HEADER && (src.Seen().bytes[..4] == UNIR || src.Seen().bytes[..4] == RINU)
      ensures src.Clean() ==> var inp := src.Seen();
        e == if |inp.bytes| < URF_FILE_HEADER then Some(inp.Short())
             else if inp.bytes[..4] != UNIR && inp.bytes[..4] != RINU then Some(MalformedInput)
             else None
    {
      var h := new Byte[URF_FILE_HEADER];
      e := ReadFull(h, URF_FILE_HEADER);
      if e.None? {
        assert h[..4] == h[..URF_FILE_HEADER][..4];
        if h[..4] != UNIR && h[..4] != RINU {
          e := Some(MalformedInput);
        }
      }
    }

    lemma EmittingParts()
      requires Ready() && Emitting()
      ensures AllValid(done) && pages == |done| <= cfg.limits.maxPages && CountsAt(pageCounts, done)
      ensures dst.content == Staged(cfg.page, done, 0, 0) && outputBytes == 4 + EmittedBytes(done)
    {
      StagedLength(cfg.page, done);
    }

    lemma EmittingUnpatched()
      requires Emitting()
      ensures AllValid(done) && pages == |done| == |pageCounts| <= MAX_U32 && CountsAt(pageCounts, done)
      ensures dst.content == Staged(cfg.page, done, 0, pages)
    {
      UnpatchedBody(cfg.page, done, 0, pages);
    }

    lemma EmittingGrows(counts: seq<nat>, was: seq<PageOut>, out: PageOut)
      requires AllValid(was) && out.page.Valid() && CountsAt(counts, was)
      requires done == was + [out] && pages == |done| <= cfg.limits.maxPages
      requires pageCounts == counts + [4 + EmittedBytes(was) + TOTAL_PAGES]
      requires dst.content == Staged(cfg.page, was, 0, 0) + Header(cfg.page, out.page, |was|, 0) + out.body
      ensures Emitting()
    {
      hide Header, Staged, CountsAt;
      StagedGrows(cfg.page, was, out);
      CountsGrow(counts, was, out);
    }

    lemma ReadyParts()
      requires Ready()
      ensures src.Valid() && src.ctx == ctx && src.limit == cfg.limits.maxInputBytes && scratch.Length == SCRATCH && cfg.Valid()
      ensures dst.pos == |dst.content| == outputBytes <= cfg.limits.maxOutputBytes && 4 <= |dst.content| && Blank(dst.content)
    {
    }

    lemma ReadyAgain()
      requires src.Valid() && src.ctx == ctx && src.limit == cfg.limits.maxInputBytes && scratch.Length == SCRATCH && cfg.Valid()
      requires dst.pos == |dst.content| == outputBytes <= cfg.limits.maxOutputBytes && 4 <= |dst.content| && Blank(dst.content)
      ensures Ready()
    {
    }
  }

  lemma FollowsUnfold(a: Mark, b: Mark, bytes: seq<Byte>)
    requires Follows(a, b, bytes)
    ensures a.count <= b.count <= |bytes| && b.content == a.content + bytes[a.count..b.count]
    ensures b.output - b.count == a.output - a.count && b.marked == a.marked
  {
  }

  lemma StagedLength(s: PageSettings, pages: seq<PageOut>)
    requires AllValid(pages)
    ensures |Staged(s, pages, 0, 0)| == 4 + EmittedBytes(pages)
  {
    BodyLength(s, pages, 0, 0);
  }

  lemma StagedGrows(s: PageSettings, pages: seq<PageOut>, out: PageOut)
    requires AllValid(pages) && out.page.Valid()
    ensures AllValid(pages + [out])
    ensures Staged(s, pages + [out], 0, 0) == Staged(s, pages, 0, 0) + Header(s, out.page, |pages|, 0) + out.body
  {
    assert (pages + [out])[..|pages|] == pages;
  }

  lemma CountsGrow(counts: seq<nat>, pages: seq<PageOut>, out: PageOut)
    requires CountsAt(counts, pages)
    ensures CountsAt(counts + [4 + EmittedBytes(pages) + TOTAL_PAGES], pages + [out])
  {
    var more := pages + [out];
    forall k | 0 <= k < |more|
      ensures (counts + [4 + EmittedBytes(pages) + TOTAL_PAGES])[k] == 4 + EmittedBytes(more[..k]) + TOTAL_PAGES
    {
      assert more[..k] == pages[..k];
      assert pages[..|pages|] == pages;
    }
  }

  /** Page count k lies 452 bytes into the header of page k. */
  ghost predicate CountsAt(counts: seq<nat>, pages: seq<PageOut>) {
    && |counts| == |pages|
    && forall k :: 0 <= k < |pages| ==> counts[k] == 4 + EmittedBytes(pages[..k]) + TOTAL_PAGES
  }

  // ---- the log of marked contents ----

  /** The log grew by nothing but copies of doc. */
  ghost predicate OnlyAdded(was: seq<seq<Byte>>, now: seq<seq<Byte>>, doc: seq<Byte>) {
    |was| <= |now| && now[..|was|] == was && forall i :: |was| <= i < |now| ==> now[i] == doc
  }

  /** The log grew by nothing but marked contents that have a prefix of bytes written at off. */
  ghost predicate OnlyPatched(was: seq<seq<Byte>>, now: seq<seq<Byte>>, content: seq<Byte>, off: nat, bytes: seq<Byte>) {
    && off + |bytes| <= |content| && |was| <= |now| && now[..|was|] == was
    && forall i :: |was| <= i < |now| ==> Marked(now[i]) && HasPrefix(now[i], content, off, bytes)
  }

  ghost predicate HasPrefix(s: seq<Byte>, content: seq<Byte>, off: nat, bytes: seq<Byte>)
    requires off + |bytes| <= |content|
  {
    exists n :: 0 <= n <= |bytes| && s == Patch(content, off, bytes[..n])
  }

  lemma OnlyPatchedSelf(was: seq<seq<Byte>>, content: seq<Byte>, off: nat, bytes: seq<Byte>)
    requires off + |bytes| <= |content|
    ensures OnlyPatched(was, was, content, off, bytes)
  {
  }

  lemma OnlyAddedSelf(was: seq<seq<Byte>>, doc: seq<Byte>)
    ensures OnlyAdded(was, was, doc)
  {
  }

  lemma StagedBlank(s: PageSettings, pages: seq<PageOut>, patched: nat, total: U32)
    requires AllValid(pages)
    ensures Blank(Staged(s, pages, patched, total)) && 4 <= |Staged(s, pages, patched, total)|
  {
    hide Body;
  }

  lemma CountOffset(counts: seq<nat>, pages: seq<PageOut>, k: nat)
    requires CountsAt(counts, pages) && k < |counts|
    ensures |counts| == |pages| && counts[k] == 4 + EmittedBytes(pages[..k]) + TOTAL_PAGES
  {
  }

  lemma PatchMore(content: seq<Byte>, off: nat, bytes: seq<Byte>, written: nat, taken: nat)
    requires off + |bytes| <= |content| && written + taken <= |bytes|
    ensures Written(Patch(content, off, bytes[..written]), off + written, bytes[written..][..taken])
         == Patch(content, off, bytes[..written + taken])
  {
    assert bytes[..written] + bytes[written..][..taken] == bytes[..written + taken];
  }

  lemma OnlyPatchedMore(was: seq<seq<Byte>>, log: seq<seq<Byte>>, now: seq<seq<Byte>>,
                        content: seq<Byte>, off: nat, bytes: seq<Byte>, n: nat)
    requires OnlyPatched(was, log, content, off, bytes) && n <= |bytes|
    requires var s := Patch(content, off, bytes[..n]); now == log + if Marked(s) then [s] else []
    ensures OnlyPatched(was, now, content, off, bytes)
  {
    hide Patch, Marked;
  }

  /** Overwriting behind the first four bytes marks nothing. */
  lemma NothingMarked(was: seq<seq<Byte>>, now: seq<seq<Byte>>, content: seq<Byte>, off: nat, bytes: seq<Byte>)
    requires OnlyPatched(was, now, content, off, bytes) && 4 <= off && Blank(content)
    ensures now == was
  {
    if |now| > |was| {
      var n :| 0 <= n <= |bytes| && now[|was|] == Patch(content, off, bytes[..n]);
      assert Blank(now[|was|]);
      BlankUnmarked(now[|was|]);
    }
  }

  lemma PartialMarker(content: seq<Byte>, n: nat)
    requires Blank(content) && n < 4 <= |content|
    ensures !Marked(Patch(content, 0, RAS2[..n]))
  {
    var s := Patch(content, 0, RAS2[..n]);
    assert s[..4][3] == s[3] == content[3];
  }

  /** Writing the marker over zeros marks nothing but the whole document. */
  lemma MarkedIsWhole(was: seq<seq<Byte>>, now: seq<seq<Byte>>, content: seq<Byte>, doc: seq<Byte>)
    requires OnlyPatched(was, now, content, 0, RAS2) && Blank(content) && doc == Patch(content, 0, RAS2)
    ensures OnlyAdded(was, now, doc)
  {
    forall i | |was| <= i < |now|
      ensures now[i] == doc
    {
      var n :| 0 <= n <= 4 && now[i] == Patch(content, 0, RAS2[..n]);
      if n < 4 {
        PartialMarker(content, n);
      }
      assert RAS2[..4] == RAS2;
    }
  }

  /** What can go wrong before the first page. */
  function BeginError(cfg: Config, inp: Input): Error {
    if cfg.limits.maxOutputBytes < 4 then Some(ResourceLimit)
    else if |inp.bytes| < URF_FILE_HEADER then Some(inp.Short())
    else if inp.bytes[..4] != UNIR && inp.bytes[..4] != RINU then Some(MalformedInput)
    else None
  }

  lemma TranslatedFrom(cfg: Config, data: seq<Byte>)
    requires cfg.Valid()
    ensures var inp := Limited(data, cfg.limits.maxInputBytes);
      var e := BeginError(cfg, inp);
      Translated(cfg, data) ==
        if e.Some? then NoPages(e.value)
        else
          var r := CopyPages(cfg, inp, URF_FILE_HEADER, [], 0);
          if r.Pages? && r.pages == [] then NoPages(MalformedInput) else r
  {
  }

  /** A source as it is translated. */
  function Taken(data: seq<Byte>, cut: bool): seq<Byte> {
    if cut && data != [] then data[..|data| - 1] else data
  }

  /**
   Translates one source into an empty destination.  Success means the destination holds the document
   of the whole source, rewound.  Whatever happens, a content that starts with the PWG marker was never
   anything but that document.  And without a fault the outcome, errors included, depends on the bytes of
   the source only, however reads and writes were split.  A source of one byte more than the limit may be
   cut: then all this holds of it without that byte.
   */
  method Translate(ctx: Context, source: Source, dst: Destination, opts: Options) returns (r: Outcome, ghost cut: bool)
    requires source.Valid() && source.pos == 0
    modifies ctx, source, dst
    ensures cut ==> Validate(opts).Some? && |source.data| == Validate(opts).value.limits.maxInputBytes + 1
    ensures r.Success? ==>
      && Finished(opts, Taken(source.data, cut), dst.content) && dst.pos == 0
      && r == Expected(opts, Taken(source.data, cut))
    ensures old(dst.marked) <= dst.marked
    ensures forall i :: old(|dst.marked|) <= i < |dst.marked| ==> Finished(opts, Taken(source.data, cut), dst.marked[i])
    ensures !ctx.canceled && !source.faulted && !dst.faulted && old(dst.content) == [] ==> r == Expected(opts, source.data)
    ensures old(dst.content) != [] ==> r.Failure? && dst.content == old(dst.content)
  {
    cut := false;
    var canceled := ctx.Err();
    if canceled {
      return Failure(Canceled), cut;
    }
    var checked := Validate(opts);
    if checked.None? {
      return Failure(InvalidOptions), cut;
    }
    var e := CheckEmpty(dst);
    if e.Some? {
      return Failure(e.value), cut;
    }
    var t := new Translator(ctx, source, dst, checked.value);
    e := t.Run();
    cut := t.src.cut;
    assert t.src.Taken() == Taken(source.data, cut);
    if e.Some? {
      return Failure(e.value), cut;
    }
    DocumentSize(checked.value.page, t.done);
    r := Success(Summary(t.src.count, t.outputBytes, t.pages));
  }

  /** The destination must be empty; every seek must land where it was asked to. */
  method CheckEmpty(dst: Destination) returns (e: Error)
    modifies dst`pos, dst`faulted
    ensures !dst.faulted ==> old(!dst.faulted)
    ensures e.None? ==> dst.content == [] && dst.pos == 0
    ensures !dst.faulted && dst.content == [] ==> e.None?
  {
    var pos, failed := dst.Seek(0, false);
    if failed || pos != 0 {
      return Some(DestinationIO);
    }
    pos, failed := dst.Seek(0, true);
    if failed || pos != 0 {
      return Some(DestinationIO);
    }
    pos, failed := dst.Seek(0, false);
    e := if failed || pos != 0 then Some(DestinationIO) else None;
  }

  lemma DocumentSize(s: PageSettings, pages: seq<PageOut>)
    requires AllValid(pages) && |pages| <= MAX_U32
    ensures |Document(s, pages)| == 4 + EmittedBytes(pages)
  {
    BodyLength(s, pages, |pages|, |pages|);
  }
}
