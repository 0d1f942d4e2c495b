/**
 What a translation means: a PWG reader finds in the output the pages an Apple raster reader
 finds in the source, pixel for pixel, and the byte counts add up.
 */
module UrfFidelity {
  import opened Basics
  import opened Bytes
  import opened RasterReaders
  import opened PwgHeader
  import opened UrfTranslation

  /** A packet's payload fits the scratch buffer, so it is copied in one piece. */
  lemma CopyBytesOnce(f: Flow, pos: nat, n: nat)
    requires 0 < n <= SCRATCH
    ensures CopyBytes(f, pos, n) == Copy(f, pos, n)
  {
    assert CopyBytes(f, pos + n, 0) == At(pos + n);
  }

  /**
   Copying a packet takes exactly the bytes the reader's packet takes, and what it leaves of the
   line is whole pixels again: the sub-pixel case of the copy loop never arises.
   */
  lemma CopyPacketExact(f: Flow, pos: nat, colour: Colour, px: nat)
    requires px > 0
    ensures var p := CopyPacket(f, pos, colour.Bytes(1), colour.Bytes(px));
      var q := ReadPacket(f.inp.bytes, pos, colour, px);
      && (p.PacketAt? <==> q.Packet? && q.end + f.shift <= f.maxOutput)
      && (p.PacketAt? ==> p.pos == q.end && p.remaining == colour.Bytes(px - q.count))
  {
    hide CopyBytes;
    if pos < |f.inp.bytes| && f.inp.bytes[pos] != 0x80 {
      CopyBytesOnce(f, pos + 1, PacketPayload(f.inp.bytes[pos], colour, px));
    }
  }

  /** A line is copied whole exactly when the reader can decode it and the output has room for it. */
  lemma {:induction false} CopyRowExact(f: Flow, pos: nat, colour: Colour, px: nat)
    ensures var r := CopyRow(f, pos, colour.Bytes(1), colour.Bytes(px));
      var d := DecodeLine(f.inp.bytes, pos, colour, px);
      && (r.At? <==> d.Decoded? && (px > 0 ==> d.end + f.shift <= f.maxOutput))
      && (r.At? ==> r.pos == d.end)
    decreases px
  {
    hide CopyPacket, ReadPacket;
    if px > 0 {
      CopyPacketExact(f, pos, colour, px);
      var q := ReadPacket(f.inp.bytes, pos, colour, px);
      if q.Packet? {
        CopyRowExact(f, q.end, colour, px - q.count);
      }
    }
  }

  /** So is a line with its repeat byte. */
  lemma CopyRowGroupExact(f: Flow, pos: nat, page: Page, rowsDone: nat)
    requires page.Valid() && rowsDone < page.height
    ensures var g := CopyRowGroup(f, pos, page);
      var q := ReadRowGroup(f.inp.bytes, pos, page.colour, page.width, page.height - rowsDone);
      && (g.At? <==> q.Packet? && q.end + f.shift <= f.maxOutput)
      && (g.At? ==> g.pos == q.end && RowsAfter(page, rowsDone, f.inp.bytes[pos] as int + 1) == rowsDone + q.count)
  {
    hide CopyRow, DecodeLine, Repeat;
    if pos < |f.inp.bytes| {
      CopyRowExact(f, pos + 1, page.colour, page.width);
    }
  }

  /** So is a page, from any row on. */
  lemma {:induction false} CopyRowsExact(f: Flow, pos: nat, page: Page, rowsDone: nat)
    requires page.Valid() && rowsDone <= page.height
    ensures var r := CopyRows(f, pos, page, rowsDone);
      var d := DecodeRows(f.inp.bytes, pos, page.colour, page.width, page.height - rowsDone);
      && (r.At? <==> d.Decoded? && (rowsDone < page.height ==> d.end + f.shift <= f.maxOutput))
      && (r.At? ==> r.pos == d.end)
    decreases page.height - rowsDone
  {
    hide CopyRowGroup, ReadRowGroup, RowsAfter;
    if rowsDone < page.height {
      CopyRowGroupExact(f, pos, page, rowsDone);
      var q := ReadRowGroup(f.inp.bytes, pos, page.colour, page.width, page.height - rowsDone);
      if q.Packet? {
        CopyRowsExact(f, q.end, page, rowsDone + q.count);
      }
    }
  }

  // ---- how a copy fails ----

  /** A failed copy ran out of source bytes, or out of room when it has as many as it needs. */
  ghost predicate FailsRightly(f: Flow, kind: Kind, decoded: bool) {
    && (kind == f.inp.Short() || kind == ResourceLimit)
    && (|f.inp.bytes| + f.shift <= f.maxOutput ==> kind == f.inp.Short())
    && (decoded ==> kind == ResourceLimit)
  }

  lemma CopyPacketKind(f: Flow, pos: nat, colour: Colour, px: nat)
    requires px > 0
    ensures CopyPacket(f, pos, colour.Bytes(1), colour.Bytes(px)).PacketStop? ==>
              FailsRightly(f, CopyPacket(f, pos, colour.Bytes(1), colour.Bytes(px)).kind, ReadPacket(f.inp.bytes, pos, colour, px).Packet?)
  {
    hide CopyBytes;
    if pos < |f.inp.bytes| && f.inp.bytes[pos] != 0x80 {
      CopyBytesOnce(f, pos + 1, PacketPayload(f.inp.bytes[pos], colour, px));
    }
  }

  lemma {:induction false} CopyRowKind(f: Flow, pos: nat, colour: Colour, px: nat)
    ensures CopyRow(f, pos, colour.Bytes(1), colour.Bytes(px)).Stop? ==>
              FailsRightly(f, CopyRow(f, pos, colour.Bytes(1), colour.Bytes(px)).kind, DecodeLine(f.inp.bytes, pos, colour, px).Decoded?)
    decreases px
  {
    hide CopyPacket, ReadPacket;
    if px > 0 {
      CopyPacketExact(f, pos, colour, px);
      CopyPacketKind(f, pos, colour, px);
      var q := ReadPacket(f.inp.bytes, pos, colour, px);
      if q.Packet? {
        CopyRowKind(f, q.end, colour, px - q.count);
      }
    }
  }

  lemma CopyRowGroupKind(f: Flow, pos: nat, page: Page, rowsDone: nat)
    requires page.Valid() && rowsDone < page.height
    ensures CopyRowGroup(f, pos, page).Stop? ==>
              FailsRightly(f, CopyRowGroup(f, pos, page).kind,
                           ReadRowGroup(f.inp.bytes, pos, page.colour, page.width, page.height - rowsDone).Packet?)
  {
    hide CopyRow, DecodeLine, Repeat;
    if pos < |f.inp.bytes| {
      CopyRowKind(f, pos + 1, page.colour, page.width);
    }
  }

  /** A page whose packets cannot be copied is short of bytes, unless the reader can decode it: then the output is too small. */
  lemma {:induction false} CopyRowsKind(f: Flow, pos: nat, page: Page, rowsDone: nat)
    requires page.Valid() && rowsDone <= page.height
    ensures CopyRows(f, pos, page, rowsDone).Stop? ==>
              FailsRightly(f, CopyRows(f, pos, page, rowsDone).kind,
                           DecodeRows(f.inp.bytes, pos, page.colour, page.width, page.height - rowsDone).Decoded?)
    decreases page.height - rowsDone
  {
    hide CopyRowGroup, ReadRowGroup, RowsAfter;
    if rowsDone < page.height {
      CopyRowGroupExact(f, pos, page, rowsDone);
      CopyRowGroupKind(f, pos, page, rowsDone);
      var q := ReadRowGroup(f.inp.bytes, pos, page.colour, page.width, page.height - rowsDone);
      if q.Packet? {
        CopyRowsKind(f, q.end, page, rowsDone + q.count);
      }
    }
  }

  // ---- one emitted page, and where it stands in the document ----

  /** The page's packets decode, and nothing is left over. */
  ghost predicate Decodable(p: PageOut) {
    p.page.Valid() &&
    var d := DecodeRows(p.body, 0, p.page.colour, p.page.width, p.page.height);
    d.Decoded? && d.end == |p.body|
  }

  ghost function RasterOf(s: PageSettings, p: PageOut): Raster
    requires Decodable(p)
  {
    Raster(p.page.colour, p.page.width, p.page.height, SetupOf(s),
           DecodeRows(p.body, 0, p.page.colour, p.page.width, p.page.height).pixels)
  }

  ghost predicate AllDecodable(pages: seq<PageOut>) {
    forall p <- pages :: Decodable(p)
  }

  ghost function Rasters(s: PageSettings, pages: seq<PageOut>): seq<Raster>
    requires AllDecodable(pages)
  {
    if pages == [] then [] else
      assert pages[0] in pages;
      [RasterOf(s, pages[0])] + Rasters(s, pages[1..])
  }

  /** The same rasters, each under a header that announces total pages. */
  ghost function Announced(rasters: seq<Raster>, total: nat): seq<PwgPage> {
    if rasters == [] then [] else [PwgPage(rasters[0], total)] + Announced(rasters[1..], total)
  }

  lemma {:induction false} AnnouncedAt(rasters: seq<Raster>, total: nat)
    ensures |Announced(rasters, total)| == |rasters|
    ensures forall i :: 0 <= i < |rasters| ==> Announced(rasters, total)[i] == PwgPage(rasters[i], total)
  {
    if rasters != [] {
      AnnouncedAt(rasters[1..], total);
    }
  }

  lemma AgreeInside(front: seq<Byte>, s: seq<Byte>, back: seq<Byte>)
    ensures Agree(s, 0, front + (s + back), |front|, |s|)
  {
    AgreeIsEqualSlices(s, 0, front + (s + back), |front|, |s|);
  }

  lemma AgreeExtends(s: seq<Byte>, t: seq<Byte>, j: nat, n: nat, front: seq<Byte>, back: seq<Byte>)
    requires Agree(s, 0, t, j, n)
    ensures Agree(s, 0, front + (t + back), |front| + j, n)
  {
    AgreeIsEqualSlices(s, 0, t, j, n);
    var whole := front + (t + back);
    assert whole[|front| + j..|front| + j + n] == t[j..j + n];
    AgreeIsEqualSlices(s, 0, whole, |front| + j, n);
  }

  /** Piece p stands in s at offset at. */
  ghost predicate Stands(p: seq<Byte>, s: seq<Byte>, at: nat) {
    Agree(p, 0, s, at, |p|)
  }

  lemma StandsAfter(p: seq<Byte>, front: seq<Byte>, back: seq<Byte>)
    ensures Stands(p, front + (p + back), |front|)
  {
    AgreeInside(front, p, back);
  }

  lemma StandsStill(p: seq<Byte>, s: seq<Byte>, at: nat, back: seq<Byte>)
    requires Stands(p, s, at)
    ensures Stands(p, s + back, at)
  {
    AgreeExtends(p, s, at, |p|, [], back);
    assert [] + (s + back) == s + back;
  }

  lemma LastPageInBody(front: seq<Byte>, header: seq<Byte>, packets: seq<Byte>)
    ensures Stands(header, front + (header + packets), |front|)
    ensures Stands(packets, front + (header + packets), |front| + |header|)
  {
    StandsAfter(header, front, packets);
    StandsAfter(packets, front + header, []);
    assert (front + header) + (packets + []) == front + (header + packets);
  }

  /** The page's header and packets, found in the emitted bytes at the page's own offset. */
  lemma {:induction false} PageInBody(s: PageSettings, pages: seq<PageOut>, patched: nat, total: U32, k: nat)
    requires AllValid(pages) && k < |pages| <= patched
    ensures pages[k] in pages
    ensures var at, body := EmittedBytes(pages[..k]), Body(s, pages, patched, total);
      && Stands(Header(s, pages[k].page, k, total), body, at)
      && Stands(pages[k].body, body, at + PWG_PAGE_HEADER)
  {
    hide Header, Stands;
    var n := |pages| - 1;
    assert pages[n] in pages && pages[k] in pages;
    var init, last := pages[..n], pages[n];
    var front, header := Body(s, init, patched, total), Header(s, last.page, n, total);
    BodyLength(s, init, patched, total);
    if k < n {
      PageInBody(s, init, patched, total, k);
      assert init[..k] == pages[..k];
      StandsStill(Header(s, pages[k].page, k, total), front, EmittedBytes(pages[..k]), header + last.body);
      StandsStill(pages[k].body, front, EmittedBytes(pages[..k]) + PWG_PAGE_HEADER, header + last.body);
    } else {
      LastPageInBody(front, header, last.body);
    }
  }

  // ---- the finished document ----

  lemma EmittedOneMore(pages: seq<PageOut>, k: nat)
    requires k < |pages|
    ensures EmittedBytes(pages[..k + 1]) == EmittedBytes(pages[..k]) + PWG_PAGE_HEADER + |pages[k].body|
  {
    assert pages[..k + 1][..k] == pages[..k];
  }

  /** At its own offset in the document, page k reads as itself, and page k + 1 follows. */
  lemma PageReads(s: PageSettings, pages: seq<PageOut>, k: nat)
    requires AllDecodable(pages) && k < |pages| <= MAX_U32
    ensures var doc, p, at := Document(s, pages), pages[k], 4 + EmittedBytes(pages[..k]);
      && at + PWG_PAGE_HEADER <= |doc|
      && Decodable(p)
      && ReadPwgHeader(doc, at) == Some(p.page.colour)
      && WordAt(doc, at + 372) == p.page.width && WordAt(doc, at + 376) == p.page.height
      && WordAt(doc, at + TOTAL_PAGES) == |pages|
      && DecodeRows(doc, at + PWG_PAGE_HEADER, p.page.colour, p.page.width, p.page.height)
         == Decoded(RasterOf(s, p).pixels, 4 + EmittedBytes(pages[..k + 1]))
      && PwgSetup(doc, at) == SetupOf(s)
  {
    hide Header, DecodeRows, ReadPwgHeader, PwgSetup, WordAt, Agree, EmittedBytes, Body;
    var total, doc, body := |pages|, Document(s, pages), Body(s, pages, |pages|, |pages|);
    PageInBody(s, pages, total, total, k);
    var at, p := 4 + EmittedBytes(pages[..k]), pages[k];
    AgreeExtends(Header(s, p.page, k, total), body, at - 4, PWG_PAGE_HEADER, RAS2, []);
    AgreeExtends(p.body, body, at - 4 + PWG_PAGE_HEADER, |p.body|, RAS2, []);
    assert RAS2 + (body + []) == doc;
    HeaderReads(s, p.page, k, total, doc, at);
    DecodeRowsElsewhere(p.body, 0, doc, at + PWG_PAGE_HEADER, |p.body|, p.page.colour, p.page.width, p.page.height);
    EmittedOneMore(pages, k);
  }

  /** From the offset of page k on, the document reads as pages k, k + 1, ... */
  lemma {:induction false} DocumentReads(s: PageSettings, pages: seq<PageOut>, k: nat)
    requires AllDecodable(pages) && k <= |pages| <= MAX_U32
    ensures ReadPwgPages(Document(s, pages), 4 + EmittedBytes(pages[..k])) == Some(Announced(Rasters(s, pages[k..]), |pages|))
    decreases |pages| - k
  {
    hide Document, DecodeRows, ReadPwgHeader, PwgSetup, WordAt, Decodable, EmittedBytes;
    if k == |pages| {
      AllDecodableValid(pages);
      DocumentLength(s, pages);
      assert pages[..k] == pages;
    } else {
      PageReads(s, pages, k);
      DocumentReads(s, pages, k + 1);
      assert pages[k..][0] == pages[k] && pages[k..][1..] == pages[k + 1..];
    }
  }

  lemma DocumentLength(s: PageSettings, pages: seq<PageOut>)
    requires AllValid(pages) && |pages| <= MAX_U32
    ensures |Document(s, pages)| == 4 + EmittedBytes(pages)
  {
    BodyLength(s, pages, |pages|, |pages|);
  }

  lemma WholeDocumentReads(s: PageSettings, pages: seq<PageOut>)
    requires AllDecodable(pages) && |pages| <= MAX_U32
    ensures AllValid(pages) && ReadPwg(Document(s, pages)) == Some(Announced(Rasters(s, pages), |pages|))
  {
    hide Body, ReadPwgPages;
    DocumentReads(s, pages, 0);
    assert pages[0..] == pages && Document(s, pages)[..4] == RAS2;
  }

  // ---- the source ----

  lemma CheckedPageReads(cfg: Config, bytes: seq<Byte>, pos: nat, logical: U64)
    requires cfg.Valid() && pos + URF_PAGE_HEADER <= |bytes|
    requires CheckPage(cfg, bytes[pos..pos + URF_PAGE_HEADER], logical).PageOk?
    ensures var page := CheckPage(cfg, bytes[pos..pos + URF_PAGE_HEADER], logical).page;
      && UrfColour(bytes[pos + 1], bytes[pos]) == Some(page.colour)
      && WordAt(bytes, pos + 12) == page.width
      && WordAt(bytes, pos + 16) == page.height
      && UrfSetup(bytes, pos) == SetupOf(cfg.page)
  {
    var raw := bytes[pos..pos + URF_PAGE_HEADER];
    assert raw[0] == bytes[pos] && raw[1] == bytes[pos + 1] && raw[2] == bytes[pos + 2];
    WordInSlice(bytes, pos, pos + URF_PAGE_HEADER, 12);
    WordInSlice(bytes, pos, pos + URF_PAGE_HEADER, 16);
    WordInSlice(bytes, pos, pos + URF_PAGE_HEADER, 20);
  }

  /** The packets of an accepted page decode on their own as they do in the source. */
  lemma CopiedPageDecodable(f: Flow, start: nat, page: Page)
    requires page.Valid()
    requires CopyRows(f, start, page, 0).At?
    ensures start <= CopyRows(f, start, page, 0).pos <= |f.inp.bytes|
    ensures var p := PageOut(page, f.inp.bytes[start..CopyRows(f, start, page, 0).pos]);
      && Decodable(p)
      && DecodeRows(f.inp.bytes, start, page.colour, page.width, page.height)
         == Decoded(DecodeRows(p.body, 0, page.colour, page.width, page.height).pixels, CopyRows(f, start, page, 0).pos)
  {
    hide CopyRows, DecodeRows;
    CopyRowsExact(f, start, page, 0);
    CopyRowsMoves(f, start, page);
    var end := CopyRows(f, start, page, 0).pos;
    var body := f.inp.bytes[start..end];
    AgreeIsEqualSlices(f.inp.bytes, start, body, 0, end - start);
    assert body[0..end - start] == body;
    DecodeRowsElsewhere(f.inp.bytes, start, body, 0, end - start, page.colour, page.width, page.height);
  }

  lemma CopyRowsMoves(f: Flow, start: nat, page: Page)
    requires page.Valid() && CopyRows(f, start, page, 0).At?
    ensures start <= CopyRows(f, start, page, 0).pos <= |f.inp.bytes|
  {
  }

  /** The page just emitted is the next one the reader sees. */
  lemma CopiedPageReads(cfg: Config, inp: Input, pos: nat, done: seq<PageOut>, logical: U64)
    requires cfg.Valid() && pos + URF_PAGE_HEADER <= |inp.bytes|
    requires CopyPage(cfg, inp, pos, done, logical).OnePage?
    ensures var p := CopyPage(cfg, inp, pos, done, logical);
      && Decodable(p.out)
      && ReadUrfPages(inp.bytes, pos) == (
           var rest := ReadUrfPages(inp.bytes, p.end);
           if rest.None? then None else Some([RasterOf(cfg.page, p.out)] + rest.value))
  {
    hide CheckPage, CopyRows, DecodeRows, Decodable, WordAt, UrfColour, UrfSetup;
    var start := pos + URF_PAGE_HEADER;
    CheckedPageReads(cfg, inp.bytes, pos, logical);
    var check := CheckPage(cfg, inp.bytes[pos..start], logical);
    CopiedPageDecodable(Flow(inp, cfg.limits.maxOutputBytes, 4 + EmittedBytes(done) + PWG_PAGE_HEADER - start), start, check.page);
  }

  /** What the page loop emits is what the reader sees from the same position on. */
  lemma {:induction false} CopyPagesFaithful(cfg: Config, inp: Input, pos: nat, done: seq<PageOut>, logical: U64)
    requires cfg.Valid() && pos <= |inp.bytes| && |done| <= cfg.limits.maxPages
    requires CopyPages(cfg, inp, pos, done, logical).Pages?
    ensures !inp.over
    ensures var pages := CopyPages(cfg, inp, pos, done, logical).pages;
      && done <= pages
      && AllDecodable(pages[|done|..])
      && ReadUrfPages(inp.bytes, pos) == Some(Rasters(cfg.page, pages[|done|..]))
    decreases |inp.bytes| - pos
  {
    hide CopyPage, Decodable;
    var pages := CopyPages(cfg, inp, pos, done, logical).pages;
    if pos + URF_PAGE_HEADER <= |inp.bytes| {
      hide ReadUrfPages;
      CopiedPageReads(cfg, inp, pos, done, logical);
      var p := CopyPage(cfg, inp, pos, done, logical);
      CopyPageCounts(cfg, inp, pos, done, logical);
      CopyPagesFaithful(cfg, inp, p.end, done + [p.out], p.logical);
      var n := |done|;
      assert pages[n] == p.out && pages[n..] == [p.out] + pages[n + 1..];
    } else {
      assert pages[|done|..] == [];
    }
  }

  lemma CopyPageCounts(cfg: Config, inp: Input, pos: nat, done: seq<PageOut>, logical: U64)
    requires cfg.Valid() && pos + URF_PAGE_HEADER <= |inp.bytes|
    requires CopyPage(cfg, inp, pos, done, logical).OnePage?
    ensures |done| < cfg.limits.maxPages
  {
  }

  /**
   Fidelity.  When a translation succeeds, the PWG reader accepts its output and finds there, page
   by page and pixel by pixel, what the Apple raster reader finds in the whole source, with the same
   resolution and duplex setup; and every page header announces the number of pages there are.
   */
  lemma Fidelity(cfg: Config, data: seq<Byte>)
    requires cfg.Valid() && Translated(cfg, data).Pages?
    ensures AllValid(Translated(cfg, data).pages)
    ensures var rasters, pwg := ReadUrf(data), ReadPwg(Document(cfg.page, Translated(cfg, data).pages));
      && rasters.Some? && pwg.Some?
      && |pwg.value| == |rasters.value| == |Translated(cfg, data).pages| > 0
      && forall i :: 0 <= i < |rasters.value| ==> pwg.value[i] == PwgPage(rasters.value[i], |rasters.value|)
  {
    hide Document, Decodable, Translated, ReadUrf, ReadPwg;
    var pages := Translated(cfg, data).pages;
    SourceReads(cfg, data);
    WholeDocumentReads(cfg.page, pages);
    RastersLength(cfg.page, pages);
    AnnouncedAt(Rasters(cfg.page, pages), |pages|);
  }

  lemma SourceReads(cfg: Config, data: seq<Byte>)
    requires cfg.Valid() && Translated(cfg, data).Pages?
    ensures AllDecodable(Translated(cfg, data).pages)
    ensures 0 < |Translated(cfg, data).pages| <= MAX_U32
    ensures ReadUrf(data) == Some(Rasters(cfg.page, Translated(cfg, data).pages))
  {
    hide Decodable, ReadUrfPages, CopyPages, Rasters;
    CopyPagesFaithful(cfg, Limited(data, cfg.limits.maxInputBytes), URF_FILE_HEADER, [], 0);
    var pages := Translated(cfg, data).pages;
    assert Limited(data, cfg.limits.maxInputBytes).bytes == data && pages[0..] == pages;
  }

  /**
   The same for whatever a destination is shown to hold when a translation finishes: the two readers
   agree on source and destination, and the destination's size follows from the source's.
   */
  lemma FinishedReadsAlike(opts: Options, data: seq<Byte>, content: seq<Byte>)
    requires Finished(opts, data, content)
    ensures var rasters, pwg, r := ReadUrf(data), ReadPwg(content), Expected(opts, data);
      && rasters.Some? && pwg.Some? && r.Success?
      && |pwg.value| == |rasters.value| == r.result.pages > 0
      && (forall i :: 0 <= i < |rasters.value| ==> pwg.value[i] == PwgPage(rasters.value[i], |rasters.value|))
      && r.result.inputBytes == |data| && r.result.outputBytes == |content|
      && 0 <= (|data| - URF_FILE_HEADER - URF_PAGE_HEADER * r.result.pages)
              - (|content| - 4 - PWG_PAGE_HEADER * r.result.pages) < URF_PAGE_HEADER
  {
    hide Document, Translated, ReadUrf, ReadPwg;
    var cfg := Validate(opts).value;
    Fidelity(cfg, data);
    ByteCounts(cfg, data);
    SourceReads(cfg, data);
    DocumentLength(cfg.page, Translated(cfg, data).pages);
  }

  /** An option of zero asks for the default. */
  function LimitOr(n: int, standard: int): int {
    if n == 0 then standard else n
  }

  /** A page as the options allow it. */
  ghost predicate WithinOptions(opts: Options, r: Raster) {
    && r.colour == (if opts.mapping == 1 then Gray else if opts.mapping == 2 then SRGB else DeviceRGB)
    && 0 < r.width <= LimitOr(opts.limits.maxWidth, 0x10_0000)
    && 0 < r.height <= LimitOr(opts.limits.maxHeight, 0x10_0000)
    && r.colour.Bytes(r.width) <= LimitOr(opts.limits.maxRowBytes, 0x100_0000)
    && r.setup == Setup(opts.page.resolutionX, opts.page.resolutionY, opts.page.sides != "" && opts.page.sides != "one-sided",
                        opts.page.sides == "two-sided-short-edge")
    && (var w, h := opts.page.mediaWidth * opts.page.resolutionX / 2540, opts.page.mediaHeight * opts.page.resolutionX / 2540;
        (r.width == w && r.height == h) || (r.width == h && r.height == w))
  }

  /** Every limit and setting of the options binds what is translated, and zero asks for the default. */
  lemma OptionsBind(opts: Options, data: seq<Byte>, content: seq<Byte>)
    requires Finished(opts, data, content)
    ensures 1 <= opts.mapping <= 3 && opts.page.resolutionX == opts.page.resolutionY
    ensures |data| <= LimitOr(opts.limits.maxInputBytes, 0x4000_0000)
    ensures |content| <= LimitOr(opts.limits.maxOutputBytes, 0x4000_0000)
    ensures ReadUrf(data).Some? && |ReadUrf(data).value| <= LimitOr(opts.limits.maxPages, 1024)
    ensures forall i :: 0 <= i < |ReadUrf(data).value| ==> WithinOptions(opts, ReadUrf(data).value[i])
    ensures DecodedSize(ReadUrf(data).value) <= LimitOr(opts.limits.maxDecodedBytes, 0x100_0000_0000)
  {
    hide Document, Translated, ReadUrf, WithinOptions;
    var cfg := Validate(opts).value;
    var pages := Translated(cfg, data).pages;
    SourceReads(cfg, data);
    RastersLength(cfg.page, pages);
    TranslatedFits(cfg, data);
    DocumentLength(cfg.page, pages);
    ValidatedOptions(opts);
    RastersWithin(opts, cfg, pages);
    ByteCounts(cfg, data);
    SizeOfRasters(cfg.page, pages);
  }

  /** Options that are accepted. */
  predicate AcceptableOptions(o: Options) {
    && 1 <= o.mapping <= 3 && o.limits.maxInputBytes >= 0 && o.limits.maxOutputBytes >= 0
    && |o.page.mediaName| <= 63 && 0 !in o.page.mediaName && |o.page.mediaType| <= 63 && 0 !in o.page.mediaType
    && o.page.mediaWidth > 0 && o.page.mediaHeight > 0 && o.page.resolutionX == o.page.resolutionY > 0
    && o.page.sides in {"", "one-sided", "two-sided-long-edge", "two-sided-short-edge"}
    && o.page.sheetBack in {"", "normal", "flipped", "manual-tumble", "rotated"}
    && o.page.printQuality in {0, 3, 4, 5}
  }

  /** A call is refused for its options exactly if one of them is not acceptable. */
  lemma OptionsExactly(o: Options)
    ensures Validate(o).Some? <==> AcceptableOptions(o)
  {
  }

  lemma ValidatedOptions(opts: Options)
    requires Validate(opts).Some?
    ensures var cfg := Validate(opts).value;
      && 1 <= opts.mapping <= 3 && cfg.colour == (if opts.mapping == 1 then Gray else if opts.mapping == 2 then SRGB else DeviceRGB)
      && cfg.limits.maxInputBytes == LimitOr(opts.limits.maxInputBytes, 0x4000_0000)
      && cfg.limits.maxOutputBytes == LimitOr(opts.limits.maxOutputBytes, 0x4000_0000)
      && cfg.limits.maxPages == LimitOr(opts.limits.maxPages, 1024)
      && cfg.limits.maxWidth == LimitOr(opts.limits.maxWidth, 0x10_0000)
      && cfg.limits.maxHeight == LimitOr(opts.limits.maxHeight, 0x10_0000)
      && cfg.limits.maxRowBytes == LimitOr(opts.limits.maxRowBytes, 0x100_0000)
      && cfg.limits.maxDecodedBytes == LimitOr(opts.limits.maxDecodedBytes, 0x100_0000_0000)
      && cfg.page == opts.page.(sides := if opts.page.sides == "" then "one-sided" else opts.page.sides,
                                sheetBack := if opts.page.sheetBack == "" then "normal" else opts.page.sheetBack)
  {
  }

  /** A page as the page check lets it through. */
  ghost predicate PageFits(cfg: Config, page: Page) {
    && page.colour == cfg.colour && 0 < page.width <= cfg.limits.maxWidth && 0 < page.height <= cfg.limits.maxHeight
    && page.RowBytes() <= cfg.limits.maxRowBytes
    && (var w, h := cfg.page.mediaWidth * cfg.page.resolutionX / 2540, cfg.page.mediaHeight * cfg.page.resolutionX / 2540;
        (page.width == w && page.height == h) || (page.width == h && page.height == w))
  }

  lemma CheckedFits(cfg: Config, raw: seq<Byte>, logical: U64)
    requires cfg.Valid() && |raw| == URF_PAGE_HEADER && CheckPage(cfg, raw, logical).PageOk?
    ensures PageFits(cfg, CheckPage(cfg, raw, logical).page)
  {
    CheckPageExactly(cfg, raw, logical);
    hide CheckPage, WordAt;
  }

  lemma {:induction false} CopyPagesFit(cfg: Config, inp: Input, pos: nat, done: seq<PageOut>, logical: U64)
    requires cfg.Valid() && pos <= |inp.bytes| && |done| <= cfg.limits.maxPages
    requires 4 + EmittedBytes(done) <= cfg.limits.maxOutputBytes && forall p <- done :: PageFits(cfg, p.page)
    ensures CopyPages(cfg, inp, pos, done, logical).Pages? ==>
              var pages := CopyPages(cfg, inp, pos, done, logical).pages;
              4 + EmittedBytes(pages) <= cfg.limits.maxOutputBytes && forall p <- pages :: PageFits(cfg, p.page)
    decreases |inp.bytes| - pos
  {
    hide CopyPage, PageFits, EmittedBytes;
    if pos + URF_PAGE_HEADER <= |inp.bytes| && CopyPages(cfg, inp, pos, done, logical).Pages? {
      CopyPageCounts(cfg, inp, pos, done, logical);
      CopyPageFits(cfg, inp, pos, done, logical);
      var p := CopyPage(cfg, inp, pos, done, logical);
      CopyPagesFit(cfg, inp, p.end, done + [p.out], p.logical);
    }
  }

  lemma CopyPageFits(cfg: Config, inp: Input, pos: nat, done: seq<PageOut>, logical: U64)
    requires cfg.Valid() && pos + URF_PAGE_HEADER <= |inp.bytes|
    requires CopyPage(cfg, inp, pos, done, logical).OnePage?
    ensures var p := CopyPage(cfg, inp, pos, done, logical);
      && PageFits(cfg, p.out.page)
      && 4 + EmittedBytes(done + [p.out]) <= cfg.limits.maxOutputBytes
  {
    hide CheckPage, CopyRows, PageFits, EmittedBytes, DecodeRows;
    var start := pos + URF_PAGE_HEADER;
    CheckedFits(cfg, inp.bytes[pos..start], logical);
    var page := CheckPage(cfg, inp.bytes[pos..start], logical).page;
    var f := Flow(inp, cfg.limits.maxOutputBytes, 4 + EmittedBytes(done) + PWG_PAGE_HEADER - start);
    CopyRowsExact(f, start, page, 0);
    CopyRowsMoves(f, start, page);
    var p := CopyPage(cfg, inp, pos, done, logical).out;
    EmittedOneMore(done + [p], |done|);
    assert (done + [p])[..|done|] == done && (done + [p])[..|done| + 1] == done + [p];
  }

  lemma TranslatedFits(cfg: Config, data: seq<Byte>)
    requires cfg.Valid() && Translated(cfg, data).Pages?
    ensures |data| <= cfg.limits.maxInputBytes
    ensures var pages := Translated(cfg, data).pages;
      4 + EmittedBytes(pages) <= cfg.limits.maxOutputBytes && forall p <- pages :: PageFits(cfg, p.page)
  {
    hide CopyPages, PageFits;
    var inp := Limited(data, cfg.limits.maxInputBytes);
    CopyPagesFaithful(cfg, inp, URF_FILE_HEADER, [], 0);
    CopyPagesFit(cfg, inp, URF_FILE_HEADER, [], 0);
  }

  lemma {:induction false} RastersWithin(opts: Options, cfg: Config, pages: seq<PageOut>)
    requires AllDecodable(pages) && Validate(opts) == Some(cfg) && forall p <- pages :: PageFits(cfg, p.page)
    ensures |Rasters(cfg.page, pages)| == |pages|
    ensures forall i :: 0 <= i < |pages| ==> WithinOptions(opts, Rasters(cfg.page, pages)[i])
    decreases |pages|
  {
    hide Decodable, Validate, WithinOptions, PageFits;
    if pages != [] {
      assert pages[0] in pages;
      RasterWithin(opts, cfg, pages[0]);
      RastersWithin(opts, cfg, pages[1..]);
    }
  }

  lemma RasterWithin(opts: Options, cfg: Config, p: PageOut)
    requires Decodable(p) && Validate(opts) == Some(cfg) && PageFits(cfg, p.page)
    ensures WithinOptions(opts, RasterOf(cfg.page, p))
  {
    ValidatedOptions(opts);
    hide Validate, DecodeRows;
  }

  /** The bytes of all decoded pages. */
  function DecodedSize(rasters: seq<Raster>): nat {
    if rasters == [] then 0
    else DecodedSize(rasters[..|rasters| - 1]) + rasters[|rasters| - 1].colour.Bytes(rasters[|rasters| - 1].width) * rasters[|rasters| - 1].height
  }

  lemma {:induction false} RastersAppend(s: PageSettings, pages: seq<PageOut>, p: PageOut)
    requires AllDecodable(pages + [p])
    ensures AllDecodable(pages) && Decodable(p) && Rasters(s, pages + [p]) == Rasters(s, pages) + [RasterOf(s, p)]
    decreases |pages|
  {
    hide Decodable;
    var more := pages + [p];
    assert more[|pages|] == p && p in more;
    forall q | q in pages
      ensures Decodable(q)
    {
      assert q in more;
    }
    if pages == [] {
      assert more[1..] == [];
    } else {
      assert more[1..] == pages[1..] + [p] && more[0] == pages[0];
      RastersAppend(s, pages[1..], p);
    }
  }

  lemma {:induction false} SizeOfRasters(s: PageSettings, pages: seq<PageOut>)
    requires AllDecodable(pages)
    ensures DecodedSize(Rasters(s, pages)) == DecodedBytes(pages)
    decreases |pages|
  {
    hide Decodable;
    if pages != [] {
      var n := |pages| - 1;
      assert pages == pages[..n] + [pages[n]];
      RastersAppend(s, pages[..n], pages[n]);
      SizeOfRasters(s, pages[..n]);
      var rasters := Rasters(s, pages);
      assert rasters[..|rasters| - 1] == Rasters(s, pages[..n]);
    }
  }

  lemma AllDecodableValid(pages: seq<PageOut>)
    requires AllDecodable(pages)
    ensures AllValid(pages)
  {
  }

  lemma {:induction false} RastersLength(s: PageSettings, pages: seq<PageOut>)
    requires AllDecodable(pages)
    ensures |Rasters(s, pages)| == |pages|
  {
    if pages != [] {
      assert pages[0] in pages;
      RastersLength(s, pages[1..]);
    }
  }

  // ---- when a translation succeeds ----

  /** The reader can decode every page from pos on, each passes its checks, and the output has room. */
  ghost predicate PagesAcceptable(cfg: Config, s: seq<Byte>, pos: nat, count: nat, emitted: nat, logical: U64)
    requires cfg.Valid()
    decreases |s| - pos
  {
    if pos + URF_PAGE_HEADER > |s| then count > 0
    else
      var start := pos + URF_PAGE_HEADER;
      var check := CheckPage(cfg, s[pos..start], logical);
      && count < cfg.limits.maxPages
      && check.PageOk?
      && var d := DecodeRows(s, start, check.page.colour, check.page.width, check.page.height);
      && d.Decoded?
      && var after := emitted + PWG_PAGE_HEADER + (d.end - start);
      && after <= cfg.limits.maxOutputBytes
      && PagesAcceptable(cfg, s, d.end, count + 1, after, check.logical)
  }

  ghost predicate Acceptable(cfg: Config, data: seq<Byte>)
    requires cfg.Valid()
  {
    && URF_FILE_HEADER <= |data| <= cfg.limits.maxInputBytes
    && (data[..4] == UNIR || data[..4] == RINU)
    && 4 <= cfg.limits.maxOutputBytes
    && PagesAcceptable(cfg, data, URF_FILE_HEADER, 0, 4, 0)
  }

  lemma {:induction false} CopyPagesExact(cfg: Config, s: seq<Byte>, pos: nat, done: seq<PageOut>, logical: U64)
    requires cfg.Valid() && pos <= |s| && |done| <= cfg.limits.maxPages
    ensures var r := CopyPages(cfg, Input(s, false), pos, done, logical);
      r.Pages? && r.pages != [] <==> PagesAcceptable(cfg, s, pos, |done|, 4 + EmittedBytes(done), logical)
    decreases |s| - pos
  {
    hide CheckPage, CopyRows, DecodeRows, EmittedBytes;
    if pos + URF_PAGE_HEADER <= |s| && |done| < cfg.limits.maxPages {
      var start, inp := pos + URF_PAGE_HEADER, Input(s, false);
      var check := CheckPage(cfg, s[pos..start], logical);
      if check.PageOk? {
        var f := Flow(inp, cfg.limits.maxOutputBytes, 4 + EmittedBytes(done) + PWG_PAGE_HEADER - start);
        CopyRowsExact(f, start, check.page, 0);
        var r := CopyRows(f, start, check.page, 0);
        if r.At? {
          CopyRowsMoves(f, start, check.page);
          var p := PageOut(check.page, s[start..r.pos]);
          EmittedOneMore(done + [p], |done|);
          assert (done + [p])[..|done|] == done && (done + [p])[..|done| + 1] == done + [p];
          CopyPagesExact(cfg, s, r.pos, done + [p], check.logical);
        }
      }
    }
  }

  /** A translation succeeds exactly on the sources a reader accepts within the limits. */
  lemma TranslatedExactly(cfg: Config, data: seq<Byte>)
    requires cfg.Valid()
    ensures Translated(cfg, data).Pages? <==> Acceptable(cfg, data)
  {
    hide CopyPages, PagesAcceptable;
    var inp := Limited(data, cfg.limits.maxInputBytes);
    if |inp.bytes| >= URF_FILE_HEADER {
      if inp.over {
        if CopyPages(cfg, inp, URF_FILE_HEADER, [], 0).Pages? {
          CopyPagesFaithful(cfg, inp, URF_FILE_HEADER, [], 0);
        }
      } else {
        CopyPagesExact(cfg, data, URF_FILE_HEADER, [], 0);
      }
    }
  }

  /** Why a page is not emitted: first too many pages, then what its header is refused for, */
  lemma HeaderKind(cfg: Config, inp: Input, pos: nat, done: seq<PageOut>, logical: U64)
    requires cfg.Valid() && pos + URF_PAGE_HEADER <= |inp.bytes|
    requires |done| >= cfg.limits.maxPages || CheckPage(cfg, inp.bytes[pos..pos + 32], logical).PageBad?
    ensures CopyPage(cfg, inp, pos, done, logical)
         == NoPage(if |done| >= cfg.limits.maxPages then ResourceLimit else CheckPage(cfg, inp.bytes[pos..pos + 32], logical).kind)
  {
    hide CheckPage, CopyRows, EmittedBytes;
  }

  /** and then no room for the new header, or what its packets lack. */
  lemma PageKind(cfg: Config, inp: Input, pos: nat, done: seq<PageOut>, logical: U64)
    requires cfg.Valid() && pos + URF_PAGE_HEADER <= |inp.bytes|
    requires |done| < cfg.limits.maxPages && CheckPage(cfg, inp.bytes[pos..pos + 32], logical).PageOk?
    ensures var r, page := CopyPage(cfg, inp, pos, done, logical), CheckPage(cfg, inp.bytes[pos..pos + 32], logical).page;
      r.NoPage? ==> PacketsLack(inp, pos + 32, page, cfg.limits.maxOutputBytes - 4 - EmittedBytes(done) - 1796, r.kind)
  {
    hide CheckPage, CopyRows, DecodeRows, EmittedBytes, FailsRightly, PacketsLack, Config.Valid, Page.Valid;
    var start := pos + URF_PAGE_HEADER;
    var page, offset := CheckPage(cfg, inp.bytes[pos..start], logical).page, 4 + EmittedBytes(done) + PWG_PAGE_HEADER;
    if offset > cfg.limits.maxOutputBytes {
      NoRoom(inp, start, page, cfg.limits.maxOutputBytes - offset);
    } else {
      var f := Flow(inp, cfg.limits.maxOutputBytes, offset - start);
      CopyRowsKind(f, start, page, 0);
      if CopyRows(f, start, page, 0).Stop? {
        LackRightly(f, start, page, CopyRows(f, start, page, 0).kind);
      }
    }
  }

  lemma NoRoom(inp: Input, start: nat, page: Page, room: int)
    requires room < 0
    ensures PacketsLack(inp, start, page, room, ResourceLimit)
  {
  }

  lemma LackRightly(f: Flow, start: nat, page: Page, kind: Kind)
    requires FailsRightly(f, kind, DecodeRows(f.inp.bytes, start, page.colour, page.width, page.height).Decoded?)
    requires f.maxOutput - f.shift - start >= 0
    ensures PacketsLack(f.inp, start, page, f.maxOutput - f.shift - start, kind)
  {
    hide DecodeRows;
  }

  /** There is no room even for the header, or the packets lack room or bytes: room if the reader can decode them, bytes if all that are left would fit. */
  ghost predicate PacketsLack(inp: Input, start: nat, page: Page, room: int, kind: Kind) {
    if room < 0 then kind == ResourceLimit
    else
      && (DecodeRows(inp.bytes, start, page.colour, page.width, page.height).Decoded? ==> kind == ResourceLimit)
      && (kind == ResourceLimit || (kind == MalformedInput && !inp.over))
      && (|inp.bytes| - start <= room && !inp.over ==> kind == MalformedInput)
  }

  /** Why nothing at all is emitted: no room for the marker, a short or foreign file header, or no page. */
  lemma FileKinds(cfg: Config, data: seq<Byte>)
    requires cfg.Valid()
    ensures cfg.limits.maxOutputBytes < 4 ==> Translated(cfg, data) == NoPages(ResourceLimit)
    ensures cfg.limits.maxOutputBytes >= 4 ==>
      && (|data| < 12 && |data| <= cfg.limits.maxInputBytes ==> Translated(cfg, data) == NoPages(MalformedInput))
      && (cfg.limits.maxInputBytes < 12 && cfg.limits.maxInputBytes < |data| ==> Translated(cfg, data) == NoPages(ResourceLimit))
      && (12 <= |data| && 12 <= cfg.limits.maxInputBytes && data[..4] != UNIR && data[..4] != RINU ==>
            Translated(cfg, data) == NoPages(MalformedInput))
      && (12 <= |data| < 44 && |data| <= cfg.limits.maxInputBytes ==> Translated(cfg, data) == NoPages(MalformedInput))
  {
    hide CopyPage;
    var inp := Limited(data, cfg.limits.maxInputBytes);
    if |inp.bytes| >= 4 {
      assert inp.bytes[..4] == data[..4];
    }
  }

  /** Below the limit, the limit does not matter; one byte over, nothing is accepted. */
  lemma InputLimit(cfg: Config, data: seq<Byte>, limit: I64)
    requires cfg.Valid() && 0 < limit
    ensures |data| <= cfg.limits.maxInputBytes && |data| <= limit ==>
      Translated(cfg, data) == Translated(cfg.(limits := cfg.limits.(maxInputBytes := limit)), data)
    ensures |data| > cfg.limits.maxInputBytes ==> Translated(cfg, data).NoPages?
  {
    hide PagesAcceptable, CopyPages;
    TranslatedExactly(cfg, data);
    if |data| >= URF_FILE_HEADER {
      LimitUnread(cfg, Input(data, false), URF_FILE_HEADER, [], 0, limit);
    }
  }

  /**
   What a cut source gets: one byte beyond the limit, a source must be refused, yet it is translated
   as if that byte were not there.
   */
  lemma CutIsTranslated(cfg: Config, data: seq<Byte>)
    requires cfg.Valid() && |data| == cfg.limits.maxInputBytes + 1
    ensures Translated(cfg, data).NoPages?
    ensures Translated(cfg, data[..|data| - 1]).Pages? <==> Acceptable(cfg, data[..|data| - 1])
  {
    hide Acceptable;
    InputLimit(cfg, data, cfg.limits.maxInputBytes);
    TranslatedExactly(cfg, data[..|data| - 1]);
  }

  // A source of one page of one gray pixel, under a limit of exactly its size.

  const TINY_HEADER: seq<Byte> :=
    [8, 0, 0, 0, 0, 0, 0, 0, 0, 0, 0, 0, 0, 0, 0, 1, 0, 0, 0, 1, 0, 0, 0, 1, 0, 0, 0, 0, 0, 0, 0, 0]
  const TINY_START: seq<Byte> := UNIR + [0, 0, 0, 0, 0, 0, 0, 0]
  const TINY: seq<Byte> := TINY_START + TINY_HEADER + [0, 0, 7]
  const TINY_CONFIG: Config :=
    Config(Gray, PageSettings([], 2540, 2540, [], 0, 1, 1, 0, "one-sided", "normal", 0, 0), Limits(47, 0x1000, 1, 1, 1, 1, 1))

  lemma TinyHeaderPasses()
    ensures TINY_CONFIG.Valid() && CheckPage(TINY_CONFIG, TINY_HEADER, 0) == PageOk(Page(Gray, 1, 1, false), 1)
  {
    var raw := TINY_HEADER;
    assert WordAt(raw, 12) == 1 && WordAt(raw, 16) == 1 && WordAt(raw, 20) == 1;
    hide WordAt, MediaPixels, CheckedMul;
    MediaPixelsExactly(2540, 2540, 1);
    CheckPageExactly(TINY_CONFIG, raw, 0);
  }

  lemma TinyDecodes()
    ensures |TINY| == 47 && TINY[..4] == UNIR && TINY[12..44] == TINY_HEADER
    ensures DecodeRows(TINY, 44, Gray, 1, 1).Decoded? && DecodeRows(TINY, 44, Gray, 1, 1).end == 47
  {
    assert TINY[44] == 0 && TINY[45] == 0;
    var p := ReadPacket(TINY, 45, Gray, 1);
    assert p.Packet? && p.end == 47 && p.count == 1;
    assert DecodeLine(TINY, 47, Gray, 0) == Decoded([], 47);
    var g := ReadRowGroup(TINY, 44, Gray, 1, 1);
    assert g.Packet? && g.end == 47 && g.count == 1;
    assert DecodeRows(TINY, 47, Gray, 1, 0) == Decoded([], 47);
  }

  /** Such a source exists: with any further byte it must be refused, without it it is translated. */
  lemma TinyIsCut(more: Byte)
    ensures TINY_CONFIG.Valid() && Acceptable(TINY_CONFIG, TINY)
    ensures var data := TINY + [more];
      && |data| == TINY_CONFIG.limits.maxInputBytes + 1
      && Translated(TINY_CONFIG, data).NoPages? && Translated(TINY_CONFIG, data[..|data| - 1]).Pages?
  {
    hide CheckPage, DecodeRows, WordAt;
    TinyHeaderPasses();
    TinyDecodes();
    assert PagesAcceptable(TINY_CONFIG, TINY, 47, 1, 4 + PWG_PAGE_HEADER + 3, 1);
    hide Translated;
    var data := TINY + [more];
    assert data[..|data| - 1] == TINY;
    CutIsTranslated(TINY_CONFIG, data);
  }

  lemma CheckLimitUnread(cfg: Config, raw: seq<Byte>, logical: U64, limit: I64)
    requires cfg.Valid() && 0 < limit && |raw| == URF_PAGE_HEADER
    ensures CheckPage(cfg, raw, logical)
         == CheckPage(cfg.(limits := cfg.limits.(maxInputBytes := limit)), raw, logical)
  {
    hide MediaPixels, CheckedMul, WordAt;
  }

  lemma {:induction false} LimitUnread(cfg: Config, inp: Input, pos: nat, done: seq<PageOut>, logical: U64, limit: I64)
    requires cfg.Valid() && 0 < limit && |done| <= cfg.limits.maxPages
    requires pos <= |inp.bytes|
    ensures CopyPages(cfg, inp, pos, done, logical)
         == CopyPages(cfg.(limits := cfg.limits.(maxInputBytes := limit)), inp, pos, done, logical)
    decreases |inp.bytes| - pos
  {
    hide CheckPage, CopyRows, EmittedBytes;
    if pos + URF_PAGE_HEADER <= |inp.bytes| && |done| < cfg.limits.maxPages {
      var start := pos + URF_PAGE_HEADER;
      CheckLimitUnread(cfg, inp.bytes[pos..start], logical, limit);
      var check := CheckPage(cfg, inp.bytes[pos..start], logical);
      var f := Flow(inp, cfg.limits.maxOutputBytes, 4 + EmittedBytes(done) + PWG_PAGE_HEADER - start);
      if check.PageOk? && CopyRows(f, start, check.page, 0).At? {
        CopyRowsMoves(f, start, check.page);
        var end := CopyRows(f, start, check.page, 0).pos;
        LimitUnread(cfg, inp, end, done + [PageOut(check.page, inp.bytes[start..end])], check.logical, limit);
      }
    }
  }

  // ---- byte counts ----

  /** The decoded size of the pages, which the decoded-bytes limit bounds. */
  function DecodedBytes(pages: seq<PageOut>): nat {
    if pages == [] then 0
    else
      var p := pages[|pages| - 1].page;
      DecodedBytes(pages[..|pages| - 1]) + p.RowBytes() * p.height
  }

  lemma CheckedPageSize(cfg: Config, raw: seq<Byte>, logical: U64)
    requires cfg.Valid() && |raw| == URF_PAGE_HEADER && CheckPage(cfg, raw, logical).PageOk?
    ensures var r := CheckPage(cfg, raw, logical);
      r.logical == logical + r.page.RowBytes() * r.page.height <= cfg.limits.maxDecodedBytes
  {
  }

  lemma {:induction false} CopyPagesCounts(cfg: Config, inp: Input, pos: nat, done: seq<PageOut>, logical: U64)
    requires cfg.Valid() && pos <= |inp.bytes| && |done| <= cfg.limits.maxPages
    requires DecodedBytes(done) == logical <= cfg.limits.maxDecodedBytes
    requires CopyPages(cfg, inp, pos, done, logical).Pages?
    ensures var pages := CopyPages(cfg, inp, pos, done, logical).pages;
      var n, packets := |pages| - |done|, EmittedBytes(pages) - EmittedBytes(done) - PWG_PAGE_HEADER * (|pages| - |done|);
      && n >= 0
      && 0 <= |inp.bytes| - pos - URF_PAGE_HEADER * n - packets < URF_PAGE_HEADER
      && DecodedBytes(pages) <= cfg.limits.maxDecodedBytes
    decreases |inp.bytes| - pos
  {
    hide CheckPage, CopyRows;
    if pos + URF_PAGE_HEADER <= |inp.bytes| {
      var start := pos + URF_PAGE_HEADER;
      CheckedPageSize(cfg, inp.bytes[pos..start], logical);
      var check := CheckPage(cfg, inp.bytes[pos..start], logical);
      var f := Flow(inp, cfg.limits.maxOutputBytes, 4 + EmittedBytes(done) + PWG_PAGE_HEADER - start);
      CopyRowsMoves(f, start, check.page);
      var end := CopyRows(f, start, check.page, 0).pos;
      var more := done + [PageOut(check.page, inp.bytes[start..end])];
      assert more[..|done|] == done;
      CopyPagesCounts(cfg, inp, end, more, check.logical);
    }
  }

  /**
   Every source byte is accounted for: with P pages, the output is four bytes, P page headers and
   the packets; the source is the file header, P page headers, the same packets and a suffix shorter
   than a header.  The pages together decode to no more than the configured size.
   */
  lemma ByteCounts(cfg: Config, data: seq<Byte>)
    requires cfg.Valid() && Translated(cfg, data).Pages?
    ensures AllValid(Translated(cfg, data).pages)
    ensures var pages := Translated(cfg, data).pages;
      var packets := |Document(cfg.page, pages)| - 4 - PWG_PAGE_HEADER * |pages|;
      && 0 <= |data| - URF_FILE_HEADER - URF_PAGE_HEADER * |pages| - packets < URF_PAGE_HEADER
      && DecodedBytes(pages) <= cfg.limits.maxDecodedBytes
  {
    hide CopyPages, Document, Rasters;
    var pages := Translated(cfg, data).pages;
    SourceReads(cfg, data);
    AllDecodableValid(pages);
    DocumentLength(cfg.page, pages);
    var inp := Limited(data, cfg.limits.maxInputBytes);
    CopyPagesFaithful(cfg, inp, URF_FILE_HEADER, [], 0);
    CopyPagesCounts(cfg, inp, URF_FILE_HEADER, [], 0);
  }

  lemma PacketLength(s: seq<Byte>, i: nat, colour: Colour, px: nat)
    requires px > 0 && ReadPacket(s, i, colour, px).Packet?
    ensures |ReadPacket(s, i, colour, px).pixels| == colour.Bytes(ReadPacket(s, i, colour, px).count)
  {
    hide Repeat;
    RepeatLength(s[i + 1..ReadPacket(s, i, colour, px).end], PacketCount(s[i], px));
  }

  lemma {:induction false} LineLength(s: seq<Byte>, i: nat, colour: Colour, px: nat)
    requires DecodeLine(s, i, colour, px).Decoded?
    ensures |DecodeLine(s, i, colour, px).pixels| == colour.Bytes(px)
    decreases px
  {
    hide ReadPacket;
    if px > 0 {
      var p := ReadPacket(s, i, colour, px);
      PacketLength(s, i, colour, px);
      LineLength(s, p.end, colour, px - p.count);
    }
  }

  /** Every row of a decoded page is full: nothing is missing and nothing is over. */
  lemma {:induction false} RowsLength(s: seq<Byte>, i: nat, colour: Colour, width: nat, rows: nat)
    requires DecodeRows(s, i, colour, width, rows).Decoded?
    ensures |DecodeRows(s, i, colour, width, rows).pixels| == rows * colour.Bytes(width)
    decreases rows
  {
    hide DecodeLine, Repeat;
    if rows > 0 {
      var line, p := DecodeLine(s, i + 1, colour, width), ReadRowGroup(s, i, colour, width, rows);
      LineLength(s, i + 1, colour, width);
      RepeatLength(line.pixels, p.count);
      RowsLength(s, p.end, colour, width, rows - p.count);
      MulSplits(p.count, rows - p.count, colour.Bytes(width));
    }
  }

  lemma MulSplits(a: nat, b: nat, c: nat)
    ensures a * c + b * c == (a + b) * c
  {
  }

  /** The 32-bit geometry of a header cannot overflow the checked products. */
  lemma ProductsFit(width: U32, height: U32, colour: Colour, rowBytes: U32)
    ensures CheckedMul(width, colour.Bytes(1)) == Some(colour.Bytes(width))
    ensures CheckedMul(rowBytes, height) == Some(rowBytes * height)
  {
    hide CheckedMul;
    MulBound(rowBytes, height, MAX_U32);
  }

  /** The media size in whole pixels, if neither side is empty or passes 32 bits. */
  lemma MediaPixelsExactly(width: U32, height: U32, dpi: U32)
    ensures var w, h := width * dpi / 2540, height * dpi / 2540;
      MediaPixels(width, height, dpi) == if 0 < w <= MAX_U32 && 0 < h <= MAX_U32 then Some((w, h)) else None
  {
    hide CheckedMul;
    MulBound(width, dpi, MAX_U32);
    MulBound(height, dpi, MAX_U32);
  }

  // What a page header must be, in plain arithmetic: the checked 64-bit products refuse nothing else.

  /** The mapping's colour space and depth. */
  predicate FormatFits(colour: Colour, raw: seq<Byte>)
    requires |raw| == URF_PAGE_HEADER
  {
    match colour
    case Gray => raw[1] == 0 && raw[0] == 8
    case SRGB => raw[1] == 1 && raw[0] == 24
    case DeviceRGB => raw[1] == 5 && raw[0] == 24
  }

  predicate Positive(raw: seq<Byte>)
    requires |raw| == URF_PAGE_HEADER
  {
    WordAt(raw, 12) > 0 && WordAt(raw, 16) > 0 && WordAt(raw, 20) > 0
  }

  predicate ResolutionFits(cfg: Config, raw: seq<Byte>)
    requires |raw| == URF_PAGE_HEADER
  {
    WordAt(raw, 20) == cfg.page.resolutionX == cfg.page.resolutionY
  }

  /** The page, one row of it and all pages so far are within their limits, and the medium within 32 bits. */
  predicate SizesFit(cfg: Config, raw: seq<Byte>, logical: U64)
    requires |raw| == URF_PAGE_HEADER
  {
    var width, height, resolution := WordAt(raw, 12), WordAt(raw, 16), WordAt(raw, 20);
    var rowBytes := cfg.colour.Bytes(width);
    && width <= cfg.limits.maxWidth && height <= cfg.limits.maxHeight
    && rowBytes <= cfg.limits.maxRowBytes && rowBytes <= MAX_U32
    && logical + rowBytes * height <= cfg.limits.maxDecodedBytes
    && 0 < cfg.page.mediaWidth * resolution / 2540 <= MAX_U32
    && 0 < cfg.page.mediaHeight * resolution / 2540 <= MAX_U32
  }

  /** The medium's size in one of its orientations. */
  predicate MediumFits(cfg: Config, raw: seq<Byte>)
    requires |raw| == URF_PAGE_HEADER
  {
    var width, height, resolution := WordAt(raw, 12), WordAt(raw, 16), WordAt(raw, 20);
    var w, h := cfg.page.mediaWidth * resolution / 2540, cfg.page.mediaHeight * resolution / 2540;
    (width == w && height == h) || (width == h && height == w)
  }

  /** Duplex modes below 2 are one-sided, 2 binds at the short edge, others at the long edge. */
  predicate SidesFit(sides: string, mode: Byte) {
    (sides == "one-sided" <==> mode < 2) && (sides == "two-sided-short-edge" <==> mode == 2)
  }

  predicate HeaderFits(cfg: Config, raw: seq<Byte>, logical: U64)
    requires |raw| == URF_PAGE_HEADER
  {
    && FormatFits(cfg.colour, raw) && Positive(raw) && ResolutionFits(cfg, raw) && SizesFit(cfg, raw, logical)
    && MediumFits(cfg, raw) && SidesFit(cfg.page.sides, raw[2])
  }

  /** Which headers are accepted, what then counts, and which error every other header gives. */
  lemma CheckPageExactly(cfg: Config, raw: seq<Byte>, logical: U64)
    requires cfg.Valid() && |raw| == URF_PAGE_HEADER
    ensures CheckPage(cfg, raw, logical).PageOk? <==> HeaderFits(cfg, raw, logical)
    ensures CheckPage(cfg, raw, logical).PageOk? ==>
      CheckPage(cfg, raw, logical).logical == logical + cfg.colour.Bytes(WordAt(raw, 12)) * WordAt(raw, 16)
    ensures CheckPage(cfg, raw, logical).PageOk? ==>
      var page := CheckPage(cfg, raw, logical).page;
      && page.colour == cfg.colour && page.width == WordAt(raw, 12) && page.height == WordAt(raw, 16)
      && (page.landscape <==> page.width != cfg.page.mediaWidth * WordAt(raw, 20) / 2540
                              || page.height != cfg.page.mediaHeight * WordAt(raw, 20) / 2540)
    ensures CheckPage(cfg, raw, logical) == PageBad(UnsupportedInput) <==> !FormatFits(cfg.colour, raw)
    ensures CheckPage(cfg, raw, logical) == PageBad(MalformedInput) <==> FormatFits(cfg.colour, raw) && !Positive(raw)
    ensures CheckPage(cfg, raw, logical) == PageBad(ResourceLimit) <==>
      FormatFits(cfg.colour, raw) && Positive(raw) && ResolutionFits(cfg, raw) && !SizesFit(cfg, raw, logical)
    ensures CheckPage(cfg, raw, logical) == PageBad(SettingsMismatch) <==>
      && FormatFits(cfg.colour, raw) && Positive(raw)
      && (!ResolutionFits(cfg, raw)
          || (SizesFit(cfg, raw, logical) && !(MediumFits(cfg, raw) && SidesFit(cfg.page.sides, raw[2]))))
  {
    hide CheckedMul, MediaPixels, WordAt;
    var width, height := WordAt(raw, 12), WordAt(raw, 16);
    MediaPixelsExactly(cfg.page.mediaWidth, cfg.page.mediaHeight, WordAt(raw, 20));
    assert CheckedMul(width, cfg.colour.Bytes(1)) == Some(cfg.colour.Bytes(width));
    if cfg.colour.Bytes(width) <= MAX_U32 {
      ProductsFit(width, height, cfg.colour, cfg.colour.Bytes(width));
    }
  }

  lemma MulBound(a: nat, b: nat, m: nat)
    requires a <= m && b <= m
    ensures 0 <= a * b <= m * m
  {
    assert a * b <= m * b;
    assert m * b <= m * m;
  }
}
