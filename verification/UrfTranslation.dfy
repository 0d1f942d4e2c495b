/**
 What one translation decides and emits, as a function of the source bytes: the option checks,
 the page checks with their 64-bit arithmetic, how far each loop copies, and the document that
 results.  Positions count source bytes; a copy moves every byte it reads to the output.
 */
module UrfTranslation {
  import opened Basics
  import opened Bytes
  import opened RasterReaders
  import opened PwgHeader

  type I64 = x: int | -0x8000_0000_0000_0000 <= x < 0x8000_0000_0000_0000
  type U64 = x: int | 0 <= x < 0x1_0000_0000_0000_0000

  datatype Kind =
    | InvalidOptions | MalformedInput | UnsupportedInput | SettingsMismatch
    | ResourceLimit | SourceIO | DestinationIO | Canceled

  datatype Limits = Limits(
    maxInputBytes: I64, maxOutputBytes: I64, maxPages: U32, maxWidth: U32, maxHeight: U32,
    maxRowBytes: U64, maxDecodedBytes: U64)

  const DEFAULT_LIMITS := Limits(0x4000_0000, 0x4000_0000, 1024, 0x10_0000, 0x10_0000, 0x100_0000, 0x100_0000_0000)

  datatype Options = Options(mapping: nat, page: PageSettings, limits: Limits)

  /** Options that passed validation, with every default filled in. */
  datatype Config = Config(colour: Colour, page: PageSettings, limits: Limits) {
    predicate Valid() {
      && 0 < limits.maxInputBytes && 0 < limits.maxOutputBytes && 0 < limits.maxPages
      && 0 < limits.maxWidth && 0 < limits.maxHeight && 0 < limits.maxRowBytes && 0 < limits.maxDecodedBytes
      && 0 < page.mediaWidth && 0 < page.mediaHeight
      && 0 < page.resolutionX == page.resolutionY
      && |page.mediaName| < 64 && |page.mediaType| < 64 && 0 !in page.mediaName && 0 !in page.mediaType
      && page.sides in SIDES && page.sheetBack in SHEET_BACKS
    }
  }

  const SIDES: seq<string> := ["one-sided", "two-sided-long-edge", "two-sided-short-edge"]
  const SHEET_BACKS: seq<string> := ["normal", "flipped", "manual-tumble", "rotated"]

  function OrDefault(n: int, default: int): int {
    if n != 0 then n else default
  }

  function EffectiveLimits(l: Limits): Limits {
    Limits(
      OrDefault(l.maxInputBytes, DEFAULT_LIMITS.maxInputBytes), OrDefault(l.maxOutputBytes, DEFAULT_LIMITS.maxOutputBytes),
      OrDefault(l.maxPages, DEFAULT_LIMITS.maxPages), OrDefault(l.maxWidth, DEFAULT_LIMITS.maxWidth),
      OrDefault(l.maxHeight, DEFAULT_LIMITS.maxHeight), OrDefault(l.maxRowBytes, DEFAULT_LIMITS.maxRowBytes),
      OrDefault(l.maxDecodedBytes, DEFAULT_LIMITS.maxDecodedBytes))
  }

  predicate PwgString(s: seq<Byte>) {
    0 !in s && |s| < 64
  }

  function CheckPageSettings(p: PageSettings): Option<PageSettings> {
    var sides := if p.sides == "" then "one-sided" else p.sides;
    var sheetBack := if p.sheetBack == "" then "normal" else p.sheetBack;
    if !PwgString(p.mediaName) || !PwgString(p.mediaType) then None
    else if p.mediaWidth == 0 || p.mediaHeight == 0 then None
    else if p.resolutionX == 0 || p.resolutionY == 0 || p.resolutionX != p.resolutionY then None
    else if sides !in SIDES || sheetBack !in SHEET_BACKS then None
    else if p.printQuality !in {0, 3, 4, 5} then None
    else Some(p.(sides := sides, sheetBack := sheetBack))
  }

  function MappingColour(mapping: nat): Option<Colour> {
    match mapping
    case 1 => Some(Gray)
    case 2 => Some(SRGB)
    case 3 => Some(DeviceRGB)
    case _ => None
  }

  /** None is an invalid-options error. */
  function Validate(o: Options): (c: Option<Config>)
    ensures c.Some? ==> c.value.Valid()
  {
    if o.limits.maxInputBytes < 0 || o.limits.maxOutputBytes < 0 then None
    else
      var page := CheckPageSettings(o.page);
      var colour := MappingColour(o.mapping);
      if page.None? || colour.None? then None
      else Some(Config(colour.value, page.value, EffectiveLimits(o.limits)))
  }

  /** Unsigned 64-bit multiplication that refuses to wrap: it fails exactly when the product does not fit. */
  function CheckedMul(a: U64, b: U64): (r: Option<U64>)
    ensures r == if a * b <= MAX_U64 then Some(a * b) else None
  {
    if a != 0 && b > MAX_U64 / a then
      MulTooWide(a, b);
      None
    else
      MulFits(a, b);
      Some(a * b)
  }

  lemma MulTooWide(a: U64, b: U64)
    requires a != 0 && b > MAX_U64 / a
    ensures a * b > MAX_U64
  {
    assert a * (MAX_U64 / a + 1) > MAX_U64;
    assert a * b >= a * (MAX_U64 / a + 1);
  }

  lemma MulFits(a: U64, b: U64)
    requires a == 0 || b <= MAX_U64 / a
    ensures 0 <= a * b <= MAX_U64
  {
    if a != 0 {
      assert a * b <= a * (MAX_U64 / a);
    }
  }

  /** The media size in pixels; both products are of 32-bit factors. */
  function MediaPixels(width: U32, height: U32, dpi: U32): Option<(U32, U32)> {
    var w, h := CheckedMul(width, dpi), CheckedMul(height, dpi);
    if w.None? || h.None? then None
    else
      var pw, ph := w.value / 2540, h.value / 2540;
      if pw == 0 || ph == 0 || pw > MAX_U32 || ph > MAX_U32 then None else Some((pw, ph))
  }

  function UrfSpaceAndBits(c: Colour): (Byte, Byte) {
    match c case Gray => (0, 8) case SRGB => (1, 24) case DeviceRGB => (5, 24)
  }

  predicate DuplexFits(sides: string, mode: Byte) {
    if sides == "one-sided" then mode < 2
    else if sides == "two-sided-long-edge" then mode > 2
    else mode == 2
  }

  /** The result of checking a page header: the page and the decoded bytes so far, or an error. */
  datatype PageCheck = PageOk(page: Page, logical: U64) | PageBad(kind: Kind)

  function CheckPage(cfg: Config, raw: seq<Byte>, logical: U64): (r: PageCheck)
    requires cfg.Valid() && |raw| == URF_PAGE_HEADER
    ensures r.PageOk? ==> r.page.Valid() && r.page.colour == cfg.colour
  {
    var width, height, resolution := WordAt(raw, 12), WordAt(raw, 16), WordAt(raw, 20);
    if (raw[1], raw[0]) != UrfSpaceAndBits(cfg.colour) then PageBad(UnsupportedInput)
    else if width == 0 || height == 0 || resolution == 0 then PageBad(MalformedInput)
    else if resolution != cfg.page.resolutionX || resolution != cfg.page.resolutionY then PageBad(SettingsMismatch)
    else if width > cfg.limits.maxWidth || height > cfg.limits.maxHeight then PageBad(ResourceLimit)
    else
      var rowBytes := CheckedMul(width, cfg.colour.Bytes(1));
      if rowBytes.None? || rowBytes.value == 0 then PageBad(ResourceLimit)
      else if rowBytes.value > cfg.limits.maxRowBytes || rowBytes.value > MAX_U32 then PageBad(ResourceLimit)
      else
        var pageBytes := CheckedMul(rowBytes.value, height);
        if pageBytes.None? then PageBad(ResourceLimit)
        else if pageBytes.value > MAX_U64 - logical || logical + pageBytes.value > cfg.limits.maxDecodedBytes then
          PageBad(ResourceLimit)
        else
          var direct := MediaPixels(cfg.page.mediaWidth, cfg.page.mediaHeight, resolution);
          if direct.None? then PageBad(ResourceLimit)
          else if (width, height) != direct.value && (height, width) != direct.value then PageBad(SettingsMismatch)
          else if !DuplexFits(cfg.page.sides, raw[2]) then PageBad(SettingsMismatch)
          else PageOk(Page(cfg.colour, width, height, (width, height) != direct.value), logical + pageBytes.value)
  }

  /** The source as the limit lets it be seen: over means that one more byte exists. */
  datatype Input = Input(bytes: seq<Byte>, over: bool) {
    /** The error of running out of bytes where more are needed. */
    function Short(): Kind {
      if over then ResourceLimit else MalformedInput
    }
  }

  function Limited(data: seq<Byte>, limit: I64): (inp: Input)
    requires limit > 0
    ensures |inp.bytes| <= |data| && inp.bytes == data[..|inp.bytes|]
  {
    if |data| <= limit then Input(data, false) else Input(data[..limit], true)
  }

  /** Copying from inp at position pos writes at output offset pos + shift. */
  datatype Flow = Flow(inp: Input, maxOutput: int, shift: int)

  datatype Scan = At(pos: nat) | Stop(kind: Kind)

  /** One read of n bytes followed by one write of them. */
  function Copy(f: Flow, pos: nat, n: nat): (r: Scan)
    ensures r.At? ==> r.pos == pos + n <= |f.inp.bytes|
  {
    if pos + n > |f.inp.bytes| then Stop(f.inp.Short())
    else if pos + f.shift + n > f.maxOutput then Stop(ResourceLimit)
    else At(pos + n)
  }

  const SCRATCH: nat := 384

  function CopyBytes(f: Flow, pos: nat, n: nat): (r: Scan)
    ensures r.At? ==> r.pos == pos + n && (r.pos <= |f.inp.bytes| || r.pos == pos)
    decreases n
  {
    if n == 0 then At(pos)
    else
      var chunk := Min(SCRATCH, n);
      var r := Copy(f, pos, chunk);
      if r.Stop? then r else CopyBytes(f, r.pos, n - chunk)
  }

  /** The bytes of the line that control byte c stands for, clipped to those left. */
  function PacketWant(c: Byte, bpp: nat, remaining: nat): (want: nat)
    requires bpp > 0 && remaining > 0
    ensures 0 < want <= remaining
  {
    var pixels := if c > 0x80 then 257 - c else c as int + 1;
    assert pixels * bpp > 0;
    Min(pixels * bpp, remaining)
  }

  /** One packet of a line with remaining > 0 bytes left, as the bytes it leaves. */
  datatype PacketScan = PacketAt(pos: nat, remaining: nat) | PacketStop(kind: Kind)

  function CopyPacket(f: Flow, pos: nat, bpp: nat, remaining: nat): (r: PacketScan)
    requires 0 < bpp <= 3 && remaining > 0
    ensures r.PacketAt? ==> pos < r.pos <= |f.inp.bytes| && r.remaining < remaining
  {
    var control := Copy(f, pos, 1);
    if control.Stop? then PacketStop(control.kind)
    else
      var c := f.inp.bytes[pos];
      if c == 0x80 then PacketAt(pos + 1, 0)
      else
        var want := PacketWant(c, bpp, remaining);
        if c > 0x80 then
          var r := CopyBytes(f, pos + 1, want);
          if r.Stop? then PacketStop(r.kind) else PacketAt(r.pos, remaining - want)
        else if want < bpp then PacketAt(pos + 1, 0)
        else
          var r := CopyBytes(f, pos + 1, bpp);
          if r.Stop? then PacketStop(r.kind) else PacketAt(r.pos, remaining - want)
  }

  function CopyRow(f: Flow, pos: nat, bpp: nat, remaining: nat): (r: Scan)
    requires 0 < bpp <= 3
    ensures r.At? ==> pos <= r.pos && (r.pos <= |f.inp.bytes| || r.pos == pos)
    decreases remaining
  {
    if remaining == 0 then At(pos)
    else
      var p := CopyPacket(f, pos, bpp, remaining);
      if p.PacketStop? then Stop(p.kind) else CopyRow(f, p.pos, bpp, p.remaining)
  }

  /** A repeat byte and the line it repeats. */
  function CopyRowGroup(f: Flow, pos: nat, page: Page): (r: Scan)
    ensures r.At? ==> pos < r.pos <= |f.inp.bytes|
  {
    var repeat := Copy(f, pos, 1);
    if repeat.Stop? then repeat else CopyRow(f, pos + 1, page.colour.Bytes(1), page.RowBytes())
  }

  /** The rows of the page that are full once a line repeated that often is added. */
  function RowsAfter(page: Page, rowsDone: nat, repeatRows: nat): (r: nat)
    requires rowsDone < page.height && repeatRows > 0
    ensures rowsDone < r <= page.height
  {
    if repeatRows > page.height - rowsDone then page.height else rowsDone + repeatRows
  }

  /** The rows of a page from rowsDone on. */
  function CopyRows(f: Flow, pos: nat, page: Page, rowsDone: nat): (r: Scan)
    requires rowsDone <= page.height
    ensures r.At? ==> pos <= r.pos && (r.pos <= |f.inp.bytes| || r.pos == pos)
    decreases page.height - rowsDone
  {
    if rowsDone == page.height then At(pos)
    else
      var group := CopyRowGroup(f, pos, page);
      if group.Stop? then group
      else
        CopyRows(f, group.pos, page, RowsAfter(page, rowsDone, f.inp.bytes[pos] as int + 1))
  }

  /** An emitted page: what its header says, and the packets copied after it. */
  datatype PageOut = PageOut(page: Page, body: seq<Byte>)

  ghost predicate AllValid(pages: seq<PageOut>) {
    forall p <- pages :: p.page.Valid()
  }

  /** The emitted pages, the first patched of which already announce total pages, the others none. */
  ghost function Body(s: PageSettings, pages: seq<PageOut>, patched: nat, total: U32): seq<Byte>
    requires AllValid(pages)
  {
    if pages == [] then []
    else
      var n := |pages| - 1;
      assert pages[n] in pages;
      Body(s, pages[..n], patched, total)
        + (Header(s, pages[n].page, n, if n < patched then total else 0) + pages[n].body)
  }

  lemma {:induction false} BodyLength(s: PageSettings, pages: seq<PageOut>, patched: nat, total: U32)
    requires AllValid(pages)
    ensures |Body(s, pages, patched, total)| == EmittedBytes(pages)
  {
    if pages != [] {
      assert pages[|pages| - 1] in pages;
      BodyLength(s, pages[..|pages| - 1], patched, total);
    }
  }

  function EmittedBytes(pages: seq<PageOut>): nat {
    if pages == [] then 0
    else EmittedBytes(pages[..|pages| - 1]) + PWG_PAGE_HEADER + |pages[|pages| - 1].body|
  }

  /** The bytes of the destination once the given number of page counts has been patched. */
  ghost function Staged(s: PageSettings, pages: seq<PageOut>, patched: nat, total: U32): seq<Byte>
    requires AllValid(pages)
  {
    Fill(0, 4) + Body(s, pages, patched, total)
  }

  /** The finished document. */
  ghost function Document(s: PageSettings, pages: seq<PageOut>): seq<Byte>
    requires AllValid(pages) && |pages| <= MAX_U32
  {
    RAS2 + Body(s, pages, |pages|, |pages|)
  }

  /** Patching the count of page k at its place moves the staged bytes one page on. */
  lemma PatchStaged(s: PageSettings, pages: seq<PageOut>, k: nat, total: U32)
    requires AllValid(pages) && k < |pages|
    ensures var off := 4 + EmittedBytes(pages[..k]) + TOTAL_PAGES;
      && off + 4 <= |Staged(s, pages, k, total)|
      && Patch(Staged(s, pages, k, total), off, Word(total)) == Staged(s, pages, k + 1, total)
  {
    hide Body;
    PatchBody(s, pages, k, total);
    PatchInside(Fill(0, 4), Body(s, pages, k, total), [], EmittedBytes(pages[..k]) + TOTAL_PAGES, Word(total));
    assert Body(s, pages, k, total) + [] == Body(s, pages, k, total);
    assert Body(s, pages, k + 1, total) + [] == Body(s, pages, k + 1, total);
  }

  lemma {:induction false} PatchBody(s: PageSettings, pages: seq<PageOut>, k: nat, total: U32)
    requires AllValid(pages) && k < |pages|
    ensures var off := EmittedBytes(pages[..k]) + TOTAL_PAGES;
      && off + 4 <= |Body(s, pages, k, total)|
      && Patch(Body(s, pages, k, total), off, Word(total)) == Body(s, pages, k + 1, total)
  {
    hide Header, EmittedBytes, Patch, Word;
    var n := |pages| - 1;
    assert pages[n] in pages;
    var init, last := pages[..n], pages[n];
    var front, off := Body(s, init, k, total), EmittedBytes(pages[..k]) + TOTAL_PAGES;
    BodyLength(s, init, k, total);
    if k < n {
      PatchBody(s, init, k, total);
      assert init[..k] == pages[..k];
      var back := Header(s, last.page, n, 0) + last.body;
      PatchInside([], front, back, off, Word(total));
      assert [] + (front + back) == front + back;
      assert [] + (Body(s, init, k + 1, total) + back) == Body(s, init, k + 1, total) + back;
    } else {
      AllPatched(s, init, k, k + 1, total);
      HeaderPatch(s, last.page, n, 0, total);
      PatchInside(front, Header(s, last.page, n, 0), last.body, TOTAL_PAGES, Word(total));
    }
  }

  lemma {:induction false} AllPatched(s: PageSettings, pages: seq<PageOut>, j: nat, k: nat, total: U32)
    requires AllValid(pages) && |pages| <= j && |pages| <= k
    ensures Body(s, pages, j, total) == Body(s, pages, k, total)
  {
    if pages != [] {
      assert pages[|pages| - 1] in pages;
      AllPatched(s, pages[..|pages| - 1], j, k, total);
    }
  }

  lemma {:induction false} UnpatchedBody(s: PageSettings, pages: seq<PageOut>, was: U32, total: U32)
    requires AllValid(pages)
    ensures Body(s, pages, 0, was) == Body(s, pages, 0, total)
  {
    if pages != [] {
      assert pages[|pages| - 1] in pages;
      UnpatchedBody(s, pages[..|pages| - 1], was, total);
    }
  }

  /** With all counts patched, the marker completes the document. */
  lemma PatchMarker(s: PageSettings, pages: seq<PageOut>, total: U32)
    requires AllValid(pages) && total == |pages|
    ensures Patch(Staged(s, pages, total, total), 0, RAS2) == Document(s, pages)
  {
    hide Body;
  }

  datatype Pages = Pages(pages: seq<PageOut>) | NoPages(kind: Kind)

  /** One page, with where its packets end and the decoded size so far. */
  datatype OnePage = OnePage(out: PageOut, end: nat, logical: U64) | NoPage(kind: Kind)

  /** The page at position pos, after the given pages. */
  function CopyPage(cfg: Config, inp: Input, pos: nat, done: seq<PageOut>, logical: U64): (r: OnePage)
    requires cfg.Valid() && pos + URF_PAGE_HEADER <= |inp.bytes|
    ensures r.OnePage? ==> pos < r.end <= |inp.bytes| && r.out.page.Valid()
  {
    var start := pos + URF_PAGE_HEADER;
    var check := CheckPage(cfg, inp.bytes[pos..start], logical);
    if |done| >= cfg.limits.maxPages then NoPage(ResourceLimit)
    else if check.PageBad? then NoPage(check.kind)
    else
      var offset := 4 + EmittedBytes(done) + PWG_PAGE_HEADER;
      if offset > cfg.limits.maxOutputBytes then NoPage(ResourceLimit)
      else
        var r := CopyRows(Flow(inp, cfg.limits.maxOutputBytes, offset - start), start, check.page, 0);
        if r.Stop? then NoPage(r.kind)
        else OnePage(PageOut(check.page, inp.bytes[start..r.pos]), r.pos, check.logical)
  }

  /** The page loop from position pos, with the pages already emitted and their decoded size. */
  function CopyPages(cfg: Config, inp: Input, pos: nat, done: seq<PageOut>, logical: U64): (r: Pages)
    requires cfg.Valid() && pos <= |inp.bytes|
    requires |done| <= cfg.limits.maxPages
    ensures r.Pages? ==> |r.pages| <= cfg.limits.maxPages
    decreases |inp.bytes| - pos
  {
    if pos + URF_PAGE_HEADER > |inp.bytes| then if inp.over then NoPages(ResourceLimit) else Pages(done)
    else
      var p := CopyPage(cfg, inp, pos, done, logical);
      if p.NoPage? then NoPages(p.kind) else CopyPages(cfg, inp, p.end, done + [p.out], p.logical)
  }

  // What is copied depends on the bytes only; whether there are more of them decides how a shortage ends.

  lemma {:induction false} CopyBytesSeesBytes(f: Flow, g: Flow, pos: nat, n: nat)
    requires f == g.(inp := f.inp) && f.inp.bytes == g.inp.bytes && CopyBytes(f, pos, n).At?
    ensures CopyBytes(g, pos, n) == CopyBytes(f, pos, n)
    decreases n
  {
    if n > 0 {
      CopyBytesSeesBytes(f, g, Copy(f, pos, Min(SCRATCH, n)).pos, n - Min(SCRATCH, n));
    }
  }

  lemma CopyPacketSeesBytes(f: Flow, g: Flow, pos: nat, bpp: nat, remaining: nat)
    requires f == g.(inp := f.inp) && f.inp.bytes == g.inp.bytes && 0 < bpp <= 3 && remaining > 0
    requires CopyPacket(f, pos, bpp, remaining).PacketAt?
    ensures CopyPacket(g, pos, bpp, remaining) == CopyPacket(f, pos, bpp, remaining)
  {
    hide CopyBytes, PacketWant;
    var c := f.inp.bytes[pos];
    if c > 0x80 {
      CopyBytesSeesBytes(f, g, pos + 1, PacketWant(c, bpp, remaining));
    } else if c < 0x80 && PacketWant(c, bpp, remaining) >= bpp {
      CopyBytesSeesBytes(f, g, pos + 1, bpp);
    }
  }

  lemma {:induction false} CopyRowSeesBytes(f: Flow, g: Flow, pos: nat, bpp: nat, remaining: nat)
    requires f == g.(inp := f.inp) && f.inp.bytes == g.inp.bytes && 0 < bpp <= 3
    requires CopyRow(f, pos, bpp, remaining).At?
    ensures CopyRow(g, pos, bpp, remaining) == CopyRow(f, pos, bpp, remaining)
    decreases remaining
  {
    hide CopyPacket;
    if remaining > 0 {
      var p := CopyPacket(f, pos, bpp, remaining);
      CopyPacketSeesBytes(f, g, pos, bpp, remaining);
      CopyRowSeesBytes(f, g, p.pos, bpp, p.remaining);
    }
  }

  lemma {:induction false} CopyRowsSeesBytes(f: Flow, g: Flow, pos: nat, page: Page, rowsDone: nat)
    requires f == g.(inp := f.inp) && f.inp.bytes == g.inp.bytes && rowsDone <= page.height
    requires CopyRows(f, pos, page, rowsDone).At?
    ensures CopyRows(g, pos, page, rowsDone) == CopyRows(f, pos, page, rowsDone)
    decreases page.height - rowsDone
  {
    hide CopyRow, RowsAfter;
    if rowsDone < page.height {
      CopyRowSeesBytes(f, g, pos + 1, page.colour.Bytes(1), page.RowBytes());
      CopyRowsSeesBytes(f, g, CopyRowGroup(f, pos, page).pos, page, RowsAfter(page, rowsDone, f.inp.bytes[pos] as int + 1));
    }
  }

  /** A page that is copied before the end of the input is copied alike when the input ends there. */
  lemma CopyPageSeesBytes(cfg: Config, inp: Input, pos: nat, done: seq<PageOut>, logical: U64)
    requires cfg.Valid() && pos + URF_PAGE_HEADER <= |inp.bytes|
    ensures CopyPage(cfg, inp, pos, done, logical).OnePage? ==>
      CopyPage(cfg, Input(inp.bytes, false), pos, done, logical) == CopyPage(cfg, inp, pos, done, logical)
  {
    hide CheckPage, CopyRows, EmittedBytes;
    if CopyPage(cfg, inp, pos, done, logical).OnePage? {
      var start := pos + URF_PAGE_HEADER;
      var shift := 4 + EmittedBytes(done) + PWG_PAGE_HEADER - start;
      CopyRowsSeesBytes(Flow(inp, cfg.limits.maxOutputBytes, shift),
                        Flow(Input(inp.bytes, false), cfg.limits.maxOutputBytes, shift),
                        start, CheckPage(cfg, inp.bytes[pos..start], logical).page, 0);
    }
  }

  /** The result of a translation no fault interrupts. */
  function Translated(cfg: Config, data: seq<Byte>): (r: Pages)
    requires cfg.Valid()
    ensures r.Pages? ==> 0 < |r.pages| <= cfg.limits.maxPages
  {
    var inp := Limited(data, cfg.limits.maxInputBytes);
    if cfg.limits.maxOutputBytes < 4 then NoPages(ResourceLimit)
    else if |inp.bytes| < URF_FILE_HEADER then NoPages(inp.Short())
    else if inp.bytes[..4] != UNIR && inp.bytes[..4] != RINU then NoPages(MalformedInput)
    else
      var r := CopyPages(cfg, inp, URF_FILE_HEADER, [], 0);
      if r.Pages? && r.pages == [] then NoPages(MalformedInput) else r
  }

  /** What a successful translation reports (api.go, Result). */
  datatype Summary = Summary(inputBytes: nat, outputBytes: nat, pages: nat)

  datatype Outcome = Success(result: Summary) | Failure(kind: Kind)

  /** The outcome no fault interrupts, as a function of the options and the source bytes alone. */
  ghost function Expected(opts: Options, data: seq<Byte>): Outcome {
    var cfg := Validate(opts);
    if cfg.None? then Failure(InvalidOptions)
    else
      var r := Translated(cfg.value, data);
      if r.NoPages? then Failure(r.kind)
      else Success(Summary(|data|, 4 + EmittedBytes(r.pages), |r.pages|))
  }

  /** dst shows the finished document of the whole source. */
  ghost predicate Finished(opts: Options, data: seq<Byte>, content: seq<Byte>) {
    var cfg := Validate(opts);
    cfg.Some? &&
    var r := Translated(cfg.value, data);
    r.Pages? && AllValid(r.pages) && content == Document(cfg.value.page, r.pages)
  }
}
