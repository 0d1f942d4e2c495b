/** The page header the translator writes: fields laid over 1796 zero bytes. */
module PwgHeader {
  import opened Basics
  import opened Bytes
  import opened RasterReaders

  /** The normalized queue policy of one translation (api.go, PageSettings). */
  datatype PageSettings = PageSettings(
    mediaName: seq<Byte>, mediaWidth: U32, mediaHeight: U32, mediaType: seq<Byte>, mediaSource: U32,
    resolutionX: U32, resolutionY: U32, printQuality: U32, sides: string, sheetBack: string,
    pointsWidth: U32, pointsHeight: U32) // the IEEE 754 words of the media size in points, not computed here

  /** One accepted page (pageDescription, without what the mapping already fixes). */
  datatype Page = Page(colour: Colour, width: U32, height: U32, landscape: bool) {
    /** Bytes in one row of the page. */
    function RowBytes(): nat {
      colour.Bytes(width)
    }

    predicate Valid() {
      0 < width && 0 < height && RowBytes() <= MAX_U32
    }
  }

  /** Words one after the other, each in network order. */
  function Flat(words: seq<U32>): (r: seq<Byte>)
    ensures |r| == 4 * |words|
  {
    if words == [] then [] else Word(words[0]) + Flat(words[1..])
  }

  lemma {:induction false} FlatWord(words: seq<U32>, k: nat)
    requires k < |words|
    ensures WordAt(Flat(words), 4 * k) == words[k]
  {
    var rest := Flat(words[1..]);
    if k == 0 {
      WordRoundTrip(Flat(words), 0, words[0]);
    } else {
      FlatWord(words[1..], k - 1);
      WordShifts(Word(words[0]), rest, 4 * (k - 1));
    }
  }

  lemma WordShifts(front: seq<Byte>, s: seq<Byte>, i: nat)
    requires i + 4 <= |s|
    ensures WordAt(front + s, |front| + i) == WordAt(s, i)
  {
  }

  lemma {:induction false} FlatPatch(words: seq<U32>, k: nat, v: U32)
    requires k < |words|
    ensures Patch(Flat(words), 4 * k, Word(v)) == Flat(words[k := v])
  {
    var front, rest, other := Word(words[0]), words[1..], words[k := v];
    if k == 0 {
      assert other[1..] == rest;
      assert Patch(front + Flat(rest), 0, Word(v)) == Word(v) + Flat(rest);
    } else {
      FlatPatch(rest, k - 1, v);
      assert other[1..] == rest[k - 1 := v];
      assert Patch(front + Flat(rest), 4 * k, Word(v)) == front + Patch(Flat(rest), 4 * (k - 1), Word(v));
    }
  }

  /** A text field keeps at most 63 bytes, so that a NUL follows it. */
  function Text(s: seq<Byte>): seq<Byte> {
    if |s| > 63 then s[..63] else s
  }

  const PWG_RASTER: seq<Byte> := [0x50, 0x77, 0x67, 0x52, 0x61, 0x73, 0x74, 0x65, 0x72]

  function Flag(b: bool): U32 {
    if b then 1 else 0
  }

  function PwgSpace(c: Colour): U32 {
    match c case Gray => 18 case SRGB => 19 case DeviceRGB => 1
  }

  function Points(hundredths: U32): U32 {
    hundredths * 72 / 2540
  }

  /** The cross-feed and feed transforms of the back side of a sheet. */
  function BackTransforms(sides: string, sheetBack: string): (U32, U32) {
    var tumble, flip := sides == "two-sided-short-edge", 0xffff_ffff;
    if sheetBack == "flipped" then if tumble then (flip, 1) else (1, flip)
    else if sheetBack == "manual-tumble" then if tumble then (flip, flip) else (1, 1)
    else if sheetBack == "rotated" then if tumble then (1, 1) else (flip, flip)
    else (1, 1)
  }

  /** The transforms of page number index: only odd pages of a duplex document are back sides. */
  function Transforms(s: PageSettings, index: nat): (U32, U32) {
    if s.sides != "one-sided" && index % 2 == 1 then BackTransforms(s.sides, s.sheetBack) else (1, 1)
  }

  const WORDS_AT: nat := 272
  const WORDS: nat := 54
  const TOTAL_PAGES: nat := 452

  /** The words of the header from byte 272 on, by their byte offset. */
  function Put(words: seq<U32>, off: nat, v: U32): (r: seq<U32>)
    requires WORDS_AT <= off < WORDS_AT + 4 * WORDS && off % 4 == 0 && |words| == WORDS
    ensures |r| == WORDS
  {
    words[(off - WORDS_AT) / 4 := v]
  }

  function SheetWords(words: seq<U32>, s: PageSettings, page: Page): (r: seq<U32>)
    requires |words| == WORDS
    ensures |r| == WORDS
  {
    var (across, down) := if page.landscape then (s.mediaHeight, s.mediaWidth) else (s.mediaWidth, s.mediaHeight);
    var w1 := Put(words, 272, Flag(s.sides != "one-sided"));
    var w2 := Put(w1, 276, s.resolutionX);
    var w3 := Put(w2, 280, s.resolutionY);
    var w4 := Put(w3, 292, Points(across));
    var w5 := Put(w4, 296, Points(down));
    var w6 := Put(w5, 324, s.mediaSource);
    var w7 := Put(w6, 352, Points(across));
    var w8 := Put(w7, 356, Points(down));
    Put(w8, 368, Flag(s.sides == "two-sided-short-edge"))
  }

  function RasterWords(words: seq<U32>, page: Page): (r: seq<U32>)
    requires |words| == WORDS && page.Valid()
    ensures |r| == WORDS
  {
    var w1 := Put(words, 372, page.width);
    var w2 := Put(w1, 376, page.height);
    var w3 := Put(w2, 384, 8);
    var w4 := Put(w3, 388, 8 * page.colour.Bytes(1));
    var w5 := Put(w4, 392, page.RowBytes());
    var w6 := Put(w5, 396, 0);
    var w7 := Put(w6, 400, PwgSpace(page.colour));
    Put(w7, 420, page.colour.Bytes(1))
  }

  function TrailingWords(words: seq<U32>, s: PageSettings, page: Page, index: nat, total: U32): (r: seq<U32>)
    requires |words| == WORDS
    ensures |r| == WORDS
  {
    var (acrossF, downF) := if page.landscape then (s.pointsHeight, s.pointsWidth) else (s.pointsWidth, s.pointsHeight);
    var (cross, feed) := Transforms(s, index);
    var w1 := Put(words, 428, acrossF);
    var w2 := Put(w1, 432, downF);
    var w3 := Put(w2, TOTAL_PAGES, total);
    var w4 := Put(w3, 456, cross);
    var w5 := Put(w4, 460, feed);
    var w6 := Put(w5, 472, page.width);
    var w7 := Put(w6, 476, page.height);
    var w8 := Put(w7, 480, 0xff_ffff);
    Put(w8, 484, s.printQuality)
  }

  function BlankWords(): (w: seq<U32>)
    ensures |w| == WORDS && forall k :: 0 <= k < WORDS ==> w[k] == 0
  {
    seq(WORDS, _ => 0)
  }

  function HeaderWords(s: PageSettings, page: Page, index: nat, total: U32): (r: seq<U32>)
    requires page.Valid()
    ensures |r| == WORDS
  {
    TrailingWords(RasterWords(SheetWords(BlankWords(), s, page), page), s, page, index, total)
  }

  function Pad(s: seq<Byte>, n: nat): (r: seq<Byte>)
    requires |s| <= n
    ensures |r| == n
  {
    s + Fill(0, n - |s|)
  }

  /** The whole header around its words. */
  function Frame(s: PageSettings, words: seq<U32>): (h: seq<Byte>)
    requires |words| == WORDS
    ensures |h| == PWG_PAGE_HEADER
  {
    (Pad(PWG_RASTER, 128) + Pad(Text(s.mediaType), 144)) + (Flat(words) + (Fill(0, 1244) + Pad(Text(s.mediaName), 64)))
  }

  /** The header bytes of page number index of a document announced to have total pages. */
  function Header(s: PageSettings, page: Page, index: nat, total: U32): (h: seq<Byte>)
    requires page.Valid()
    ensures |h| == PWG_PAGE_HEADER
  {
    Frame(s, HeaderWords(s, page, index, total))
  }

  lemma FrameWord(s: PageSettings, words: seq<U32>, off: nat)
    requires |words| == WORDS
    requires WORDS_AT <= off < WORDS_AT + 4 * WORDS && off % 4 == 0
    ensures WordAt(Frame(s, words), off) == words[(off - WORDS_AT) / 4]
  {
    var k := (off - WORDS_AT) / 4;
    FlatWord(words, k);
    var front := Pad(PWG_RASTER, 128) + Pad(Text(s.mediaType), 144);
    var back := Fill(0, 1244) + Pad(Text(s.mediaName), 64);
    WordShifts(front, Flat(words) + back, 4 * k);
    assert WordAt(Flat(words) + back, 4 * k) == WordAt(Flat(words), 4 * k);
  }

  lemma PatchInside(front: seq<Byte>, s: seq<Byte>, back: seq<Byte>, i: nat, p: seq<Byte>)
    requires i + |p| <= |s|
    ensures Patch(front + (s + back), |front| + i, p) == front + (Patch(s, i, p) + back)
  {
  }

  lemma FramePatch(s: PageSettings, words: seq<U32>, off: nat, v: U32)
    requires |words| == WORDS
    requires WORDS_AT <= off < WORDS_AT + 4 * WORDS && off % 4 == 0
    ensures Patch(Frame(s, words), off, Word(v)) == Frame(s, Put(words, off, v))
  {
    var k := (off - WORDS_AT) / 4;
    FlatPatch(words, k, v);
    var front := Pad(PWG_RASTER, 128) + Pad(Text(s.mediaType), 144);
    var back := Fill(0, 1244) + Pad(Text(s.mediaName), 64);
    hide Flat, Patch, Pad, Text, Fill;
    PatchInside(front, Flat(words), back, 4 * k, Word(v));
    assert |front| + 4 * k == off;
  }

  lemma RasterWordsStand(s: PageSettings, page: Page, index: nat, total: U32)
    requires page.Valid()
    ensures var w := HeaderWords(s, page, index, total);
      && w[25] == page.width && w[26] == page.height && w[28] == 8 && w[29] == 8 * page.colour.Bytes(1)
      && w[30] == page.RowBytes() && w[31] == 0 && w[32] == PwgSpace(page.colour)
      && w[37] == page.colour.Bytes(1) && w[45] == total
  {
  }

  lemma LayoutReads(h: seq<Byte>, i: nat, page: Page)
    requires page.Valid() && i + PWG_PAGE_HEADER <= |h|
    requires WordAt(h, i + 372) == page.width && WordAt(h, i + 384) == 8 && WordAt(h, i + 388) == 8 * page.colour.Bytes(1)
    requires WordAt(h, i + 392) == page.RowBytes() && WordAt(h, i + 396) == 0
    requires WordAt(h, i + 400) == PwgSpace(page.colour) && WordAt(h, i + 420) == page.colour.Bytes(1)
    requires WordAt(h, i + 272) <= 1 && WordAt(h, i + 368) <= 1
    ensures ReadPwgHeader(h, i) == Some(page.colour)
  {
    hide WordAt;
  }

  /** The three text fields, each in its place and ended by zeros. */
  lemma TextFields(s: PageSettings, page: Page, index: nat, total: U32)
    requires page.Valid() && |s.mediaType| < 64 && |s.mediaName| < 64
    ensures var h := Header(s, page, index, total);
      && h[..128] == PWG_RASTER + Fill(0, 128 - |PWG_RASTER|)
      && h[128..272] == s.mediaType + Fill(0, 144 - |s.mediaType|)
      && h[1732..1796] == s.mediaName + Fill(0, 64 - |s.mediaName|)
  {
    var words := HeaderWords(s, page, index, total);
    hide HeaderWords, Fill, Flat;
    var front, back := Pad(PWG_RASTER, 128) + Pad(Text(s.mediaType), 144), Fill(0, 1244) + Pad(Text(s.mediaName), 64);
    var h := Frame(s, words);
    assert h[..272] == front && h[..128] == front[..128] && h[128..272] == front[128..272];
    assert h[1732..1796] == back[1244..];
  }

  /** What the queue's settings ask of every page. */
  function SetupOf(s: PageSettings): Setup {
    Setup(s.resolutionX, s.resolutionY, s.sides != "one-sided", s.sides == "two-sided-short-edge")
  }

  /** A reader finds in the header the geometry, the layout, the setup and the page count it was built from. */
  lemma HeaderReads(s: PageSettings, page: Page, index: nat, total: U32, doc: seq<Byte>, i: nat)
    requires page.Valid()
    requires Agree(Header(s, page, index, total), 0, doc, i, PWG_PAGE_HEADER)
    ensures i + PWG_PAGE_HEADER <= |doc|
    ensures ReadPwgHeader(doc, i) == Some(page.colour)
    ensures WordAt(doc, i + 372) == page.width && WordAt(doc, i + 376) == page.height && WordAt(doc, i + TOTAL_PAGES) == total
    ensures PwgSetup(doc, i) == SetupOf(s)
  {
    hide HeaderWords, Frame, WordAt, Agree;
    RasterWordsStand(s, page, index, total);
    EarlyWords(s, page, index, total);
    AgreeHead(Header(s, page, index, total), 0, doc, i, PWG_PAGE_HEADER);
    forall off: nat {:trigger WordAt(doc, i + off)} | off in {272, 276, 280, 368, 372, 376, 384, 388, 392, 396, 400, 420, 452}
      ensures WordAt(doc, i + off) == HeaderWords(s, page, index, total)[(off - WORDS_AT) / 4]
    {
      HeaderWordIn(s, page, index, total, doc, i, off);
    }
    LayoutReads(doc, i, page);
  }

  lemma HeaderWordIn(s: PageSettings, page: Page, index: nat, total: U32, doc: seq<Byte>, i: nat, off: nat)
    requires page.Valid() && i + PWG_PAGE_HEADER <= |doc|
    requires Agree(Header(s, page, index, total), 0, doc, i, PWG_PAGE_HEADER)
    requires WORDS_AT <= off < WORDS_AT + 4 * WORDS && off % 4 == 0
    ensures WordAt(doc, i + off) == HeaderWords(s, page, index, total)[(off - WORDS_AT) / 4]
  {
    hide HeaderWords, Frame;
    FrameWord(s, HeaderWords(s, page, index, total), off);
    AgreeWithin(Header(s, page, index, total), 0, doc, i, PWG_PAGE_HEADER, off, 4);
    AgreeWord(Header(s, page, index, total), off, doc, i + off);
  }

  /** The word that a header field holds. */
  function Field(s: PageSettings, page: Page, index: nat, total: U32, off: nat): U32
    requires page.Valid() && WORDS_AT <= off < WORDS_AT + 4 * WORDS && off % 4 == 0
  {
    HeaderWords(s, page, index, total)[(off - WORDS_AT) / 4]
  }

  /** Sheet size, imaging box and floating page size are the medium's, turned for a landscape page. */
  lemma SheetFields(s: PageSettings, page: Page, index: nat, total: U32)
    requires page.Valid()
    ensures var (across, down) := if page.landscape then (s.mediaHeight, s.mediaWidth) else (s.mediaWidth, s.mediaHeight);
      && Field(s, page, index, total, 284) == Field(s, page, index, total, 288) == 0
      && Field(s, page, index, total, 292) == Field(s, page, index, total, 352) == (across as int) * 72 / 2540
      && Field(s, page, index, total, 296) == Field(s, page, index, total, 356) == (down as int) * 72 / 2540
      && Field(s, page, index, total, 428) == (if page.landscape then s.pointsHeight else s.pointsWidth)
      && Field(s, page, index, total, 432) == (if page.landscape then s.pointsWidth else s.pointsHeight)
  {
  }

  /** Duplex, tumble and the policy's settings; the image box is the whole page. */
  lemma PolicyFields(s: PageSettings, page: Page, index: nat, total: U32)
    requires page.Valid()
    ensures Field(s, page, index, total, 272) == (if s.sides == "one-sided" then 0 else 1)
    ensures Field(s, page, index, total, 276) == s.resolutionX && Field(s, page, index, total, 280) == s.resolutionY
    ensures Field(s, page, index, total, 324) == s.mediaSource && Field(s, page, index, total, 484) == s.printQuality
    ensures Field(s, page, index, total, 368) == (if s.sides == "two-sided-short-edge" then 1 else 0)
    ensures Field(s, page, index, total, 464) == Field(s, page, index, total, 468) == 0
    ensures Field(s, page, index, total, 472) == page.width && Field(s, page, index, total, 476) == page.height
    ensures Field(s, page, index, total, 480) == 0xff_ffff
  {
    EarlyWords(s, page, index, total);
    LateWords(s, page, index, total);
    hide HeaderWords, Field;
    forall k | 0 <= k < WORDS
      ensures Field(s, page, index, total, WORDS_AT + 4 * k) == HeaderWords(s, page, index, total)[k]
    {
      FieldWord(s, page, index, total, k);
    }
  }

  lemma FieldWord(s: PageSettings, page: Page, index: nat, total: U32, k: nat)
    requires page.Valid() && k < WORDS
    ensures Field(s, page, index, total, WORDS_AT + 4 * k) == HeaderWords(s, page, index, total)[k]
  {
    hide HeaderWords;
  }

  lemma EarlyWords(s: PageSettings, page: Page, index: nat, total: U32)
    requires page.Valid()
    ensures var w := HeaderWords(s, page, index, total);
      && w[0] == Flag(s.sides != "one-sided") && w[1] == s.resolutionX && w[2] == s.resolutionY
      && w[13] == s.mediaSource && w[24] == Flag(s.sides == "two-sided-short-edge")
  {
  }

  lemma LateWords(s: PageSettings, page: Page, index: nat, total: U32)
    requires page.Valid()
    ensures var w := HeaderWords(s, page, index, total);
      && w[48] == w[49] == 0 && w[50] == page.width && w[51] == page.height && w[52] == 0xff_ffff && w[53] == s.printQuality
  {
  }

  /**
   Only the back sides of a duplex document are transformed, and a mirrored axis is minus one: for
   long-edge sheets "flipped" turns the feed axis and "rotated" both, for short-edge sheets "flipped"
   turns the cross-feed axis and "manual-tumble" both.
   */
  lemma TransformFields(s: PageSettings, page: Page, index: nat, total: U32)
    requires page.Valid()
    ensures var (cross, feed) := (Field(s, page, index, total, 456), Field(s, page, index, total, 460));
      var back, tumble := s.sides != "one-sided" && index % 2 == 1, s.sides == "two-sided-short-edge";
      && (cross == 0xffff_ffff <==>
            back && if tumble then s.sheetBack == "flipped" || s.sheetBack == "manual-tumble" else s.sheetBack == "rotated")
      && (feed == 0xffff_ffff <==>
            back && if tumble then s.sheetBack == "manual-tumble" else s.sheetBack == "flipped" || s.sheetBack == "rotated")
      && (cross == 1 || cross == 0xffff_ffff) && (feed == 1 || feed == 0xffff_ffff)
  {
  }

  /** Patching the page count turns the provisional header into the final one. */
  lemma HeaderPatch(s: PageSettings, page: Page, index: nat, was: U32, total: U32)
    requires page.Valid()
    ensures Patch(Header(s, page, index, was), TOTAL_PAGES, Word(total)) == Header(s, page, index, total)
  {
    FramePatch(s, HeaderWords(s, page, index, was), TOTAL_PAGES, total);
    assert Put(HeaderWords(s, page, index, was), TOTAL_PAGES, total) == HeaderWords(s, page, index, total);
  }

  lemma {:induction false} FlatZeros(n: nat)
    ensures Flat(seq(n, _ => 0 as U32)) == Fill(0, 4 * n)
  {
    if n > 0 {
      FlatZeros(n - 1);
      assert seq(n, _ => 0 as U32)[1..] == seq(n - 1, _ => 0 as U32);
    }
  }

  /** The three text fields over zeros are the frame with blank words. */
  lemma FrameBlank(s: PageSettings)
    ensures Patch(Patch(Patch(Fill(0, PWG_PAGE_HEADER), 0, PWG_RASTER), 128, Text(s.mediaType)), 1732, Text(s.mediaName))
         == Frame(s, BlankWords())
  {
    FlatZeros(WORDS);
    assert BlankWords() == seq(WORDS, _ => 0 as U32);
    PatchedTexts(PWG_RASTER, Text(s.mediaType), Text(s.mediaName));
    hide Flat, Patch, Pad, Text, Fill;
  }

  lemma PatchedTexts(a: seq<Byte>, b: seq<Byte>, c: seq<Byte>)
    requires |a| <= 128 && |b| <= 144 && |c| <= 64
    ensures Patch(Patch(Patch(Fill(0, PWG_PAGE_HEADER), 0, a), 128, b), 1732, c)
         == (Pad(a, 128) + Pad(b, 144)) + (Fill(0, 4 * WORDS) + (Fill(0, 1244) + Pad(c, 64)))
  {
    hide Patch, Fill;
  }
}
