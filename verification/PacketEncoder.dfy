/**
 The run-length printer that the raster fixtures are made with, proved against the reader of
 the same packet grammar.
 */
module PacketEncoder {
  import opened Bytes
  import opened RasterReaders

  /** A packet as a printer means it: n equal pixels, or n pixels one by one. */
  datatype Chunk = Run(n: nat, pixel: seq<Byte>) | Literal(n: nat, pixels: seq<Byte>) {
    predicate Valid(colour: Colour) {
      && 1 <= n <= 128
      && (Run? ==> |pixel| == colour.Bytes(1))
      && (Literal? ==> |pixels| == colour.Bytes(n))
    }

    /** A literal of one pixel wraps to control byte 0, which a reader takes for a run of one. */
    function Print(): seq<Byte>
      requires n >= 1
    {
      match this
      case Run(n, pixel) => [(n - 1) % 256] + pixel
      case Literal(n, pixels) => [(257 - n) % 256] + pixels
    }

    function Pixels(): seq<Byte> {
      match this
      case Run(n, pixel) => Repeat(pixel, n)
      case Literal(_, pixels) => pixels
    }
  }

  predicate AllValid(chunks: seq<Chunk>, colour: Colour) {
    forall k :: 0 <= k < |chunks| ==> chunks[k].Valid(colour)
  }

  function PrintAll(chunks: seq<Chunk>, colour: Colour): seq<Byte>
    requires AllValid(chunks, colour)
  {
    if chunks == [] then [] else chunks[0].Print() + PrintAll(chunks[1..], colour)
  }

  function PixelsOf(chunks: seq<Chunk>): seq<Byte> {
    if chunks == [] then [] else chunks[0].Pixels() + PixelsOf(chunks[1..])
  }

  function CountOf(chunks: seq<Chunk>): nat {
    if chunks == [] then 0 else chunks[0].n + CountOf(chunks[1..])
  }

  lemma {:induction false} Appended(chunks: seq<Chunk>, c: Chunk, colour: Colour)
    requires AllValid(chunks, colour) && c.Valid(colour)
    ensures AllValid(chunks + [c], colour)
    ensures PrintAll(chunks + [c], colour) == PrintAll(chunks, colour) + c.Print()
    ensures PixelsOf(chunks + [c]) == PixelsOf(chunks) + c.Pixels()
    ensures CountOf(chunks + [c]) == CountOf(chunks) + c.n
  {
    hide Chunk.Print, Chunk.Pixels;
    var all := chunks + [c];
    assert forall k :: 0 <= k < |all| ==> all[k] == (if k < |chunks| then chunks[k] else c);
    if chunks == [] {
      assert all == [c] && all[1..] == [];
    } else {
      Appended(chunks[1..], c, colour);
      assert all[0] == chunks[0] && all[1..] == chunks[1..] + [c];
    }
  }

  lemma RepeatOnce(s: seq<Byte>)
    ensures Repeat(s, 1) == s
  {
    assert Repeat(s, 1) == s + Repeat(s, 0);
  }

  /** One printed packet is read back whole wherever enough pixels are left on the line. */
  lemma ChunkReads(c: Chunk, s: seq<Byte>, i: nat, colour: Colour, px: nat)
    requires c.Valid(colour) && c.n <= px
    requires i + |c.Print()| <= |s| && s[i..i + |c.Print()|] == c.Print()
    ensures ReadPacket(s, i, colour, px) == Packet(c.Pixels(), c.n, i + |c.Print()|)
  {
    hide Repeat, PacketPixels;
    var printed := c.Print();
    assert s[i] == s[i..i + |printed|][0] == printed[0];
    assert s[i + 1..i + |printed|] == s[i..i + |printed|][1..] == printed[1..];
    PrintedPayload(c, colour, px);
  }

  lemma PrintedPayload(c: Chunk, colour: Colour, px: nat)
    requires c.Valid(colour) && c.n <= px
    ensures PacketCount(c.Print()[0], px) == c.n
    ensures PacketPayload(c.Print()[0], colour, px) == |c.Print()| - 1
    ensures PacketPixels(c.Print()[0], c.Print()[1..], colour, px) == c.Pixels()
  {
    hide Repeat;
    if c.Literal? {
      assert c.Print()[1..] == c.pixels;
      RepeatOnce(c.pixels);
    } else {
      assert c.Print()[1..] == c.pixel;
    }
  }

  /** Reading is the inverse of printing, for every sequence of packets. */
  lemma {:induction false} PrintedReads(chunks: seq<Chunk>, s: seq<Byte>, i: nat, colour: Colour)
    requires AllValid(chunks, colour)
    requires i + |PrintAll(chunks, colour)| <= |s|
    requires s[i..i + |PrintAll(chunks, colour)|] == PrintAll(chunks, colour)
    ensures DecodeLine(s, i, colour, CountOf(chunks))
         == Decoded(PixelsOf(chunks), i + |PrintAll(chunks, colour)|)
  {
    hide ReadPacket, Chunk.Print, Chunk.Pixels;
    if chunks != [] {
      var c, all := chunks[0], PrintAll(chunks, colour);
      var rest := PrintAll(chunks[1..], colour);
      var n := |c.Print()|;
      assert all == c.Print() + rest;
      assert s[i..i + n] == s[i..i + |all|][..n] == c.Print();
      assert s[i + n..i + n + |rest|] == s[i..i + |all|][n..] == rest;
      ChunkReads(c, s, i, colour, CountOf(chunks));
      PrintedReads(chunks[1..], s, i + n, colour);
    }
  }

  /** Pixels from..end of a row. */
  function Span(row: seq<Byte>, colour: Colour, from: nat, end: nat): (s: seq<Byte>)
    requires from <= end && colour.Bytes(end) <= |row|
    ensures |s| == colour.Bytes(end - from)
  {
    row[colour.Bytes(from)..colour.Bytes(end)]
  }

  function PixelAt(row: seq<Byte>, colour: Colour, x: nat): (s: seq<Byte>)
    requires colour.Bytes(x + 1) <= |row|
    ensures |s| == colour.Bytes(1)
  {
    Span(row, colour, x, x + 1)
  }

  lemma SpanSplit(row: seq<Byte>, colour: Colour, from: nat, end: nat)
    requires from < end && colour.Bytes(end) <= |row|
    ensures Span(row, colour, from, end) == PixelAt(row, colour, from) + Span(row, colour, from + 1, end)
    ensures end == from + 1 ==> Span(row, colour, from, end) == PixelAt(row, colour, from)
  {
    SliceJoin(row, colour.Bytes(from), colour.Bytes(from + 1), colour.Bytes(end));
  }

  lemma {:induction false} EqualPixelsRepeat(row: seq<Byte>, colour: Colour, from: nat, end: nat)
    requires from < end && colour.Bytes(end) <= |row|
    requires forall k :: from <= k < end ==> PixelAt(row, colour, k) == PixelAt(row, colour, from)
    ensures Repeat(PixelAt(row, colour, from), end - from) == Span(row, colour, from, end)
    decreases end - from
  {
    hide Span, PixelAt;
    var pixel := PixelAt(row, colour, from);
    SpanSplit(row, colour, from, end);
    if end - from == 1 {
      RepeatOnce(pixel);
    } else {
      assert PixelAt(row, colour, from + 1) == pixel;
      EqualPixelsRepeat(row, colour, from + 1, end);
      assert Repeat(pixel, end - from) == pixel + Repeat(pixel, end - from - 1);
    }
  }

  /** The chunks printed so far stand for the first x pixels of the row. */
  ghost predicate Covers(chunks: seq<Chunk>, out: seq<Byte>, row: seq<Byte>, colour: Colour, x: nat)
    requires colour.Bytes(x) <= |row|
  {
    && AllValid(chunks, colour)
    && out == PrintAll(chunks, colour)
    && PixelsOf(chunks) == Span(row, colour, 0, x)
    && CountOf(chunks) == x
  }

  lemma CoversMore(chunks: seq<Chunk>, out: seq<Byte>, row: seq<Byte>, colour: Colour, x: nat, c: Chunk)
    requires c.Valid(colour) && colour.Bytes(x + c.n) <= |row|
    requires Covers(chunks, out, row, colour, x) && c.Pixels() == Span(row, colour, x, x + c.n)
    ensures Covers(chunks + [c], out + c.Print(), row, colour, x + c.n)
  {
    Appended(chunks, c, colour);
    SliceJoin(row, 0, colour.Bytes(x), colour.Bytes(x + c.n));
  }

  lemma CoveredReads(chunks: seq<Chunk>, out: seq<Byte>, row: seq<Byte>, colour: Colour, width: nat)
    requires |row| == colour.Bytes(width) && Covers(chunks, out, row, colour, width)
    ensures DecodeLine(out, 0, colour, width) == Decoded(row, |out|)
  {
    PrintedReads(chunks, out, 0, colour);
    assert Span(row, colour, 0, width) == row;
  }

  lemma CoversNothing(row: seq<Byte>, colour: Colour)
    ensures Covers([], [], row, colour, 0)
  {
  }

  /** No literal holds two equal neighbours: every repeated pixel is run-length coded. */
  ghost predicate Thrifty(chunks: seq<Chunk>, colour: Colour) {
    forall k :: 0 <= k < |chunks| && chunks[k].Literal? ==> NoEqualNeighbours(chunks[k].pixels, colour, chunks[k].n)
  }

  ghost predicate NoEqualNeighbours(pixels: seq<Byte>, colour: Colour, n: nat) {
    |pixels| == colour.Bytes(n) && forall k :: 0 <= k < n - 1 ==> PixelAt(pixels, colour, k) != PixelAt(pixels, colour, k + 1)
  }

  /** The pixel at x differs from the next one, or is the last of the row. */
  predicate EndsRun(row: seq<Byte>, colour: Colour, width: nat, x: nat)
    requires |row| == colour.Bytes(width) && x < width
  {
    x + 1 == width || PixelAt(row, colour, x) != PixelAt(row, colour, x + 1)
  }

  method RunLength(row: seq<Byte>, colour: Colour, width: nat, x: nat) returns (n: nat)
    requires |row| == colour.Bytes(width) && x < width
    ensures 1 <= n <= 128 && x + n <= width
    ensures forall k :: x <= k < x + n ==> PixelAt(row, colour, k) == PixelAt(row, colour, x)
    ensures n == 128 || x + n == width || PixelAt(row, colour, x + n) != PixelAt(row, colour, x)
  {
    hide PixelAt;
    n := 1;
    while x + n < width && n < 128 && PixelAt(row, colour, x) == PixelAt(row, colour, x + n)
      invariant 1 <= n <= 128 && x + n <= width
      invariant forall k :: x <= k < x + n ==> PixelAt(row, colour, k) == PixelAt(row, colour, x)
    {
      n := n + 1;
    }
  }

  method LiteralEnd(row: seq<Byte>, colour: Colour, width: nat, start: nat) returns (x: nat)
    requires |row| == colour.Bytes(width) && start < width && EndsRun(row, colour, width, start)
    ensures start < x <= width && x - start <= 128
    ensures forall k :: start <= k < x ==> EndsRun(row, colour, width, k)
    ensures x == width || x - start == 128 || !EndsRun(row, colour, width, x)
  {
    hide EndsRun;
    x := start + 1;
    while x < width && x - start < 128 && EndsRun(row, colour, width, x)
      invariant start < x <= width && x - start <= 128
      invariant forall k :: start <= k < x ==> EndsRun(row, colour, width, k)
    {
      x := x + 1;
    }
  }

  lemma PixelOfSpan(row: seq<Byte>, colour: Colour, from: nat, end: nat, k: nat)
    requires from <= end && colour.Bytes(end) <= |row| && k < end - from
    ensures PixelAt(Span(row, colour, from, end), colour, k) == PixelAt(row, colour, from + k)
  {
    var a, b, c, d := colour.Bytes(from), colour.Bytes(end), colour.Bytes(k), colour.Bytes(k + 1);
    assert colour.Bytes(from + k) == a + c && colour.Bytes(from + k + 1) == a + d;
    SliceOfSlice(row, a, b, c, d);
  }

  lemma LiteralIsThrifty(row: seq<Byte>, colour: Colour, width: nat, start: nat, end: nat)
    requires |row| == colour.Bytes(width) && start < end <= width
    requires forall k :: start <= k < end ==> EndsRun(row, colour, width, k)
    ensures NoEqualNeighbours(Span(row, colour, start, end), colour, end - start)
  {
    hide PixelAt, Span;
    var pixels := Span(row, colour, start, end);
    forall k | 0 <= k < end - start - 1
      ensures PixelAt(pixels, colour, k) != PixelAt(pixels, colour, k + 1)
    {
      assert EndsRun(row, colour, width, start + k);
      PixelOfSpan(row, colour, start, end, k);
      PixelOfSpan(row, colour, start, end, k + 1);
    }
  }

  /**
   Mode "runs": a run of two to 128 equal pixels becomes a run packet; otherwise a literal is
   extended until an equal pair starts.
   */
  method EncodeRuns(row: seq<Byte>, colour: Colour, width: nat) returns (out: seq<Byte>, ghost chunks: seq<Chunk>)
    requires |row| == colour.Bytes(width)
    ensures DecodeLine(out, 0, colour, width) == Decoded(row, |out|)
    ensures Covers(chunks, out, row, colour, width) && Thrifty(chunks, colour)
  {
    hide Covers, DecodeLine, CountOf, PixelsOf, PrintAll, AllValid, Repeat, NoEqualNeighbours, Span;
    out, chunks := [], [];
    var x := 0;
    CoversNothing(row, colour);
    while x < width
      invariant 0 <= x <= width
      invariant Covers(chunks, out, row, colour, x) && Thrifty(chunks, colour)
      decreases width - x
    {
      var n := RunLength(row, colour, width, x);
      ghost var c;
      if n >= 2 {
        c := Run(n, PixelAt(row, colour, x));
        EqualPixelsRepeat(row, colour, x, x + n);
        CoversMore(chunks, out, row, colour, x, c);
        out := out + ([(n - 1) % 256] + PixelAt(row, colour, x));
        x := x + n;
      } else {
        var start := x;
        x := LiteralEnd(row, colour, width, start);
        n := x - start;
        c := Literal(n, Span(row, colour, start, x));
        LiteralIsThrifty(row, colour, width, start, x);
        CoversMore(chunks, out, row, colour, start, c);
        out := out + ([(257 - n) % 256] + Span(row, colour, start, x));
      }
      chunks := chunks + [c];
    }
    CoveredReads(chunks, out, row, colour, width);
  }

  lemma {:induction false} RepeatAdds(s: seq<Byte>, a: nat, b: nat)
    ensures Repeat(s, a) + Repeat(s, b) == Repeat(s, a + b)
  {
    if a > 0 {
      RepeatAdds(s, a - 1, b);
      assert Repeat(s, a) + Repeat(s, b) == s + (Repeat(s, a - 1) + Repeat(s, b));
    }
  }

  /** Every pixel of the row equals its first one. */
  ghost predicate Uniform(row: seq<Byte>, colour: Colour, width: nat)
    requires |row| == colour.Bytes(width)
  {
    forall k :: 0 <= k < width ==> PixelAt(row, colour, k) == PixelAt(row, colour, 0)
  }

  /** Mode "solid" prints the first pixel as often as the row is wide, in runs of at most 128. */
  method EncodeSolid(row: seq<Byte>, colour: Colour, width: nat) returns (out: seq<Byte>)
    requires |row| == colour.Bytes(width)
    ensures width > 0 ==> DecodeLine(out, 0, colour, width) == Decoded(Repeat(PixelAt(row, colour, 0), width), |out|)
    ensures DecodeLine(out, 0, colour, width) == Decoded(row, |out|) <==> Uniform(row, colour, width)
  {
    hide DecodeLine, Repeat, PixelAt, PrintAll;
    out := [];
    ghost var chunks: seq<Chunk> := [];
    NothingPrinted(colour);
    var left := width;
    while left > 0
      invariant 0 <= left <= width
      invariant AllValid(chunks, colour) && out == PrintAll(chunks, colour) && CountOf(chunks) == width - left
      invariant width > 0 ==> PixelsOf(chunks) == Repeat(PixelAt(row, colour, 0), width - left)
    {
      var n := if left > 128 then 128 else left;
      var pixel := PixelAt(row, colour, 0);
      ghost var c := Run(n, pixel);
      Appended(chunks, c, colour);
      RepeatAdds(pixel, width - left, n);
      out := out + ([(n - 1) % 256] + pixel);
      chunks := chunks + [c];
      left := left - n;
    }
    PrintedReads(chunks, out, 0, colour);
    SolidIsUniform(row, colour, width);
  }

  lemma NothingPrinted(colour: Colour)
    ensures AllValid([], colour) && PrintAll([], colour) == [] && PixelsOf([]) == [] && CountOf([]) == 0
    ensures forall s :: Repeat(s, 0) == []
  {
  }

  lemma SolidIsUniform(row: seq<Byte>, colour: Colour, width: nat)
    requires |row| == colour.Bytes(width)
    ensures width > 0 ==> (Repeat(PixelAt(row, colour, 0), width) == row <==> Uniform(row, colour, width))
  {
    if width > 0 {
      var pixel := PixelAt(row, colour, 0);
      if Uniform(row, colour, width) {
        EqualPixelsRepeat(row, colour, 0, width);
        assert Span(row, colour, 0, width) == row;
      } else if Repeat(pixel, width) == row {
        forall k | 0 <= k < width
          ensures PixelAt(row, colour, k) == pixel
        {
          RepeatPixel(pixel, colour, width, k);
        }
      }
    }
  }

  lemma {:induction false} RepeatPixel(pixel: seq<Byte>, colour: Colour, n: nat, k: nat)
    requires |pixel| == colour.Bytes(1) && k < n
    ensures |Repeat(pixel, n)| == colour.Bytes(n) && PixelAt(Repeat(pixel, n), colour, k) == pixel
  {
    hide Repeat;
    RepeatLength(pixel, n);
    RepeatAdds(pixel, k, n - k);
    RepeatLength(pixel, k);
    RepeatLength(pixel, n - k - 1);
    RepeatUnfolds(pixel, n - k);
    assert Repeat(pixel, n) == Repeat(pixel, k) + (pixel + Repeat(pixel, n - k - 1));
  }

  lemma RepeatUnfolds(s: seq<Byte>, n: nat)
    requires n > 0
    ensures Repeat(s, n) == s + Repeat(s, n - 1)
  {
  }

  /** Mode "literal": the whole row behind one control byte, which the source truncates to a byte. */
  function EncodeLiteral(row: seq<Byte>, width: nat): seq<Byte> {
    [(257 - width) % 256] + row
  }

  /** One literal packet holds every row of a width exactly when the width is at most 128. */
  lemma LiteralFits(colour: Colour, width: nat)
    requires width > 0
    ensures (forall row :: |row| == colour.Bytes(width) ==>
               DecodeLine(EncodeLiteral(row, width), 0, colour, width) == Decoded(row, 1 + |row|))
       <==> width <= 128
  {
    hide DecodeLine;
    if width <= 128 {
      forall row: seq<Byte> | |row| == colour.Bytes(width)
        ensures DecodeLine(EncodeLiteral(row, width), 0, colour, width) == Decoded(row, 1 + |row|)
      {
        LiteralReads(row, colour, width);
      }
    } else {
      var row := Fill(0x80, colour.Bytes(width));
      WideLiteralMisreads(colour, width);
      assert DecodeLine(EncodeLiteral(row, width), 0, colour, width) != Decoded(row, 1 + |row|);
    }
  }

  lemma OneChunk(c: Chunk, colour: Colour)
    requires c.Valid(colour)
    ensures AllValid([c], colour) && PrintAll([c], colour) == c.Print() && PixelsOf([c]) == c.Pixels() && CountOf([c]) == c.n
  {
    hide Chunk.Print, Chunk.Pixels;
    assert [c][1..] == [];
    assert PrintAll([c], colour) == c.Print() + PrintAll([], colour);
    assert PixelsOf([c]) == c.Pixels() + PixelsOf([]);
  }

  lemma LiteralReads(row: seq<Byte>, colour: Colour, width: nat)
    requires 1 <= width <= 128 && |row| == colour.Bytes(width)
    ensures DecodeLine(EncodeLiteral(row, width), 0, colour, width) == Decoded(row, 1 + |row|)
  {
    hide DecodeLine, PrintAll, PixelsOf, CountOf;
    var c, out := Literal(width, row), EncodeLiteral(row, width);
    OneChunk(c, colour);
    PrintedReads([c], out, 0, colour);
  }

  /** A row of more than 128 pixels, all bytes 0x80, ends early: one of its bytes is read as clear-to-end. */
  lemma WideLiteralMisreads(colour: Colour, width: nat)
    requires width > 128
    ensures DecodeLine(EncodeLiteral(Fill(0x80, colour.Bytes(width)), width), 0, colour, width)
         != Decoded(Fill(0x80, colour.Bytes(width)), 1 + colour.Bytes(width))
  {
    var out := EncodeLiteral(Fill(0x80, colour.Bytes(width)), width);
    hide Repeat, EncodeLiteral;
    var p := ReadPacket(out, 0, colour, width);
    assert |out| == 1 + colour.Bytes(width) && forall k :: 1 <= k < |out| ==> out[k] == 0x80;
    assert p.Packet? && p.end < |out|;
    if p.count < width {
      var q := ReadPacket(out, p.end, colour, width - p.count);
      assert q.Packet? && q.end == p.end + 1 && q.count == width - p.count;
      assert DecodeLine(out, q.end, colour, 0).end == q.end;
    }
  }

  datatype Mode = Solid | Runs | LiteralMode

  datatype Line = Line(pixels: seq<Byte>, repeat: nat, mode: Mode)

  /** A line the printer is made for: a repeat count that fits a byte and a mode that fits the pixels. */
  ghost predicate Printable(line: Line, colour: Colour, width: nat) {
    && |line.pixels| == colour.Bytes(width)
    && 1 <= line.repeat <= 256
    && (line.mode.Solid? ==> Uniform(line.pixels, colour, width))
    && Legible(line.mode, width)
  }

  /** A literal packet holds between one and 128 pixels. */
  predicate Legible(mode: Mode, width: nat) {
    mode.LiteralMode? ==> 1 <= width <= 128
  }

  /** What a reader sees of a line: solid mode shows the first pixel only, and the repeat count is a byte. */
  function Seen(line: Line, colour: Colour, width: nat): (r: Line)
    requires |line.pixels| == colour.Bytes(width)
  {
    Line(if line.mode.Solid? && width > 0 then Repeat(PixelAt(line.pixels, colour, 0), width) else line.pixels,
         (line.repeat + 255) % 256 + 1, line.mode)
  }

  lemma SeenIsLine(line: Line, colour: Colour, width: nat)
    requires |line.pixels| == colour.Bytes(width)
    ensures |Seen(line, colour, width).pixels| == colour.Bytes(width) && 1 <= Seen(line, colour, width).repeat <= 256
    ensures Legible(line.mode, width) ==> (Seen(line, colour, width) == line <==> Printable(line, colour, width))
  {
    hide PixelAt, Repeat;
    SolidIsUniform(line.pixels, colour, width);
    if width > 0 {
      RepeatLength(PixelAt(line.pixels, colour, 0), width);
    }
  }

  method EncodePixels(row: seq<Byte>, colour: Colour, width: nat, mode: Mode) returns (out: seq<Byte>)
    requires |row| == colour.Bytes(width)
    ensures Legible(mode, width) ==> DecodeLine(out, 0, colour, width) == Decoded(Seen(Line(row, 1, mode), colour, width).pixels, |out|)
  {
    hide DecodeLine;
    match mode {
      case Solid =>
        out := EncodeSolid(row, colour, width);
      case Runs =>
        ghost var chunks;
        out, chunks := EncodeRuns(row, colour, width);
      case LiteralMode =>
        out := EncodeLiteral(row, width);
        if 1 <= width <= 128 {
          LiteralReads(row, colour, width);
        }
    }
  }

  predicate OfWidth(lines: seq<Line>, colour: Colour, width: nat) {
    forall k :: 0 <= k < |lines| ==> |lines[k].pixels| == colour.Bytes(width)
  }

  function SeenAll(lines: seq<Line>, colour: Colour, width: nat): (r: seq<Line>)
    requires OfWidth(lines, colour, width)
    ensures |r| == |lines| && forall k :: 0 <= k < |r| ==> r[k] == Seen(lines[k], colour, width)
  {
    seq(|lines|, k requires 0 <= k < |lines| => Seen(lines[k], colour, width))
  }

  function RowsOf(lines: seq<Line>): seq<Byte> {
    if lines == [] then [] else RowsOf(lines[..|lines| - 1]) + Repeat(lines[|lines| - 1].pixels, lines[|lines| - 1].repeat)
  }

  function HeightOf(lines: seq<Line>): nat {
    if lines == [] then 0 else HeightOf(lines[..|lines| - 1]) + lines[|lines| - 1].repeat
  }

  /** One more line on a page that reads whole. */
  lemma {:induction false} LineAppends(s: seq<Byte>, i: nat, line: Line, body: seq<Byte>, colour: Colour, width: nat, rows: nat, pixels: seq<Byte>)
    requires |line.pixels| == colour.Bytes(width) && 1 <= line.repeat <= 256
    requires i <= |s| && ReadsUnclipped(s, i, colour, width, rows)
    requires DecodeRows(s, i, colour, width, rows) == Decoded(pixels, |s|)
    requires DecodeLine(body, 0, colour, width) == Decoded(line.pixels, |body|)
    ensures ReadsUnclipped(s + ([line.repeat - 1] + body), i, colour, width, rows + line.repeat)
    ensures DecodeRows(s + ([line.repeat - 1] + body), i, colour, width, rows + line.repeat)
         == Decoded(pixels + Repeat(line.pixels, line.repeat), |s| + 1 + |body|)
    decreases rows
  {
    hide DecodeLine, Repeat, ReadRowGroup, DecodeRows, ReadsUnclipped;
    var t := s + ([line.repeat - 1] + body);
    RowsUnfold(s, i, colour, width, rows);
    RowsUnfold(t, i, colour, width, rows + line.repeat);
    if rows == 0 {
      LineReads(t, i, line, body, colour, width);
      RowsUnfold(t, |t|, colour, width, 0);
    } else {
      var p := ReadRowGroup(s, i, colour, width, rows);
      RowGroupStays(s, i, t, line.repeat, colour, width, rows);
      var rest := DecodeRows(s, p.end, colour, width, rows - p.count);
      LineAppends(s, p.end, line, body, colour, width, rows - p.count, rest.pixels);
    }
  }

  lemma RowsUnfold(s: seq<Byte>, i: nat, colour: Colour, width: nat, rows: nat)
    ensures rows == 0 ==> DecodeRows(s, i, colour, width, rows) == Decoded([], i) && ReadsUnclipped(s, i, colour, width, rows)
    ensures rows > 0 ==>
              var p := ReadRowGroup(s, i, colour, width, rows);
              && (DecodeRows(s, i, colour, width, rows).Decoded? <==>
                    p.Packet? && DecodeRows(s, p.end, colour, width, rows - p.count).Decoded?)
              && (DecodeRows(s, i, colour, width, rows).Decoded? ==>
                    var rest := DecodeRows(s, p.end, colour, width, rows - p.count);
                    DecodeRows(s, i, colour, width, rows) == Decoded(p.pixels + rest.pixels, rest.end))
              && (ReadsUnclipped(s, i, colour, width, rows) <==>
                    p.Packet? && s[i] < rows && ReadsUnclipped(s, p.end, colour, width, rows - p.count))
  {
    hide ReadRowGroup;
  }

  lemma LineReads(t: seq<Byte>, i: nat, line: Line, body: seq<Byte>, colour: Colour, width: nat)
    requires 1 <= line.repeat <= 256
    requires i <= |t| && t[i..] == [line.repeat - 1] + body
    requires DecodeLine(body, 0, colour, width) == Decoded(line.pixels, |body|)
    ensures ReadRowGroup(t, i, colour, width, line.repeat) == Packet(Repeat(line.pixels, line.repeat), line.repeat, |t|)
    ensures i < |t| && t[i] == line.repeat - 1
  {
    hide DecodeLine, Repeat, Agree;
    assert t[i] == t[i..][0];
    assert body[0..|body|] == body == t[i..][1..] == t[i + 1..i + 1 + |body|];
    AgreeIsEqualSlices(body, 0, t, i + 1, |body|);
    DecodeLineElsewhere(body, 0, t, i + 1, |body|, colour, width);
  }

  /** A line that the height does not cut reads alike when bytes and rows are added behind it. */
  lemma RowGroupStays(s: seq<Byte>, i: nat, t: seq<Byte>, more: nat, colour: Colour, width: nat, rows: nat)
    requires rows > 0 && s <= t && i < |s| && s[i] < rows
    requires ReadRowGroup(s, i, colour, width, rows).Packet?
    ensures ReadRowGroup(t, i, colour, width, rows + more) == ReadRowGroup(s, i, colour, width, rows)
    ensures t[i] == s[i]
  {
    hide DecodeLine, Repeat, Agree;
    var n := |s| - i;
    assert s[i..i + n] == t[i..i + n];
    AgreeIsEqualSlices(s, i, t, i, n);
    AgreeHead(s, i, t, i, n);
    AgreeWithin(s, i, t, i, n, 1, n - 1);
    DecodeLineElsewhere(s, i + 1, t, i + 1, n - 1, colour, width);
  }

  /** No line of the page is cut off by the page's height. */
  ghost predicate ReadsUnclipped(s: seq<Byte>, i: nat, colour: Colour, width: nat, rows: nat)
    decreases rows
  {
    rows > 0 ==>
      && ReadRowGroup(s, i, colour, width, rows).Packet?
      && s[i] < rows
      && ReadsUnclipped(s, ReadRowGroup(s, i, colour, width, rows).end, colour, width, rows - ReadRowGroup(s, i, colour, width, rows).count)
  }

  /**
   The printed page reads back as what its lines show, which is its rows, each as often as it repeats,
   exactly when every line is one the printer is made for.
   */
  method EncodeRows(lines: seq<Line>, colour: Colour, width: nat) returns (stream: seq<Byte>, pixels: seq<Byte>)
    requires OfWidth(lines, colour, width)
    ensures pixels == RowsOf(lines)
    ensures (forall k :: 0 <= k < |lines| ==> Legible(lines[k].mode, width)) ==>
              var seen := SeenAll(lines, colour, width);
              && DecodeRows(stream, 0, colour, width, HeightOf(seen)) == Decoded(RowsOf(seen), |stream|)
              && (seen == lines <==> forall k :: 0 <= k < |lines| ==> Printable(lines[k], colour, width))
  {
    hide DecodeRows, DecodeLine, PageReads, Repeat, Printable, Legible, Seen, HeightOf;
    ghost var seen := SeenAll(lines, colour, width);
    ghost var legible := forall k :: 0 <= k < |lines| ==> Legible(lines[k].mode, width);
    stream, pixels := [], [];
    NoLines(colour, width);
    for k := 0 to |lines|
      invariant pixels == RowsOf(lines[..k])
      invariant legible ==> PageReads(stream, seen[..k], colour, width)
    {
      var line := lines[k];
      assert lines[..k + 1][..k] == lines[..k];
      var body := EncodePixels(line.pixels, colour, width, line.mode);
      if legible {
        PageGrows(stream, seen[..k], line, body, colour, width);
        assert seen[..k + 1] == seen[..k] + [seen[k]];
      }
      stream := stream + ([(line.repeat + 255) % 256] + body);
      pixels := pixels + Repeat(line.pixels, line.repeat);
    }
    assert lines[..|lines|] == lines && seen[..|lines|] == seen;
    if legible {
      PageDecodes(stream, seen, colour, width);
      SeenAreLines(lines, colour, width);
    }
  }

  lemma SeenAreLines(lines: seq<Line>, colour: Colour, width: nat)
    requires OfWidth(lines, colour, width) && forall k :: 0 <= k < |lines| ==> Legible(lines[k].mode, width)
    ensures SeenAll(lines, colour, width) == lines <==> forall k :: 0 <= k < |lines| ==> Printable(lines[k], colour, width)
  {
    hide Legible, Printable, Seen;
    var seen := SeenAll(lines, colour, width);
    forall k | 0 <= k < |lines|
      ensures seen[k] == lines[k] <==> Printable(lines[k], colour, width)
    {
      SeenIsLine(lines[k], colour, width);
    }
  }

  /** The bytes of a page read back as some lines, none of them cut. */
  ghost predicate PageReads(stream: seq<Byte>, seen: seq<Line>, colour: Colour, width: nat) {
    && ReadsUnclipped(stream, 0, colour, width, HeightOf(seen))
    && DecodeRows(stream, 0, colour, width, HeightOf(seen)) == Decoded(RowsOf(seen), |stream|)
  }

  lemma PageDecodes(stream: seq<Byte>, seen: seq<Line>, colour: Colour, width: nat)
    requires PageReads(stream, seen, colour, width)
    ensures DecodeRows(stream, 0, colour, width, HeightOf(seen)) == Decoded(RowsOf(seen), |stream|)
  {
  }

  lemma PageGrows(stream: seq<Byte>, seen: seq<Line>, line: Line, body: seq<Byte>, colour: Colour, width: nat)
    requires PageReads(stream, seen, colour, width) && |line.pixels| == colour.Bytes(width)
    requires DecodeLine(body, 0, colour, width) == Decoded(Seen(Line(line.pixels, 1, line.mode), colour, width).pixels, |body|)
    ensures PageReads(stream + ([(line.repeat + 255) % 256] + body), seen + [Seen(line, colour, width)], colour, width)
  {
    hide DecodeRows, DecodeLine, ReadsUnclipped, Repeat, Seen, Printable, Legible;
    var r := Seen(line, colour, width);
    SeenIsLine(line, colour, width);
    SeenOnce(line, colour, width);
    LineAppends(stream, 0, r, body, colour, width, HeightOf(seen), RowsOf(seen));
    assert (seen + [r])[..|seen|] == seen;
  }

  lemma SeenOnce(line: Line, colour: Colour, width: nat)
    requires |line.pixels| == colour.Bytes(width)
    ensures Seen(line, colour, width).pixels == Seen(Line(line.pixels, 1, line.mode), colour, width).pixels
    ensures Seen(line, colour, width).repeat == (line.repeat + 255) % 256 + 1
  {
    hide PixelAt, Repeat;
  }

  lemma NoLines(colour: Colour, width: nat)
    ensures PageReads([], [], colour, width)
  {
  }
}
