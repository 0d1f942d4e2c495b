/**
 The two raster formats as a reader sees them.  Both readers share the packet grammar of
 PWG 5102.4-2012, section 4 (with the clear-to-end-of-line opcode 0x80), and work in whole
 pixels.  Nothing here knows how a translator moves the bytes.
 */
module RasterReaders {
  import opened Basics
  import opened Bytes

  const URF_FILE_HEADER: nat := 12
  const URF_PAGE_HEADER: nat := 32
  const PWG_PAGE_HEADER: nat := 1796

  const UNIR: seq<Byte> := [0x55, 0x4e, 0x49, 0x52]
  const RINU: seq<Byte> := [0x52, 0x49, 0x4e, 0x55]
  const RAS2: seq<Byte> := [0x52, 0x61, 0x53, 0x32]

  datatype Colour = Gray | SRGB | DeviceRGB {
    /** The bytes that px pixels take: one each in gray, three each in colour. */
    function Bytes(px: nat): nat {
      if Gray? then px else 3 * px
    }
  }

  /** How a page is to be printed: its resolution across and down, and whether and how it is duplexed. */
  datatype Setup = Setup(across: nat, down: nat, duplex: bool, tumble: bool)

  /** One decoded page. */
  datatype Raster = Raster(colour: Colour, width: nat, height: nat, setup: Setup, pixels: seq<Byte>)

  /** A page of a PWG stream, with the document page count its header announces. */
  datatype PwgPage = PwgPage(raster: Raster, totalPages: nat)

  datatype Decoded = Decoded(pixels: seq<Byte>, end: nat) | Truncated

  /** n copies of a pixel or of a row. */
  function Repeat(s: seq<Byte>, n: nat): seq<Byte> {
    if n == 0 then [] else s + Repeat(s, n - 1)
  }

  lemma {:induction false} RepeatLength(s: seq<Byte>, n: nat)
    ensures |Repeat(s, n)| == n * |s|
  {
    if n > 0 {
      RepeatLength(s, n - 1);
    }
  }

  /** One packet: the pixels it stands for, how many there are, and where it ends. */
  datatype Packet = Packet(pixels: seq<Byte>, count: nat, end: nat) | NoPacket

  /** What control byte c stands for, clipped to the px pixels left on the line. */
  function PacketCount(c: Byte, px: nat): nat {
    if c == 0x80 then px else Min(if c > 0x80 then 257 - c else c as int + 1, px)
  }

  function PacketPayload(c: Byte, colour: Colour, px: nat): nat {
    if c == 0x80 then 0 else if c > 0x80 then colour.Bytes(PacketCount(c, px)) else colour.Bytes(1)
  }

  function PacketPixels(c: Byte, payload: seq<Byte>, colour: Colour, px: nat): seq<Byte> {
    if c == 0x80 then Fill(0xff, colour.Bytes(px))
    else if c > 0x80 then payload
    else Repeat(payload, PacketCount(c, px))
  }

  /** The packet at index i of a line with px > 0 pixels left. */
  function ReadPacket(s: seq<Byte>, i: nat, colour: Colour, px: nat): (p: Packet)
    requires px > 0
    ensures p.Packet? ==> 0 < p.count <= px && i < p.end <= |s|
  {
    if i >= |s| then NoPacket
    else
      var end := i + 1 + PacketPayload(s[i], colour, px);
      if end > |s| then NoPacket
      else Packet(PacketPixels(s[i], s[i + 1..end], colour, px), PacketCount(s[i], px), end)
  }

  /** Decodes the packets of one line of px pixels, starting at index i. */
  function DecodeLine(s: seq<Byte>, i: nat, colour: Colour, px: nat): (d: Decoded)
    ensures d.Decoded? ==> i <= d.end && (d.end <= |s| || d.end == i)
    decreases px
  {
    if px == 0 then Decoded([], i)
    else
      var p := ReadPacket(s, i, colour, px);
      if p.NoPacket? then Truncated
      else
        var rest := DecodeLine(s, p.end, colour, px - p.count);
        if rest.Truncated? then Truncated else Decoded(p.pixels + rest.pixels, rest.end)
  }

  /** One line with its repeat byte: the rows it stands for, clipped to the rows left. */
  function ReadRowGroup(s: seq<Byte>, i: nat, colour: Colour, width: nat, rows: nat): (p: Packet)
    requires rows > 0
    ensures p.Packet? ==> 0 < p.count <= rows && i < p.end <= |s|
  {
    if i >= |s| then NoPacket
    else
      var line := DecodeLine(s, i + 1, colour, width);
      if line.Truncated? then NoPacket
      else
        var count := Min(s[i] as int + 1, rows);
        Packet(Repeat(line.pixels, count), count, line.end)
  }

  /** Decodes lines until the given number of rows is full. */
  function DecodeRows(s: seq<Byte>, i: nat, colour: Colour, width: nat, rows: nat): (d: Decoded)
    ensures d.Decoded? ==> i <= d.end && (d.end <= |s| || d.end == i)
    decreases rows
  {
    if rows == 0 then Decoded([], i)
    else
      var p := ReadRowGroup(s, i, colour, width, rows);
      if p.NoPacket? then Truncated
      else
        var rest := DecodeRows(s, p.end, colour, width, rows - p.count);
        if rest.Truncated? then Truncated else Decoded(p.pixels + rest.pixels, rest.end)
  }

  function UrfColour(space: Byte, bits: Byte): Option<Colour> {
    match (space, bits)
    case (0, 8) => Some(Gray)
    case (1, 24) => Some(SRGB)
    case (5, 24) => Some(DeviceRGB)
    case _ => None
  }

  function PwgColour(space: U32, bits: U32): Option<Colour> {
    match (space, bits)
    case (18, 8) => Some(Gray)
    case (19, 24) => Some(SRGB)
    case (1, 24) => Some(DeviceRGB)
    case _ => None
  }

  /** An Apple raster page has one resolution; its duplex mode is 2 for short-edge and more for long-edge binding. */
  function UrfSetup(s: seq<Byte>, i: nat): Setup
    requires i + URF_PAGE_HEADER <= |s|
  {
    var resolution := WordAt(s, i + 20);
    Setup(resolution, resolution, s[i + 2] >= 2, s[i + 2] == 2)
  }

  /** Pages of an Apple raster stream from index i; a short suffix ends the document. */
  function ReadUrfPages(s: seq<Byte>, i: nat): Option<seq<Raster>>
    decreases |s| - i
  {
    if i + URF_PAGE_HEADER > |s| then Some([])
    else
      var colour := UrfColour(s[i + 1], s[i]);
      if colour.None? then None
      else
        var width, height := WordAt(s, i + 12), WordAt(s, i + 16);
        var d := DecodeRows(s, i + URF_PAGE_HEADER, colour.value, width, height);
        if d.Truncated? then None
        else
          var rest := ReadUrfPages(s, d.end);
          if rest.None? then None
          else Some([Raster(colour.value, width, height, UrfSetup(s, i), d.pixels)] + rest.value)
  }

  function ReadUrf(s: seq<Byte>): Option<seq<Raster>> {
    if |s| < URF_FILE_HEADER || (s[..4] != UNIR && s[..4] != RINU) then None
    else ReadUrfPages(s, URF_FILE_HEADER)
  }

  /** Duplex, the two resolutions and tumble, in their fields of table 2 of PWG 5102.4-2012. */
  function PwgSetup(s: seq<Byte>, i: nat): Setup
    requires i + PWG_PAGE_HEADER <= |s|
  {
    Setup(WordAt(s, i + 276), WordAt(s, i + 280), WordAt(s, i + 272) == 1, WordAt(s, i + 368) == 1)
  }

  /**
   The fields of a PWG page header (PWG 5102.4-2012, table 2) that decide how the page is
   read: the layout must be chunked, eight bits a colour, its line length must be the width in
   whole pixels, and duplex and tumble must be boolean.
   */
  function ReadPwgHeader(s: seq<Byte>, i: nat): Option<Colour>
    requires i + PWG_PAGE_HEADER <= |s|
  {
    var colour := PwgColour(WordAt(s, i + 400), WordAt(s, i + 388));
    if colour.None? then None
    else if WordAt(s, i + 272) > 1 || WordAt(s, i + 368) > 1 then None
    else if WordAt(s, i + 384) != 8 || WordAt(s, i + 396) != 0 then None
    else if WordAt(s, i + 420) != colour.value.Bytes(1) then None
    else if WordAt(s, i + 392) != colour.value.Bytes(WordAt(s, i + 372)) then None
    else colour
  }

  function ReadPwgPages(s: seq<Byte>, i: nat): Option<seq<PwgPage>>
    decreases |s| - i
  {
    if i == |s| then Some([])
    else if i + PWG_PAGE_HEADER > |s| then None
    else
      var colour := ReadPwgHeader(s, i);
      if colour.None? then None
      else
        var width, height := WordAt(s, i + 372), WordAt(s, i + 376);
        var d := DecodeRows(s, i + PWG_PAGE_HEADER, colour.value, width, height);
        if d.Truncated? then None
        else
          var rest := ReadPwgPages(s, d.end);
          if rest.None? then None
          else Some([PwgPage(Raster(colour.value, width, height, PwgSetup(s, i), d.pixels), WordAt(s, i + 452))] + rest.value)
  }

  function ReadPwg(s: seq<Byte>): Option<seq<PwgPage>> {
    if |s| < 4 || s[..4] != RAS2 then None else ReadPwgPages(s, 4)
  }

  /** What a packet, a line or a page decodes to depends on its own bytes, not on where they stand. */
  lemma ReadPacketElsewhere(s: seq<Byte>, i: nat, t: seq<Byte>, j: nat, n: nat, colour: Colour, px: nat)
    requires px > 0 && Agree(s, i, t, j, n)
    requires ReadPacket(s, i, colour, px).Packet? && ReadPacket(s, i, colour, px).end <= i + n
    ensures ReadPacket(t, j, colour, px) == ReadPacket(s, i, colour, px).(end := ReadPacket(s, i, colour, px).end - i + j)
  {
    hide PacketPixels, PacketCount, PacketPayload, Agree;
    AgreeHead(s, i, t, j, n);
    var payload := PacketPayload(s[i], colour, px);
    AgreeWithin(s, i, t, j, n, 1, payload);
    AgreeIsEqualSlices(s, i + 1, t, j + 1, payload);
  }

  lemma {:induction false} DecodeLineElsewhere(s: seq<Byte>, i: nat, t: seq<Byte>, j: nat, n: nat, colour: Colour, px: nat)
    requires Agree(s, i, t, j, n)
    requires DecodeLine(s, i, colour, px).Decoded? && DecodeLine(s, i, colour, px).end <= i + n
    ensures DecodeLine(t, j, colour, px)
         == Decoded(DecodeLine(s, i, colour, px).pixels, DecodeLine(s, i, colour, px).end - i + j)
    decreases px
  {
    hide ReadPacket, Agree;
    if px > 0 {
      var p := ReadPacket(s, i, colour, px);
      ReadPacketElsewhere(s, i, t, j, n, colour, px);
      var used := p.end - i;
      AgreeWithin(s, i, t, j, n, used, n - used);
      DecodeLineElsewhere(s, p.end, t, j + used, n - used, colour, px - p.count);
    }
  }

  lemma RowGroupUnfolds(s: seq<Byte>, i: nat, colour: Colour, width: nat, rows: nat)
    requires rows > 0
    ensures ReadRowGroup(s, i, colour, width, rows).Packet? <==> i < |s| && DecodeLine(s, i + 1, colour, width).Decoded?
    ensures i < |s| && DecodeLine(s, i + 1, colour, width).Decoded? ==>
              var line, count := DecodeLine(s, i + 1, colour, width), Min(s[i] as int + 1, rows);
              ReadRowGroup(s, i, colour, width, rows) == Packet(Repeat(line.pixels, count), count, line.end)
  {
    hide DecodeLine, Repeat;
  }

  lemma {:induction false} ReadRowGroupElsewhere(s: seq<Byte>, i: nat, t: seq<Byte>, j: nat, n: nat, colour: Colour, width: nat, rows: nat)
    requires rows > 0 && Agree(s, i, t, j, n)
    requires ReadRowGroup(s, i, colour, width, rows).Packet? && ReadRowGroup(s, i, colour, width, rows).end <= i + n
    ensures ReadRowGroup(t, j, colour, width, rows)
         == ReadRowGroup(s, i, colour, width, rows).(end := ReadRowGroup(s, i, colour, width, rows).end - i + j)
  {
    RowGroupUnfolds(s, i, colour, width, rows);
    RowGroupUnfolds(t, j, colour, width, rows);
    hide ReadRowGroup, DecodeLine, Agree, Repeat, Min;
    AgreeHead(s, i, t, j, n);
    var line := DecodeLine(s, i + 1, colour, width);
    assert line.Decoded? && ReadRowGroup(s, i, colour, width, rows).end == line.end <= i + n;
    AgreeWithin(s, i, t, j, n, 1, n - 1);
    DecodeLineElsewhere(s, i + 1, t, j + 1, n - 1, colour, width);
  }

  lemma {:induction false} DecodeRowsElsewhere(s: seq<Byte>, i: nat, t: seq<Byte>, j: nat, n: nat, colour: Colour, width: nat, rows: nat)
    requires Agree(s, i, t, j, n)
    requires DecodeRows(s, i, colour, width, rows).Decoded? && DecodeRows(s, i, colour, width, rows).end <= i + n
    ensures DecodeRows(t, j, colour, width, rows)
         == Decoded(DecodeRows(s, i, colour, width, rows).pixels, DecodeRows(s, i, colour, width, rows).end - i + j)
    decreases rows
  {
    hide ReadRowGroup, Agree;
    if rows > 0 {
      var p := ReadRowGroup(s, i, colour, width, rows);
      ReadRowGroupElsewhere(s, i, t, j, n, colour, width, rows);
      var used := p.end - i;
      AgreeWithin(s, i, t, j, n, used, n - used);
      DecodeRowsElsewhere(s, p.end, t, j + used, n - used, colour, width, rows - p.count);
    }
  }
}
