/**
 PNG assembly (src/fixtures/demo-v2-images.ts) and its reader (`pngDimensions` of
 src/fixtures/demo-v2-render-fixture.ts), with the chunk layout of section 3.2 of RFC 2083.
 Buffers are arrays written in place at a moving offset; `deflateSync` is an arbitrary function.
 */
module Png {
  import opened Wrappers
  import opened Bits
  import opened Crc32

  const SIGNATURE: seq<Byte> := [0x89, 0x50, 0x4e, 0x47, 0x0d, 0x0a, 0x1a, 0x0a]
  const IHDR: seq<Byte> := [0x49, 0x48, 0x44, 0x52]
  const IDAT: seq<Byte> := [0x49, 0x44, 0x41, 0x54]
  const IEND: seq<Byte> := [0x49, 0x45, 0x4e, 0x44]

  // ---------- big-endian numbers ----------

  function Be32(n: Word): (r: seq<Byte>)
    ensures |r| == 4
  {
    [n / 0x100_0000, n / 0x1_0000 % 256, n / 256 % 256, n % 256]
  }

  function ReadBe32(bytes: seq<Byte>, offset: nat): Word
    requires offset + 4 <= |bytes|
  {
    var b0: int, b1: int, b2: int, b3: int :=
      bytes[offset], bytes[offset + 1], bytes[offset + 2], bytes[offset + 3];
    b0 * 0x100_0000 + b1 * 0x1_0000 + b2 * 256 + b3
  }

  lemma Be32RoundTrip(before: seq<Byte>, n: Word, after: seq<Byte>)
    ensures ReadBe32(before + Be32(n) + after, |before|) == n
  {
    DigitsSumUp(n);
    var four := Be32(n);
    hide Be32;
    var all := before + four + after;
    assert all[|before|] == four[0] && all[|before| + 1] == four[1];
    assert all[|before| + 2] == four[2] && all[|before| + 3] == four[3];
  }

  lemma DigitsSumUp(n: Word)
    ensures ReadBe32(Be32(n), 0) == n
  {
    var high, low := n / 0x1_0000, n % 0x1_0000;
    assert n / 0x100_0000 == high / 256 && n / 256 % 256 == low / 256 && n % 256 == low % 256;
  }

  method WriteUInt32BE(buffer: array<Byte>, value: Word, offset: nat)
    requires offset + 4 <= buffer.Length
    modifies buffer
    ensures buffer[..] == old(buffer[..offset]) + Be32(value) + old(buffer[offset + 4..])
  {
    buffer[offset] := value / 0x100_0000;
    buffer[offset + 1] := value / 0x1_0000 % 256;
    buffer[offset + 2] := value / 256 % 256;
    buffer[offset + 3] := value % 256;
  }

  // ---------- chunks ----------

  function Chunk(kind: seq<Byte>, data: seq<Byte>): seq<Byte>
    requires |kind| == 4 && |data| < 0x1_0000_0000
  {
    Be32(|data|) + kind + data + Be32(Crc(kind + data))
  }

  method BuildChunk(kind: seq<Byte>, data: seq<Byte>) returns (bytes: seq<Byte>)
    requires |kind| == 4 && |data| < 0x1_0000_0000
    ensures bytes == Chunk(kind, data)
  {
    hide Be32, Crc;
    var length := new Byte[4](_ => 0);
    WriteUInt32BE(length, |data|, 0);
    assert length[..] == Be32(|data|);
    var typed := kind + data;
    var crc := new Byte[4](_ => 0);
    var checksum := ComputeCrc(typed);
    WriteUInt32BE(crc, checksum, 0);
    assert crc[..] == Be32(checksum);
    bytes := length[..] + typed + crc[..];
  }

  datatype ChunkView = ChunkView(kind: seq<Byte>, data: seq<Byte>)

  /** A decoder's view of one chunk at the head of the stream, checksum verified; and what follows it. */
  function ReadChunk(bytes: seq<Byte>): (r: Option<(ChunkView, seq<Byte>)>)
    ensures r.Some? ==> |r.value.1| < |bytes|
  {
    if |bytes| < 12 then None
    else
      var length := ReadBe32(bytes, 0);
      if |bytes| < 12 + length then None
      else
        var kind, data := bytes[4..8], bytes[8..8 + length];
        if ReadBe32(bytes, 8 + length) != Crc(kind + data) then None
        else Some((ChunkView(kind, data), bytes[12 + length..]))
  }

  function ReadChunks(bytes: seq<Byte>): Option<seq<ChunkView>>
    decreases |bytes|
  {
    if bytes == [] then Some([])
    else
      match ReadChunk(bytes)
      case None => None
      case Some((chunk, rest)) =>
        match ReadChunks(rest)
        case None => None
        case Some(chunks) => Some([chunk] + chunks)
  }

  function ReadPng(file: seq<Byte>): Option<seq<ChunkView>> {
    if SIGNATURE <= file then ReadChunks(file[8..]) else None
  }

  lemma ReadChunkOf(kind: seq<Byte>, data: seq<Byte>, rest: seq<Byte>)
    requires |kind| == 4 && |data| < 0x1_0000_0000
    ensures ReadChunk(Chunk(kind, data) + rest) == Some((ChunkView(kind, data), rest))
  {
    var crc := Be32(Crc(kind + data));
    var bytes := Chunk(kind, data) + rest;
    assert bytes == [] + Be32(|data|) + (kind + data + crc + rest);
    Be32RoundTrip([], |data|, kind + data + crc + rest);
    assert bytes == (Be32(|data|) + kind + data) + crc + rest;
    Be32RoundTrip(Be32(|data|) + kind + data, Crc(kind + data), rest);
    assert bytes[4..8] == kind && bytes[8..8 + |data|] == data && bytes[12 + |data|..] == rest;
  }

  /** A decoder rejects a chunk in which at most four neighbouring bytes of the data were changed. */
  lemma CorruptChunkIsRejected(kind: seq<Byte>, a: seq<Byte>, x: seq<Byte>, y: seq<Byte>, b: seq<Byte>, rest: seq<Byte>)
    requires |kind| == 4 && |x| == |y| <= 4 && x != y
    requires |a + x + b| < 0x1_0000_0000
    ensures ReadChunk(Be32(|a + x + b|) + kind + (a + y + b) + Be32(Crc(kind + (a + x + b))) + rest) == None
  {
    var good, bad := a + x + b, a + y + b;
    var crc := Be32(Crc(kind + good));
    var bytes := Be32(|good|) + kind + bad + crc + rest;
    assert bytes == [] + Be32(|good|) + (kind + bad + crc + rest);
    Be32RoundTrip([], |good|, kind + bad + crc + rest);
    Be32RoundTrip(Be32(|good|) + kind + bad, Crc(kind + good), rest);
    assert bytes[4..8] == kind && bytes[8..8 + |good|] == bad;
    assert kind + good == (kind + a) + x + b && kind + bad == (kind + a) + y + b;
    BurstIsDetected(kind + a, x, y, b);
  }

  // ---------- the file ----------

  function Header(width: Word, height: Word): (r: seq<Byte>)
    ensures |r| == 13
  {
    Be32(width) + Be32(height) + [8, 2, 0, 0, 0]
  }

  function PngFile(width: Word, height: Word, idat: seq<Byte>): seq<Byte>
    requires |idat| < 0x1_0000_0000
  {
    SIGNATURE + Chunk(IHDR, Header(width, height)) + Chunk(IDAT, idat) + Chunk(IEND, [])
  }

  /** `pngDimensions`: the reader checks the first four signature bytes and reads offsets 16 and 20. */
  function PngDimensions(bytes: seq<Byte>): Result<(Word, Word), string> {
    if |bytes| < 24 || ReadBe32(bytes, 0) != 0x89504e47 then Err("fixture_clinic_asset_not_png")
    else Ok((ReadBe32(bytes, 16), ReadBe32(bytes, 20)))
  }

  lemma DimensionsRoundTrip(width: Word, height: Word, idat: seq<Byte>)
    requires |idat| < 0x1_0000_0000
    ensures PngDimensions(PngFile(width, height, idat)) == Ok((width, height))
  {
    FileLayout(width, height, idat);
    SignatureWord();
    hide PngFile, PngDimensions, Be32, Chunk, Crc, Header;
    Slices(SIGNATURE, Be32(13) + IHDR, Be32(width), Be32(height),
           [8, 2, 0, 0, 0] + Be32(Crc(IHDR + Header(width, height))) + (Chunk(IDAT, idat) + Chunk(IEND, [])));
    DimensionsAt(PngFile(width, height, idat), width, height);
  }

  lemma SignatureWord()
    ensures |SIGNATURE| == 8 && SIGNATURE[0..4] == Be32(0x89504e47)
  {
  }

  lemma DimensionsAt(file: seq<Byte>, width: Word, height: Word)
    requires |file| >= 24 && file[0..4] == Be32(0x89504e47)
    requires file[16..20] == Be32(width) && file[20..24] == Be32(height)
    ensures PngDimensions(file) == Ok((width, height))
  {
    ReadAt(file, 0, 0x89504e47);
    ReadAt(file, 16, width);
    ReadAt(file, 20, height);
    hide Be32, ReadBe32;
  }

  lemma ReadAt(bytes: seq<Byte>, offset: nat, n: Word)
    requires offset + 4 <= |bytes| && bytes[offset..offset + 4] == Be32(n)
    ensures ReadBe32(bytes, offset) == n
  {
    Be32RoundTrip(bytes[..offset], n, bytes[offset + 4..]);
    assert bytes[..offset] + Be32(n) + bytes[offset + 4..] == bytes;
  }

  lemma Slices(signature: seq<Byte>, start: seq<Byte>, w: seq<Byte>, h: seq<Byte>, rest: seq<Byte>)
    requires |signature| == |start| == 8 && |w| == |h| == 4
    ensures var file := signature + start + w + h + rest;
            |file| >= 24 && file[0..4] == signature[0..4] && file[16..20] == w && file[20..24] == h
  {
  }

  lemma FileLayout(width: Word, height: Word, idat: seq<Byte>)
    requires |idat| < 0x1_0000_0000
    ensures PngFile(width, height, idat)
         == (SIGNATURE + (Be32(13) + IHDR)) + Be32(width) + Be32(height)
            + ([8, 2, 0, 0, 0] + Be32(Crc(IHDR + Header(width, height))) + (Chunk(IDAT, idat) + Chunk(IEND, [])))
  {
    hide Be32, Crc;
    Regroup(SIGNATURE, Chunk(IHDR, Header(width, height)), Chunk(IDAT, idat), Chunk(IEND, []));
    HeaderLayout(Be32(13) + IHDR, Be32(width), Be32(height), [8, 2, 0, 0, 0],
                 Be32(Crc(IHDR + Header(width, height))), SIGNATURE, Chunk(IDAT, idat) + Chunk(IEND, []));
    assert Chunk(IHDR, Header(width, height))
        == Be32(13) + IHDR + (Be32(width) + Be32(height) + [8, 2, 0, 0, 0]) + Be32(Crc(IHDR + Header(width, height)));
  }

  lemma HeaderLayout(a: seq<Byte>, w: seq<Byte>, h: seq<Byte>, flags: seq<Byte>, crc: seq<Byte>,
                     before: seq<Byte>, after: seq<Byte>)
    ensures before + (a + (w + h + flags) + crc + after) == (before + a) + w + h + (flags + crc + after)
  {
  }

  /** A decoder recovers exactly the three chunks, with every checksum valid and nothing left over. */
  lemma ChunksRoundTrip(width: Word, height: Word, idat: seq<Byte>)
    requires |idat| < 0x1_0000_0000
    ensures ReadPng(PngFile(width, height, idat))
         == Some([ChunkView(IHDR, Header(width, height))] + ([ChunkView(IDAT, idat)] + [ChunkView(IEND, [])]))
  {
    hide Chunk, Header, ReadChunks;
    var header := Header(width, height);
    var end := Chunk(IEND, []);
    var chunks := Chunk(IHDR, header) + (Chunk(IDAT, idat) + end);
    Regroup(SIGNATURE, Chunk(IHDR, header), Chunk(IDAT, idat), end);
    AfterSignature(chunks);
    ThreeChunks(header, idat);
  }

  lemma AfterSignature(chunks: seq<Byte>)
    ensures ReadPng(SIGNATURE + chunks) == ReadChunks(chunks)
  {
    hide ReadChunks;
    assert (SIGNATURE + chunks)[8..] == chunks;
  }

  lemma ThreeChunks(header: seq<Byte>, idat: seq<Byte>)
    requires |header| < 0x1_0000_0000 && |idat| < 0x1_0000_0000
    ensures ReadChunks(Chunk(IHDR, header) + (Chunk(IDAT, idat) + Chunk(IEND, [])))
         == Some([ChunkView(IHDR, header)] + ([ChunkView(IDAT, idat)] + [ChunkView(IEND, [])]))
  {
    hide Chunk;
    var end := Chunk(IEND, []);
    NothingLeft();
    ReadOneMore(IEND, [], [], []);
    assert end + [] == end;
    assert [ChunkView(IEND, [])] + [] == [ChunkView(IEND, [])];
    hide ReadChunks;
    ReadOneMore(IDAT, idat, end, [ChunkView(IEND, [])]);
    ReadOneMore(IHDR, header, Chunk(IDAT, idat) + end, [ChunkView(IDAT, idat)] + [ChunkView(IEND, [])]);
  }

  lemma Regroup(a: seq<Byte>, b: seq<Byte>, c: seq<Byte>, d: seq<Byte>)
    ensures a + b + c + d == a + (b + (c + d))
  {
  }

  lemma NothingLeft()
    ensures ReadChunks([]) == Some([])
  {
  }

  lemma ReadOneMore(kind: seq<Byte>, data: seq<Byte>, rest: seq<Byte>, chunks: seq<ChunkView>)
    requires |kind| == 4 && |data| < 0x1_0000_0000
    requires ReadChunks(rest) == Some(chunks)
    ensures ReadChunks(Chunk(kind, data) + rest) == Some([ChunkView(kind, data)] + chunks)
  {
    ReadChunkOf(kind, data, rest);
    hide ReadChunk;
    assert |Chunk(kind, data)| >= 12;
  }

  // ---------- scanlines ----------

  datatype Rgb = Rgb(r: int, g: int, b: int)

  /** The byte a Buffer element keeps of a stored integer. */
  function Stored(v: int): Byte { v % 256 }

  function RowPixels(pixel: (nat, nat) -> Rgb, y: nat, width: nat): (r: seq<Byte>)
    ensures |r| == 3 * width
  {
    if width == 0 then []
    else
      var p := pixel(width - 1, y);
      RowPixels(pixel, y, width - 1) + [Stored(p.r), Stored(p.g), Stored(p.b)]
  }

  /** Each scanline is a zero filter byte followed by its pixels, left to right. */
  function Raster(pixel: (nat, nat) -> Rgb, width: nat, height: nat): (r: seq<Byte>)
    ensures |r| == RasterSize(width, height)
  {
    RasterGrows(width, height);
    if height == 0 then []
    else Raster(pixel, width, height - 1) + [0] + RowPixels(pixel, height - 1, width)
  }

  function RasterSize(width: nat, height: nat): nat {
    (width * 3 + 1) * height
  }

  lemma RasterGrows(width: nat, height: nat)
    ensures height == 0 ==> RasterSize(width, height) == 0
    ensures height > 0 ==> RasterSize(width, height) == RasterSize(width, height - 1) + width * 3 + 1
  {
  }

  lemma {:induction false} RowsFit(width: nat, y: nat, height: nat)
    requires y <= height
    ensures RasterSize(width, y) <= RasterSize(width, height)
    decreases height
  {
    RasterGrows(width, height);
    if y < height { RowsFit(width, y, height - 1); }
  }

  /** Pixel x of a scanline is the bytes 3x, 3x + 1 and 3x + 2: red, green, blue. */
  lemma {:induction false} RowPixelAt(pixel: (nat, nat) -> Rgb, y: nat, width: nat, x: nat)
    requires x < width
    ensures var row, p := RowPixels(pixel, y, width), pixel(x, y);
            row[3 * x] == p.r % 256 && row[3 * x + 1] == p.g % 256 && row[3 * x + 2] == p.b % 256
    decreases width
  {
    if x < width - 1 { RowPixelAt(pixel, y, width - 1, x); }
  }

  lemma ScanlineFits(width: nat, y: nat, height: nat)
    requires y < height
    ensures RasterSize(width, y) + 3 * width + 1 <= RasterSize(width, height)
  {
    RasterGrows(width, y + 1);
    RowsFit(width, y + 1, height);
    hide RasterSize;
  }

  /** Scanline y of the raster starts at y * (3 * width + 1), with its filter byte in front of its pixels. */
  lemma {:induction false} ScanlineAt(pixel: (nat, nat) -> Rgb, width: nat, height: nat, y: nat)
    requires y < height
    ensures var at, raster := RasterSize(width, y), Raster(pixel, width, height);
            at + 3 * width + 1 <= |raster| && raster[at..at + 3 * width + 1] == [0] + RowPixels(pixel, y, width)
    decreases height
  {
    ScanlineFits(width, y, height);
    hide RasterSize, RowPixels;
    var above := Raster(pixel, width, height - 1);
    var raster := above + [0] + RowPixels(pixel, height - 1, width);
    if y < height - 1 {
      ScanlineAt(pixel, width, height - 1, y);
      var at := RasterSize(width, y);
      assert raster[at..at + 3 * width + 1] == above[at..at + 3 * width + 1];
    } else {
      assert raster[|above|..] == [0] + RowPixels(pixel, y, width);
    }
  }

  lemma RasterFrom(pixel: (nat, nat) -> Rgb, width: nat, height: nat, y: nat, x: nat, at: nat)
    requires y < height && x < width && at == RasterSize(width, y)
    ensures var raster, p := Raster(pixel, width, height), pixel(x, y);
            && at + 3 * width + 1 <= |raster| && raster[at] == 0
            && raster[at + 1 + 3 * x] == p.r % 256 && raster[at + 2 + 3 * x] == p.g % 256
            && raster[at + 3 + 3 * x] == p.b % 256
  {
    ScanlineAt(pixel, width, height, y);
    RowPixelAt(pixel, y, width, x);
    hide *;
    PixelInLine(Raster(pixel, width, height), at, RowPixels(pixel, y, width), x);
  }

  lemma SizeIs(width: nat, y: nat)
    ensures RasterSize(width, y) == y * (3 * width + 1)
  {
  }

  /** Where every byte of the raster comes from: the zero filter byte of its scanline, or a channel of one pixel. */
  lemma RasterAt(pixel: (nat, nat) -> Rgb, width: nat, height: nat, y: nat, x: nat)
    requires y < height && x < width
    ensures var at, raster, p := y * (3 * width + 1), Raster(pixel, width, height), pixel(x, y);
            && at + 3 * width + 1 <= |raster| && raster[at] == 0
            && raster[at + 1 + 3 * x] == p.r % 256 && raster[at + 2 + 3 * x] == p.g % 256
            && raster[at + 3 + 3 * x] == p.b % 256
  {
    SizeIs(width, y);
    hide *;
    RasterFrom(pixel, width, height, y, x, RasterSize(width, y));
  }

  lemma PixelInLine(raster: seq<Byte>, at: nat, row: seq<Byte>, x: nat)
    requires at + |row| + 1 <= |raster| && raster[at..at + |row| + 1] == [0] + row && 3 * x + 3 <= |row|
    ensures raster[at] == 0 && raster[at + 1 + 3 * x] == row[3 * x]
    ensures raster[at + 2 + 3 * x] == row[3 * x + 1] && raster[at + 3 + 3 * x] == row[3 * x + 2]
  {
    var line := [0] + row;
    assert raster[at] == line[0] && raster[at + 1 + 3 * x] == line[1 + 3 * x];
    assert raster[at + 2 + 3 * x] == line[2 + 3 * x] && raster[at + 3 + 3 * x] == line[3 + 3 * x];
  }

  /** The fixed bytes of every file: signature, header length and type, and eight-bit truecolour without interlacing. */
  lemma HeaderBytes(width: Word, height: Word, idat: seq<Byte>)
    requires |idat| < 0x1_0000_0000
    ensures var file := PngFile(width, height, idat);
            && |file| >= 29 && file[..8] == [0x89, 0x50, 0x4e, 0x47, 0x0d, 0x0a, 0x1a, 0x0a]
            && file[8..16] == [0, 0, 0, 13, 0x49, 0x48, 0x44, 0x52]
            && file[24..29] == [8, 2, 0, 0, 0]
  {
    hide PngFile, Be32, Chunk, Crc, Header;
    FileLayout(width, height, idat);
    HeaderStart();
    FixedSlices(Be32(13) + IHDR, Be32(width), Be32(height), Be32(Crc(IHDR + Header(width, height))),
                Chunk(IDAT, idat) + Chunk(IEND, []));
  }

  lemma HeaderStart()
    ensures Be32(13) + IHDR == [0, 0, 0, 13, 0x49, 0x48, 0x44, 0x52]
  {
    assert Be32(13) == [0, 0, 0, 13];
  }

  lemma FixedSlices(start: seq<Byte>, w: seq<Byte>, h: seq<Byte>, crc: seq<Byte>, rest: seq<Byte>)
    requires |start| == 8 && |w| == |h| == 4
    ensures var file := (SIGNATURE + start) + w + h + ([8, 2, 0, 0, 0] + crc + rest);
            |file| >= 29 && file[..8] == SIGNATURE && file[8..16] == start && file[24..29] == [8, 2, 0, 0, 0]
  {
    var flags, before := [8, 2, 0, 0, 0], (SIGNATURE + start) + w + h;
    assert |before| == 24;
    assert flags + crc + rest == flags + (crc + rest);
    assert (before + (flags + (crc + rest)))[24..29] == flags;
  }

  /** One scanline, written at the moving offset. */
  method FillRow(raw: array<Byte>, start: nat, pixel: (nat, nat) -> Rgb, y: nat, width: nat) returns (offset: nat)
    requires start + 1 + 3 * width <= raw.Length
    modifies raw
    ensures offset == start + 1 + 3 * width
    ensures raw[..offset] == old(raw[..start]) + [0] + RowPixels(pixel, y, width)
  {
    offset := start;
    raw[offset] := 0;
    offset := offset + 1;
    assert raw[..offset] == old(raw[..start]) + [0] + RowPixels(pixel, y, 0);
    var x := 0;
    while x < width
      invariant 0 <= x <= width
      invariant offset == start + 1 + 3 * x
      invariant raw[..offset] == old(raw[..start]) + [0] + RowPixels(pixel, y, x)
    {
      var p := pixel(x, y);
      ghost var before := raw[..offset];
      raw[offset] := Stored(p.r);
      raw[offset + 1] := Stored(p.g);
      raw[offset + 2] := Stored(p.b);
      assert raw[..offset + 3] == before + [Stored(p.r), Stored(p.g), Stored(p.b)];
      offset := offset + 3;
      x := x + 1;
    }
  }

  /** The scanline writer: one offset moves over the whole buffer and ends exactly at its end. */
  method FillRaster(pixel: (nat, nat) -> Rgb, width: nat, height: nat) returns (raw: array<Byte>, offset: nat)
    ensures raw.Length == (width * 3 + 1) * height && offset == raw.Length
    ensures raw[..] == Raster(pixel, width, height)
  {
    raw := new Byte[RasterSize(width, height)](_ => 0);
    offset := 0;
    var y := 0;
    RasterGrows(width, 0);
    while y < height
      invariant 0 <= y <= height
      invariant offset == RasterSize(width, y) <= raw.Length
      invariant raw[..offset] == Raster(pixel, width, y)
    {
      hide RasterSize;
      RasterGrows(width, y + 1);
      RowsFit(width, y + 1, height);
      offset := FillRow(raw, offset, pixel, y, width);
      y := y + 1;
    }
    assert raw[..] == raw[..offset];
  }

  /** fictionalPng: header written in place, scanlines filled, three chunks concatenated. */
  method FictionalPng(pixel: (nat, nat) -> Rgb, width: Word, height: Word, deflate: seq<Byte> -> seq<Byte>)
    returns (file: seq<Byte>)
    requires |deflate(Raster(pixel, width, height))| < 0x1_0000_0000
    ensures file == PngFile(width, height, deflate(Raster(pixel, width, height)))
  {
    var raw, _ := FillRaster(pixel, width, height);
    var ihdr := new Byte[13](_ => 0);
    WriteUInt32BE(ihdr, width, 0);
    assert ihdr[..] == Be32(width) + seq(9, _ => 0);
    WriteUInt32BE(ihdr, height, 4);
    assert ihdr[..] == Be32(width) + Be32(height) + seq(5, _ => 0);
    ihdr[8] := 8;
    ihdr[9] := 2;
    assert ihdr[..] == Header(width, height);
    var header := BuildChunk(IHDR, ihdr[..]);
    var data := BuildChunk(IDAT, deflate(raw[..]));
    var end := BuildChunk(IEND, []);
    file := SIGNATURE + header + data + end;
  }
}
