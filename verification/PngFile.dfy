/**
 The chunks of a PNG file, read and written: packages/image/src/crop/png-chunks.ts, png.ts and the
 file's side of crop-png.ts. Deflate, inflate and the CRC are parameters.

 A chunk is its length, its type, its payload and its CRC, which the reader does not check. The
 header comes first; the payloads of the IDAT chunks, one after the other, are the deflated rows.
 */
module PngFile {
  import opened Octets
  import opened Wrappers
  import opened Unfilter
  import opened Crop

  // ----- four bytes, the most significant first

  function U32(n: nat): (b: Bytes)
    ensures |b| == 4
  {
    [(n / 0x100_0000 % 256) as byte, (n / 0x1_0000 % 256) as byte, (n / 0x100 % 256) as byte, (n % 256) as byte]
  }

  function U32At(bytes: Bytes, at: nat): nat
    requires at + 4 <= |bytes|
  {
    bytes[at] as nat * 0x100_0000 + bytes[at + 1] as nat * 0x1_0000 + bytes[at + 2] as nat * 0x100
      + bytes[at + 3] as nat
  }

  // ----- reading

  /** What a chunk is; a type this reader does not look into is `Ancillary`. */
  datatype Type = IHDR | IDAT | IEND | Ancillary(code: Bytes)

  function Code(t: Type): Bytes {
    match t
    case IHDR => [0x49, 0x48, 0x44, 0x52]
    case IDAT => [0x49, 0x44, 0x41, 0x54]
    case IEND => [0x49, 0x45, 0x4e, 0x44]
    case Ancillary(code) => code
  }

  function TypeOf(code: Bytes): Type {
    if code == Code(IHDR) then IHDR else if code == Code(IDAT) then IDAT else if code == Code(IEND) then IEND
      else Ancillary(code)
  }

  datatype Chunk = Chunk(kind: Type, data: Bytes, next: nat)

  /** `chunkAt`. */
  function ChunkAt(bytes: Bytes, at: nat): (c: Result<Chunk, Refusal>)
    ensures c.Ok? ==> at + 12 <= c.value.next <= |bytes|
  {
    if at + 12 > |bytes| then Err(NoEnd)
    else
      var length := U32At(bytes, at);
      if at + 12 + length > |bytes| then Err(CutShort)
      else Ok(Chunk(TypeOf(bytes[at + 4..at + 8]), bytes[at + 8..at + 8 + length], at + 12 + length))
  }

  function Signature(): Bytes {
    [0x89, 0x50, 0x4e, 0x47, 0x0d, 0x0a, 0x1a, 0x0a]
  }

  /** A colour type's samples, by what its bits say: 2 for colour, 4 for alpha. A palette, bit 1, is not read. */
  function SamplesOf(colour: byte): (n: Option<nat>)
    ensures n.Some? <==> colour in {0, 2, 4, 6}
    ensures n.Some? ==>
              n.value == (if colour as int / 2 % 2 == 1 then 3 else 1) + (if colour as int / 4 % 2 == 1 then 1 else 0)
  {
    match colour
    case 0 => Some(1)
    case 2 => Some(3)
    case 4 => Some(2)
    case 6 => Some(4)
    case _ => None
  }

  /** `readHeader`. */
  function ReadHeader(bytes: Bytes, maxPixels: Option<nat>): (h: Result<Header, Refusal>)
    ensures h.Ok? ==> h.value.Valid()
  {
    if !(Signature() <= bytes) then Err(NoSignature)
    else match ChunkAt(bytes, 8)
      case Err(e) => Err(e)
      case Ok(first) =>
        if first.kind != IHDR || |first.data| != 13 then Err(NoHeader)
        else
          var width, height := U32At(first.data, 0), U32At(first.data, 4);
          if width < 1 || height < 1 || width > 0x7fff_ffff || height > 0x7fff_ffff then Err(BadSize)
          else if maxPixels.Some? && width * height > maxPixels.value then Err(TooManyPixels)
          else if first.data[8] != 8 then Err(BadDepth)
          else if first.data[12] != 0 then Err(Interlaced)
          else match SamplesOf(first.data[9])
            case None => Err(BadColour)
            case Some(samples) => Ok(Header(width, height, samples))
  }

  /**
   A header is let through exactly when the file begins with the signature and a whole IHDR chunk of 13 bytes,
   and says, byte by byte, what can be read: sections 5.2 and 11.2.2 of the PNG specification.
   */
  lemma HeaderExactly(bytes: Bytes, maxPixels: Option<nat>)
    ensures ReadHeader(bytes, maxPixels).Ok? <==>
              && |bytes| >= 33
              && bytes[..8] == [0x89, 0x50, 0x4e, 0x47, 0x0d, 0x0a, 0x1a, 0x0a]
              && bytes[8..16] == [0, 0, 0, 13, 0x49, 0x48, 0x44, 0x52]
              && var width, height := U32At(bytes, 16), U32At(bytes, 20);
              && 1 <= width <= 0x7fff_ffff && 1 <= height <= 0x7fff_ffff
              && (maxPixels.Some? ==> width * height <= maxPixels.value)
              && bytes[24] == 8 && bytes[25] in {0, 2, 4, 6} && bytes[28] == 0
    ensures ReadHeader(bytes, maxPixels).Ok? ==>
              ReadHeader(bytes, maxPixels).value ==
              Header(U32At(bytes, 16), U32At(bytes, 20), SamplesOf(bytes[25]).value)
  {
    if |bytes| >= 33 {
      assert U32At(bytes, 8) == 13 <==> bytes[8..12] == [0, 0, 0, 13] by { ReadsU32(bytes); }
      assert bytes[8..16] == bytes[8..12] + bytes[12..16];
      assert Signature() <= bytes <==> bytes[..8] == Signature();
      assert bytes[12..16] == Code(IHDR) <==> TypeOf(bytes[12..16]) == IHDR;
    }
  }

  lemma ReadsU32(bytes: Bytes)
    requires |bytes| >= 12
    ensures U32At(bytes, 8) == 13 <==> bytes[8..12] == [0, 0, 0, 13]
  {
  }

  /** What the IDAT chunks hold, and how the file ends. */
  datatype Idats = Idats(payloads: seq<Bytes>, end: Ending)

  function IdatsFrom(bytes: Bytes, at: nat, sawData: bool): Idats
    requires at <= |bytes|
    decreases |bytes| - at
  {
    match ChunkAt(bytes, at)
    case Err(e) => Idats([], Some(e))
    case Ok(found) =>
      match found.kind
      case IDAT =>
        var rest := IdatsFrom(bytes, found.next, true);
        Idats([found.data] + rest.payloads, rest.end)
      case IEND => Idats([], if sawData then None else Some(NoData))
      case _ => IdatsFrom(bytes, found.next, sawData)
  }

  /** One chunk of what there is from here on. */
  lemma OneChunk(bytes: Bytes, at: nat, sawData: bool)
    requires at <= |bytes|
    ensures var found := ChunkAt(bytes, at);
            IdatsFrom(bytes, at, sawData) ==
            if found.Err? then Idats([], Some(found.error))
            else if found.value.kind == IDAT then
              var rest := IdatsFrom(bytes, found.value.next, true);
              Idats([found.value.data] + rest.payloads, rest.end)
            else if found.value.kind == IEND then Idats([], if sawData then None else Some(NoData))
            else IdatsFrom(bytes, found.value.next, sawData)
  {
    hide TypeOf, U32At;
  }

  datatype Pulled = Gave(data: Bytes) | Closed | Failed(e: Refusal)

  /** `idatStream`: where in the file it is, and whether an IDAT chunk was seen. */
  class IdatStream {
    const bytes: Bytes
    var at: nat
    var sawData: bool

    constructor (bytes: Bytes)
      requires 8 <= |bytes|
      ensures this.bytes == bytes && at == 8 && !sawData
    {
      this.bytes, at, sawData := bytes, 8, false;
    }

    /** `pull`: chunks are read past until one of data, or the end. */
    method Pull() returns (p: Pulled)
      requires at <= |bytes|
      modifies this
      ensures old(at) <= at <= |bytes| && (p.Gave? ==> at > old(at))
      ensures old(IdatsFrom(bytes, at, sawData)) == After([], p, if p.Gave? then IdatsFrom(bytes, at, sawData)
              else Idats([], None))
    {
      hide IdatsFrom, ChunkAt;
      ghost var whole := IdatsFrom(bytes, at, sawData);
      while true
        invariant old(at) <= at <= |bytes| && IdatsFrom(bytes, at, sawData) == whole
        decreases |bytes| - at
      {
        var found := ChunkAt(bytes, at);
        OneChunk(bytes, at, sawData);
        if found.Err? { return Failed(found.error); }
        if found.value.kind == IDAT {
          at := found.value.next;
          sawData := true;
          return Gave(found.value.data);
        }
        if found.value.kind == IEND {
          at := found.value.next;
          if !sawData { return Failed(NoData); }
          return Closed;
        }
        at := found.value.next;
      }
    }
  }

  /** Every payload of a file, pulled one after the other. */
  method ReadIdats(bytes: Bytes) returns (all: Idats)
    requires 8 <= |bytes|
    ensures all == IdatsFrom(bytes, 8, false)
  {
    hide IdatsFrom;
    var stream := new IdatStream(bytes);
    var payloads: seq<Bytes> := [];
    var p := stream.Pull();
    while p.Gave?
      invariant fresh(stream) && stream.bytes == bytes && stream.at <= |bytes|
      invariant IdatsFrom(bytes, 8, false) ==
                After(payloads, p, if p.Gave? then IdatsFrom(bytes, stream.at, stream.sawData) else Idats([], None))
      decreases |bytes| - stream.at, p.Gave?
    {
      var data := p.data;
      ghost var before := payloads;
      payloads := payloads + [data];
      p := stream.Pull();
    }
    all := Idats(payloads, if p.Failed? then Some(p.e) else None);
  }

  /** What there is in all, after payloads already had and a pull. */
  function After(payloads: seq<Bytes>, p: Pulled, rest: Idats): Idats {
    match p
    case Gave(data) => Idats(payloads + [data] + rest.payloads, rest.end)
    case Closed => Idats(payloads, None)
    case Failed(e) => Idats(payloads, Some(e))
  }

  // ----- cropPng

  datatype RawImage = RawImage(width: nat, height: nat, channels: nat, pixels: Bytes)

  /** The inflated bytes, in the pieces they come in, and how they end. */
  datatype Inflated = Inflated(pieces: seq<Bytes>, end: Ending)

  function CroppedFile(bytes: Bytes, wanted: Header -> Region, maxPixels: Option<nat>,
      inflate: Idats -> Inflated): Result<RawImage, Refusal> {
    match ReadHeader(bytes, maxPixels)
    case Err(e) => Err(e)
    case Ok(h) =>
      var r := wanted(h);
      if !Fits(r, h) then Err(OutsideImage)
      else
        var z := inflate(IdatsFrom(bytes, 8, false));
        match Cropped(h, r, Joined(z.pieces), z.end)
        case Err(e) => Err(e)
        case Ok(pixels) => Ok(RawImage(r.width, r.height, Channels(h.samples), pixels))
  }

  /** `cropPng`, whatever pieces the inflated bytes come in. */
  method CropPng(bytes: Bytes, wanted: Header -> Region, maxPixels: Option<nat>, inflate: Idats -> Inflated)
    returns (image: Result<RawImage, Refusal>)
    ensures image == CroppedFile(bytes, wanted, maxPixels, inflate)
  {
    var header := ReadHeader(bytes, maxPixels);
    if header.Err? { return Err(header.error); }
    var h := header.value;
    var r := wanted(h);
    if !Fits(r, h) { return Err(OutsideImage); }
    var data := ReadIdats(bytes);
    var z := inflate(data);
    var out := CropStream(h, r, z.pieces, z.end);
    if out.Err? { return Err(out.error); }
    image := Ok(RawImage(r.width, r.height, Channels(h.samples), out.value));
  }

  // ----- png.ts: writing

  /** `chunk`: length, type, data, and the CRC of the last two. */
  function ChunkBytes(code: Bytes, data: Bytes, crc: Bytes -> nat): Bytes {
    U32(|data|) + code + data + U32(crc(code + data))
  }

  /** IHDR's data: the size, eight bits a sample, RGB or RGBA, and nothing else. */
  function HeaderBytes(image: RawImage): (b: Bytes)
    ensures |b| == 13
  {
    U32(image.width) + U32(image.height) + [8, if image.channels == 4 then 6 else 2, 0, 0, 0]
  }

  /** A raw image's own rules: its size is one a PNG can have, and its pixels fill it. */
  predicate IsRaw(image: RawImage) {
    && 1 <= image.width <= 0x7fff_ffff && 1 <= image.height <= 0x7fff_ffff && 3 <= image.channels <= 4
    && |image.pixels| == Times(image.height, Times(image.width, image.channels))
  }

  /** The image's rows, cut from its pixels. */
  function RowsOf(pixels: Bytes, stride: nat, n: nat): seq<Bytes>
    requires |pixels| == Times(n, stride)
  {
    if n == 0 then [] else [pixels[..stride]] + RowsOf(pixels[stride..], stride, n - 1)
  }

  /** Rows as they are deflated: filter 0, then the bytes. */
  function Unfiltered(rows: seq<Bytes>): Bytes {
    if rows == [] then [] else [0] + rows[0] + Unfiltered(rows[1..])
  }

  function EncodedBytes(image: RawImage, deflate: Bytes -> Bytes, crc: Bytes -> nat): Bytes
    requires IsRaw(image)
  {
    var raw := Unfiltered(RowsOf(image.pixels, Times(image.width, image.channels), image.height));
    Signature()
    + ChunkBytes(Code(IHDR), HeaderBytes(image), crc)
    + ChunkBytes(Code(IDAT), deflate(raw), crc)
    + ChunkBytes(Code(IEND), [], crc)
  }

  lemma {:induction false} UnfilteredMore(rows: seq<Bytes>, row: Bytes)
    ensures Unfiltered(rows + [row]) == Unfiltered(rows) + ([0] + row)
  {
    var longer := rows + [row];
    if rows == [] {
      assert longer == [row] && Unfiltered(longer[1..]) == [];
    } else {
      UnfilteredMore(rows[1..], row);
      assert longer[0] == rows[0] && longer[1..] == rows[1..] + [row];
    }
  }

  lemma {:induction false} RowsOfMore(pixels: Bytes, stride: nat, n: nat)
    requires |pixels| == Times(n + 1, stride)
    ensures RowsOf(pixels, stride, n + 1) == RowsOf(pixels[..Times(n, stride)], stride, n)
            + [pixels[Times(n, stride)..]]
  {
    if n > 0 {
      var t, rest := Times(n, stride), pixels[stride..];
      RowsOfMore(rest, stride, n - 1);
      assert rest[..t - stride] == pixels[..t][stride..] && rest[t - stride..] == pixels[t..];
      assert pixels[..t][..stride] == pixels[..stride];
      assert RowsOf(pixels, stride, n + 1) == [pixels[..stride]] + RowsOf(rest, stride, n);
    } else {
      assert pixels[..stride] == pixels && pixels[0..] == pixels && pixels[stride..] == [];
    }
  }

  lemma {:induction false} UnfilteredLength(pixels: Bytes, stride: nat, n: nat)
    requires |pixels| == Times(n, stride)
    ensures |Unfiltered(RowsOf(pixels, stride, n))| == Times(n, stride + 1)
  {
    if n > 0 { UnfilteredLength(pixels[stride..], stride, n - 1); }
  }

  /** The rows to deflate, written into place one after the other. */
  method RawRows(pixels: Bytes, stride: nat, height: nat) returns (raw: array<byte>)
    requires |pixels| == Times(height, stride)
    ensures raw[..] == Unfiltered(RowsOf(pixels, stride, height))
  {
    raw := new byte[Offset(0, height, stride + 1)](_ => 0);
    assert Unfiltered(RowsOf(pixels[..0], stride, 0)) == [];
    TimesGrows(0, height, stride);
    TimesGrows(0, height, stride + 1);
    hide Unfiltered, RowsOf;
    for y := 0 to height
      invariant Times(y, stride) <= |pixels| && Times(y, stride + 1) <= raw.Length
      invariant Written(raw, pixels, stride, y)
    {
      TimesGrows(y + 1, height, stride);
      TimesGrows(y + 1, height, stride + 1);
      PutRow(raw, pixels, stride, y);
    }
    assert pixels[..|pixels|] == pixels && raw[..raw.Length] == raw[..];
  }

  /** The first rows are in place, and what is after them is zero. */
  ghost predicate Written(raw: array<byte>, pixels: Bytes, stride: nat, y: nat)
    requires Times(y, stride) <= |pixels| && Times(y, stride + 1) <= raw.Length
    reads raw
  {
    && raw[..Times(y, stride + 1)] == Unfiltered(RowsOf(pixels[..Times(y, stride)], stride, y))
    && forall k | Times(y, stride + 1) <= k < raw.Length :: raw[k] == 0
  }

  /** One row, put after its filter byte: zero. */
  method PutRow(raw: array<byte>, pixels: Bytes, stride: nat, y: nat)
    requires Times(y + 1, stride) <= |pixels| && Times(y + 1, stride + 1) <= raw.Length
             && Written(raw, pixels, stride, y)
    modifies raw
    ensures Written(raw, pixels, stride, y + 1)
  {
    hide RowsOf, Unfiltered, Offset;
    var from, at := Offset(0, y, stride), Offset(1, y, stride + 1);
    RawMore(pixels, stride, y, from, from + stride);
    ghost var before := raw[..at - 1];
    forall k | 0 <= k < stride { raw[at + k] := pixels[from + k]; }
    assert raw[..at + stride] == before + ([0] + pixels[from..from + stride]);
  }

  lemma RawMore(pixels: Bytes, stride: nat, y: nat, from: nat, to: nat)
    requires from == Times(y, stride) && to == Times(y + 1, stride) <= |pixels|
    ensures Unfiltered(RowsOf(pixels[..to], stride, y + 1)) ==
            Unfiltered(RowsOf(pixels[..from], stride, y)) + ([0] + pixels[from..to])
  {
    RowsOfMore(pixels[..to], stride, y);
    assert pixels[..to][..from] == pixels[..from];
    assert pixels[..to][from..] == pixels[from..to];
    UnfilteredMore(RowsOf(pixels[..from], stride, y), pixels[from..to]);
  }

  /** `encodePng`: the parts, one after the other, in one array. */
  method EncodePng(image: RawImage, deflate: Bytes -> Bytes, crc: Bytes -> nat) returns (out: array<byte>)
    requires IsRaw(image)
    ensures out[..] == EncodedBytes(image, deflate, crc)
  {
    hide ChunkBytes, Unfiltered, RowsOf, HeaderBytes, Signature, Code, Joined;
    var raw := RawRows(image.pixels, Offset(0, image.width, image.channels), image.height);
    var parts := [Signature(),
                  ChunkBytes(Code(IHDR), HeaderBytes(image), crc),
                  ChunkBytes(Code(IDAT), deflate(raw[..]), crc),
                  ChunkBytes(Code(IEND), [], crc)];
    out := Concatenated(parts);
    JoinedFour(parts[0], parts[1], parts[2], parts[3]);
  }

  lemma JoinedFour(a: Bytes, b: Bytes, c: Bytes, d: Bytes)
    ensures Joined([a, b, c, d]) == a + b + c + d
  {
    assert [a, b, c] + [d] == [a, b, c, d] && [a, b] + [c] == [a, b, c] && [a] + [b] == [a, b];
    JoinedMore([a, b, c], d);
    JoinedMore([a, b], c);
    JoinedMore([a], b);
  }

  method Concatenated(parts: seq<Bytes>) returns (out: array<byte>)
    ensures out[..] == Joined(parts)
  {
    var total := 0;
    for i := 0 to |parts|
      invariant total == |Joined(parts[..i])|
    {
      JoinedMore(parts[..i], parts[i]);
      assert parts[..i + 1] == parts[..i] + [parts[i]];
      total := total + |parts[i]|;
    }
    assert parts[..|parts|] == parts;
    out := new byte[total](_ => 0);
    var at := 0;
    for i := 0 to |parts|
      invariant at == |Joined(parts[..i])| <= total && out[..at] == Joined(parts[..i])
    {
      JoinedMore(parts[..i], parts[i]);
      assert parts[..i + 1] == parts[..i] + [parts[i]];
      FitsIn(parts, i + 1);
      forall k | 0 <= k < |parts[i]| { out[at + k] := parts[i][k]; }
      assert out[..at + |parts[i]|] == out[..at] + parts[i];
      at := at + |parts[i]|;
    }
  }

  lemma {:induction false} FitsIn(parts: seq<Bytes>, i: nat)
    requires i <= |parts|
    ensures |Joined(parts[..i])| <= |Joined(parts)|
    decreases |parts| - i
  {
    if i < |parts| {
      JoinedMore(parts[..i], parts[i]);
      assert parts[..i + 1] == parts[..i] + [parts[i]];
      FitsIn(parts, i + 1);
    } else {
      assert parts[..i] == parts;
    }
  }

  // ----- what is written is read back

  lemma TwoDown(n: nat)
    ensures n / 0x1_0000 == n / 0x100 / 0x100
  {
  }

  lemma ThreeDown(n: nat)
    ensures n / 0x100_0000 == n / 0x1_0000 / 0x100
  {
  }

  lemma U32Back(n: nat)
    requires n < 0x1_0000_0000
    ensures U32At(U32(n), 0) == n
  {
    TwoDown(n);
    ThreeDown(n);
    var a, b, c := n / 0x100, n / 0x1_0000, n / 0x100_0000;
    assert n == a * 0x100 + n % 0x100;
    assert a == b * 0x100 + a % 0x100;
    assert b == c * 0x100 + b % 0x100;
    assert c % 0x100 == c;
  }

  lemma U32Within(n: nat, before: Bytes, rest: Bytes)
    requires n < 0x1_0000_0000
    ensures U32At(before + U32(n) + rest, |before|) == n
  {
    U32Back(n);
    hide U32;
    var four, bytes := U32(n), before + U32(n) + rest;
    assert bytes[|before|] == four[0] && bytes[|before| + 1] == four[1];
    assert bytes[|before| + 2] == four[2] && bytes[|before| + 3] == four[3];
  }

  /** A chunk is read where it was written, and the next one starts where it ends. */
  lemma ChunkReadBack(before: Bytes, code: Bytes, data: Bytes, crc: Bytes -> nat, rest: Bytes)
    requires |code| == 4 && |data| < 0x1_0000_0000
    ensures ChunkAt(before + ChunkBytes(code, data, crc) + rest, |before|)
            == Ok(Chunk(TypeOf(code), data, |before| + 12 + |data|))
  {
    hide U32, U32At, TypeOf;
    var bytes := before + ChunkBytes(code, data, crc) + rest;
    var check := U32(crc(code + data));
    assert bytes == before + U32(|data|) + (code + data + check + rest);
    U32Within(|data|, before, code + data + check + rest);
    assert bytes[|before| + 4..|before| + 8] == code;
    assert bytes[|before| + 8..|before| + 8 + |data|] == data;
  }

  /** The header encoded is the one read. */
  lemma HeaderReadBack(image: RawImage, rest: Bytes, crc: Bytes -> nat, maxPixels: Option<nat>)
    requires IsRaw(image) && (maxPixels.Some? ==> image.width * image.height <= maxPixels.value)
    ensures ReadHeader(Signature() + ChunkBytes(Code(IHDR), HeaderBytes(image), crc) + rest, maxPixels) ==
            Ok(Header(image.width, image.height, image.channels))
  {
    var bytes := Signature() + ChunkBytes(Code(IHDR), HeaderBytes(image), crc) + rest;
    var data := HeaderBytes(image);
    ChunkReadBack(Signature(), Code(IHDR), data, crc, rest);
    assert bytes[..8] == Signature();
    HeaderFields(image);
    hide U32At, U32, ChunkBytes, HeaderBytes, ChunkAt;
    assert ChunkAt(bytes, 8) == Ok(Chunk(IHDR, data, 8 + 12 + 13));
  }

  lemma HeaderFields(image: RawImage)
    requires IsRaw(image)
    ensures var data := HeaderBytes(image);
            && U32At(data, 0) == image.width && U32At(data, 4) == image.height
            && data[8] == 8 && data[9] == (if image.channels == 4 then 6 else 2) && data[12] == 0
  {
    var tail: Bytes := [8, if image.channels == 4 then 6 else 2, 0, 0, 0];
    hide U32At, U32;
    assert HeaderBytes(image) == [] + U32(image.width) + (U32(image.height) + tail);
    U32Within(image.width, [], U32(image.height) + tail);
    U32Within(image.height, U32(image.width), tail);
  }

  /** The one IDAT chunk encoded is the one payload read. */
  lemma IdatsReadBack(head: Bytes, payload: Bytes, crc: Bytes -> nat)
    requires |head| == 13 && |payload| < 0x1_0000_0000
    ensures IdatsFrom(Signature() + ChunkBytes(Code(IHDR), head, crc) + ChunkBytes(Code(IDAT), payload, crc)
                      + ChunkBytes(Code(IEND), [], crc), 8, false) == Idats([payload], None)
  {
    var a, b, c := ChunkBytes(Code(IHDR), head, crc), ChunkBytes(Code(IDAT), payload, crc),
      ChunkBytes(Code(IEND), [], crc);
    var bytes := Signature() + a + b + c;
    var none: Bytes := [];
    assert bytes == Signature() + a + (b + c) && bytes == Signature() + a + b + c + none;
    ChunkReadBack(Signature(), Code(IHDR), head, crc, b + c);
    ChunkReadBack(Signature() + a, Code(IDAT), payload, crc, c);
    ChunkReadBack(Signature() + a + b, Code(IEND), [], crc, none);
    hide ChunkAt, ChunkBytes;
    var at := |Signature() + a|;
    assert |a| == 25 && |b| == 12 + |payload|;
    assert IdatsFrom(bytes, at + |b|, true) == Idats([], None);
    assert IdatsFrom(bytes, at, false) == Idats([payload] + [], None);
  }

  /** Rows written with filter 0 decode to themselves. */
  lemma {:induction false} UnfilteredDecodes(pixels: Bytes, stride: nat, n: nat, prior: Bytes, bpp: nat)
    requires |pixels| == Times(n, stride) && |prior| == stride
    ensures Begins(Unfiltered(RowsOf(pixels, stride, n)), stride, n, true)
    ensures Rows(Unfiltered(RowsOf(pixels, stride, n)), prior, bpp) == RowsOf(pixels, stride, n)
  {
    if n > 0 {
      var row, rest := pixels[..stride], RowsOf(pixels[stride..], stride, n - 1);
      var raw := Unfiltered(RowsOf(pixels, stride, n));
      assert RowsOf(pixels, stride, n) == [row] + rest && ([row] + rest)[1..] == rest;
      assert raw == [0] + row + Unfiltered(rest);
      assert raw[0] == 0 && raw[1..stride + 1] == row && raw[stride + 1..] == Unfiltered(rest);
      ReconOfNone(row, prior, bpp, stride);
      assert row[..stride] == row;
      UnfilteredDecodes(pixels[stride..], stride, n - 1, row, bpp);
    }
  }

  /** A whole row's columns are the row; whole rows stacked are the pixels they were cut from. */
  lemma {:induction false} StackedWhole(pixels: Bytes, r: Region, samples: nat, stride: nat, n: nat)
    requires 3 <= samples <= 4 && r.x == 0 && stride == Times(r.width, samples) && |pixels| == Times(n, stride)
    ensures |RowsOf(pixels, stride, n)| == n
    ensures Stacked(RowsOf(pixels, stride, n), r, samples) == pixels
    decreases n
  {
    if n > 0 {
      hide Stacked, Columns, RowsOf;
      TimesStep(n - 1, stride);
      var at := Times(n - 1, stride);
      var before, row := pixels[..at], pixels[at..];
      assert before + row == pixels;
      WholeRow(row, r.width, samples);
      RowsOfMore(pixels, stride, n - 1);
      StackedWhole(before, r, samples, stride, n - 1);
      StackedMore(RowsOf(before, stride, n - 1), row, r, samples);
    }
  }

  lemma WholeRow(row: Bytes, width: nat, samples: nat)
    requires 3 <= samples <= 4 && |row| == Times(width, samples)
    ensures Columns(row, 0, width, samples) == row
  {
    ColumnsOfColour(row, 0, width, samples);
    assert row[0..|row|] == row;
  }

  /** Inflate undoes deflate, however the bytes are cut. */
  predicate Undoes(inflate: Idats -> Inflated, deflate: Bytes -> Bytes, raw: Bytes) {
    var z := inflate(Idats([deflate(raw)], None));
    z.end.None? && Joined(z.pieces) == raw
  }

  lemma WholeImage(image: RawImage)
    requires IsRaw(image)
    ensures var h := Header(image.width, image.height, image.channels);
            var r := Region(0, 0, image.width, image.height);
            Cropped(h, r, Unfiltered(RowsOf(image.pixels, h.Stride(), image.height)), None) == Ok(image.pixels)
  {
    hide Stacked, Columns, RowsOf, Unfiltered, Rows, Recon, Begins, Cropping;
    var h := Header(image.width, image.height, image.channels);
    var r := Region(0, 0, image.width, image.height);
    var rows := RowsOf(image.pixels, h.Stride(), image.height);
    UnfilteredDecodes(image.pixels, h.Stride(), image.height, Zeros(h.Stride()), h.samples);
    CropIsDecodeThenCrop(h, r, Unfiltered(rows), None);
    StackedWhole(image.pixels, r, image.channels, h.Stride(), image.height);
    assert rows[0..image.height] == rows;
  }

  /** Cropping the whole of what `encodePng` wrote gives back the image. */
  lemma CropOfEncoded(image: RawImage, deflate: Bytes -> Bytes, inflate: Idats -> Inflated, crc: Bytes -> nat,
      maxPixels: Option<nat>)
    requires IsRaw(image) && (maxPixels.Some? ==> image.width * image.height <= maxPixels.value)
    requires var raw := Unfiltered(RowsOf(image.pixels, Times(image.width, image.channels), image.height));
             Undoes(inflate, deflate, raw) && |deflate(raw)| < 0x1_0000_0000
    ensures CroppedFile(EncodedBytes(image, deflate, crc), (h: Header) => Region(0, 0, h.width, h.height), maxPixels,
            inflate) == Ok(image)
  {
    hide ChunkBytes, HeaderBytes, Signature, Code, Unfiltered, RowsOf, Cropped, ReadHeader, IdatsFrom;
    var raw := Unfiltered(RowsOf(image.pixels, Times(image.width, image.channels), image.height));
    var a, b, c := ChunkBytes(Code(IHDR), HeaderBytes(image), crc), ChunkBytes(Code(IDAT), deflate(raw), crc),
      ChunkBytes(Code(IEND), [], crc);
    assert EncodedBytes(image, deflate, crc) == Signature() + a + (b + c);
    HeaderReadBack(image, b + c, crc, maxPixels);
    IdatsReadBack(HeaderBytes(image), deflate(raw), crc);
    WholeImage(image);
  }
}
