/**
 A region of a PNG, read while it inflates: packages/image/src/crop/row-assembler.ts and crop-png.ts.
 */
module Crop {
  // What decides the outcome is the inflated bytes, one after the other, and how they end; never how
  // they are cut into pieces. `Cropping` says the outcome of a whole stream; the methods reach it
  // piece by piece with two row buffers, and the lemmas tie it to the image decoded whole.

  import opened Octets
  import opened Wrappers
  import opened Unfilter

  datatype Refusal = NoEnd | CutShort | NoSignature | NoHeader | BadSize | TooManyPixels | BadDepth | Interlaced
                   | BadColour | NoData | BadZlib | TooLong | TooShort | UnknownFilter | OutsideImage

  /** n * k, as offsets grow: one k at a time. */
  function Times(n: nat, k: nat): nat {
    if n == 0 then 0 else Times(n - 1, k) + k
  }

  lemma {:induction false} TimesIs(n: nat, k: nat)
    ensures Times(n, k) == n * k
  {
    if n > 0 { TimesIs(n - 1, k); }
  }

  lemma TimesStep(n: nat, k: nat)
    ensures Times(n + 1, k) == Times(n, k) + k
  {
  }

  lemma {:induction false} TimesGrows(n: nat, m: nat, k: nat)
    requires n <= m
    ensures Times(n, k) <= Times(m, k)
  {
    if n < m { TimesGrows(n, m - 1, k); }
  }

  datatype Header = Header(width: nat, height: nat, samples: nat) {
    /** What `readHeader` lets through. */
    predicate Valid() {
      width >= 1 && height >= 1 && 1 <= samples <= 4
    }

    function Stride(): nat {
      Times(width, samples)
    }
  }

  datatype Region = Region(x: nat, y: nat, width: nat, height: nat)

  predicate Fits(r: Region, h: Header) {
    r.width >= 1 && r.height >= 1 && r.x + r.width <= h.width && r.y + r.height <= h.height
  }

  /** Grey comes out as RGB, grey with alpha as RGBA, and colours as they are. */
  function Channels(samples: nat): nat {
    if samples == 1 then 3 else if samples == 2 then 4 else samples
  }

  // ----- the image decoded whole

  /** A pixel of the output: a grey sample becomes three, with its alpha four, and colours stay. */
  function Widened(pixel: Bytes): (w: Bytes)
    ensures |w| == Channels(|pixel|)
  {
    if |pixel| == 1 then [pixel[0], pixel[0], pixel[0]]
    else if |pixel| == 2 then [pixel[0], pixel[0], pixel[0], pixel[1]]
    else pixel
  }

  function Zeros(n: nat): (z: Bytes)
    ensures |z| == n
  {
    seq(n, _ => 0)
  }

  /** The pixel at column `x` of a row; nothing but zeros past its end, where no image has one. */
  function PixelAt(row: Bytes, x: nat, samples: nat): (p: Bytes)
    ensures |p| == samples
  {
    if Times(x + 1, samples) <= |row| then row[Times(x, samples)..Times(x + 1, samples)] else Zeros(samples)
  }

  /** Pixels `x` up to `x + n` of a row, widened. */
  function Columns(row: Bytes, x: nat, n: nat, samples: nat): (c: Bytes)
    ensures |c| == Times(n, Channels(samples))
  {
    if n == 0 then [] else Columns(row, x, n - 1, samples) + Widened(PixelAt(row, x + n - 1, samples))
  }

  lemma {:induction false} ColumnsGrow(row: Bytes, x: nat, n: nat, m: nat, samples: nat)
    requires n <= m
    ensures |Columns(row, x, n, samples)| <= |Columns(row, x, m, samples)|
    ensures Columns(row, x, m, samples)[..|Columns(row, x, n, samples)|] == Columns(row, x, n, samples)
  {
    if n < m {
      ColumnsGrow(row, x, n, m - 1, samples);
    }
  }

  /** Each pixel of a row copied is the row's, widened. */
  lemma {:induction false} ColumnsAre(row: Bytes, x: nat, n: nat, samples: nat, i: nat)
    requires i < n
    ensures Times(i + 1, Channels(samples)) <= Times(n, Channels(samples))
    ensures Columns(row, x, n, samples)[Times(i, Channels(samples))..Times(i + 1, Channels(samples))]
            == Widened(PixelAt(row, x + i, samples))
  {
    TimesGrows(i + 1, n, Channels(samples));
    ColumnsGrow(row, x, i + 1, n, samples);
  }

  /** The rows of an image's inflated bytes, each from the one above; as many as are whole. */
  function Rows(raw: Bytes, prior: Bytes, bpp: nat): seq<Bytes>
    decreases |raw|
  {
    if |raw| < |prior| + 1 then []
    else
      var row := Recon(raw[0] as nat, raw[1..|prior| + 1], prior, bpp);
      [row] + Rows(raw[|prior| + 1..], row, bpp)
  }

  /**
   Whether the inflated bytes begin with so many rows, whole and filtered by types the
   specification defines; `exact`, and are nothing more.
   */
  predicate Begins(raw: Bytes, stride: nat, rows: nat, exact: bool)
    decreases rows
  {
    if rows == 0 then exact ==> raw == []
    else |raw| >= stride + 1 && raw[0] <= 4 && Begins(raw[stride + 1..], stride, rows - 1, exact)
  }

  /** The region's columns of rows, one row after the other. */
  function Stacked(rows: seq<Bytes>, r: Region, samples: nat): (s: Bytes)
    ensures |s| == Times(|rows|, Times(r.width, Channels(samples)))
  {
    if rows == [] then [] else
      assert rows == rows[..|rows| - 1] + [rows[|rows| - 1]];
      Stacked(rows[..|rows| - 1], r, samples) + Columns(rows[|rows| - 1], r.x, r.width, samples)
  }

  // ----- the outcome of a whole stream

  /** How the inflated bytes end: cleanly, or with an error of the stream's. */
  type Ending = Option<Refusal>

  function Shorter(end: Ending): Result<Bytes, Refusal> {
    Err(if end.Some? then end.value else TooShort)
  }

  /** What a row adds to the region's pixels. */
  function Taken(h: Header, r: Region, y: nat, row: Bytes): Bytes
    requires h.Valid() && Fits(r, h) && |row| == h.Stride()
  {
    if y >= r.y then Columns(row, r.x, r.width, h.samples) else []
  }

  /** Whether a row is the last one to be read, so that nothing after it is seen. */
  predicate StopsAt(h: Header, r: Region, y: nat) {
    y + 1 >= r.y + r.height && r.y + r.height < h.height
  }

  /**
   What becomes of the bytes from the start of row `y` on, the row above being
   `prior` and the region's pixels up to there `out`.
   */
  function Cropping(h: Header, r: Region, raw: Bytes, end: Ending, y: nat, prior: Bytes, out: Bytes)
      : Result<Bytes, Refusal>
    requires h.Valid() && Fits(r, h) && |prior| == h.Stride()
    decreases |raw|
  {
    if y >= h.height then
      if raw != [] then Err(TooLong) else if end.Some? then Err(end.value) else Ok(out)
    else if |raw| < h.Stride() + 1 then Shorter(end)
    else if raw[0] > 4 then Err(UnknownFilter)
    else
      var row := Recon(raw[0] as nat, raw[1..h.Stride() + 1], prior, h.samples);
      var grown := out + Taken(h, r, y, row);
      if StopsAt(h, r, y) then Ok(grown)
      else Cropping(h, r, raw[h.Stride() + 1..], end, y + 1, row, grown)
  }

  // ----- what the outcome is, of the image decoded whole

  lemma {:induction false} RowsAre(raw: Bytes, prior: Bytes, bpp: nat, stride: nat, n: nat, exact: bool)
    requires |prior| == stride && Begins(raw, stride, n, exact)
    ensures |Rows(raw, prior, bpp)| >= n && forall row | row in Rows(raw, prior, bpp) :: |row| == stride
    decreases |raw|
  {
    if |raw| >= stride + 1 {
      RowsAre(raw[stride + 1..], Recon(raw[0] as nat, raw[1..stride + 1], prior, bpp), bpp, stride, if n > 0
        then n - 1 else 0, n > 0 && exact);
    }
  }

  /** The rows of the region among those from row `y` on. */
  function Wanted(rows: seq<Bytes>, r: Region, y: nat): seq<Bytes>
    requires y + |rows| >= r.y + r.height >= y
  {
    rows[if y < r.y then r.y - y else 0..r.y + r.height - y]
  }

  /** The bytes that settle a crop: the rows down to the region's last, and the end when that is the image's. */
  predicate Enough(h: Header, r: Region, raw: Bytes, end: Ending, y: nat)
    requires r.y + r.height >= y
  {
    && Begins(raw, h.Stride(), r.y + r.height - y, r.y + r.height == h.height)
    && (r.y + r.height == h.height ==> end.None?)
  }

  /** A crop succeeds exactly when its bytes are enough. */
  lemma {:induction false} SucceedsExactly(h: Header, r: Region, raw: Bytes, end: Ending, y: nat, prior: Bytes,
      out: Bytes)
    requires h.Valid() && Fits(r, h) && |prior| == h.Stride()
    requires y < r.y + r.height || (y == r.y + r.height == h.height)
    ensures Cropping(h, r, raw, end, y, prior, out).Ok? <==> Enough(h, r, raw, end, y)
    decreases |raw|
  {
    var stride := h.Stride();
    if y < h.height && |raw| >= stride + 1 && raw[0] <= 4 {
      var row := Recon(raw[0] as nat, raw[1..stride + 1], prior, h.samples);
      assert Enough(h, r, raw, end, y) == Enough(h, r, raw[stride + 1..], end, y + 1);
      if !StopsAt(h, r, y) {
        SucceedsExactly(h, r, raw[stride + 1..], end, y + 1, row, out + Taken(h, r, y, row));
      }
    }
  }

  lemma {:induction false} StackedMore(rows: seq<Bytes>, row: Bytes, r: Region, samples: nat)
    ensures Stacked(rows + [row], r, samples) == Stacked(rows, r, samples) + Columns(row, r.x, r.width, samples)
  {
    assert (rows + [row])[..|rows|] == rows;
  }

  /** The region's rows so far, once row `y` is read. */
  function Grown(done: seq<Bytes>, r: Region, y: nat, row: Bytes): seq<Bytes> {
    if y >= r.y then done + [row] else done
  }

  lemma GrownIsTaken(h: Header, r: Region, y: nat, row: Bytes, done: seq<Bytes>)
    requires h.Valid() && Fits(r, h) && |row| == h.Stride()
    ensures Stacked(Grown(done, r, y, row), r, h.samples) == Stacked(done, r, h.samples) + Taken(h, r, y, row)
  {
    if y >= r.y { StackedMore(done, row, r, h.samples); }
  }

  lemma Slides<T>(s: seq<T>, i: nat, j: nat)
    requires 0 < i <= j <= |s|
    ensures s[1..][i - 1..j - 1] == s[i..j]
  {
  }

  lemma WantedStep(rows: seq<Bytes>, r: Region, y: nat, done: seq<Bytes>)
    requires rows != [] && y + |rows| >= r.y + r.height > y && r.height > 0
    ensures done + Wanted(rows, r, y) == Grown(done, r, y, rows[0]) + Wanted(rows[1..], r, y + 1)
  {
    var last := r.y + r.height - y;
    if y >= r.y {
      Slides(rows, 1, last);
      assert rows[0..last] == [rows[0]] + rows[1..last];
    } else {
      Slides(rows, r.y - y, last);
    }
  }

  /** One row of a stream that is enough. */
  lemma OneRow(h: Header, r: Region, raw: Bytes, end: Ending, y: nat, prior: Bytes, out: Bytes)
      returns (row: Bytes, rest: Bytes)
    requires h.Valid() && Fits(r, h) && |prior| == h.Stride() && y < r.y + r.height && Enough(h, r, raw, end, y)
    ensures |row| == h.Stride() && |rest| < |raw|
    ensures Rows(raw, prior, h.samples) == [row] + Rows(rest, row, h.samples)
    ensures !StopsAt(h, r, y) ==> Enough(h, r, rest, end, y + 1)
    ensures Cropping(h, r, raw, end, y, prior, out) ==
            if StopsAt(h, r, y) then Ok(out + Taken(h, r, y, row))
              else Cropping(h, r, rest, end, y + 1, row, out + Taken(h, r, y, row))
  {
    hide Recon, Columns, Times;
    row, rest := Recon(raw[0] as nat, raw[1..h.Stride() + 1], prior, h.samples), raw[h.Stride() + 1..];
  }

  /** What it gives is the region's columns of the region's rows, of the image as its specification decodes it. */
  lemma {:induction false} CropsTheDecoded(h: Header, r: Region, raw: Bytes, end: Ending, y: nat, prior: Bytes,
      done: seq<Bytes>)
    requires h.Valid() && Fits(r, h) && |prior| == h.Stride()
    requires y < r.y + r.height || (y == r.y + r.height == h.height)
    requires Enough(h, r, raw, end, y) && |Rows(raw, prior, h.samples)| >= r.y + r.height - y
    ensures var rows := done + Wanted(Rows(raw, prior, h.samples), r, y);
            Cropping(h, r, raw, end, y, prior, Stacked(done, r, h.samples)) == Ok(Stacked(rows, r, h.samples))
    decreases |raw|
  {
    hide Cropping, Rows, Stacked, Columns, Recon;
    var rows := Rows(raw, prior, h.samples);
    if y == h.height {
      PastTheLastRow(h, r, raw, end, y, prior, Stacked(done, r, h.samples));
      assert done + Wanted(rows, r, y) == done;
    } else {
      var row, rest := OneRow(h, r, raw, end, y, prior, Stacked(done, r, h.samples));
      var grown := Grown(done, r, y, row);
      GrownIsTaken(h, r, y, row, done);
      WantedStep(rows, r, y, done);
      if StopsAt(h, r, y) {
        assert grown + Wanted(rows[1..], r, y + 1) == grown;
      } else {
        CropsTheDecoded(h, r, rest, end, y + 1, row, grown);
      }
    }
  }

  /** What becomes of the whole stream. */
  function Cropped(h: Header, r: Region, raw: Bytes, end: Ending): Result<Bytes, Refusal>
    requires h.Valid() && Fits(r, h)
  {
    Cropping(h, r, raw, end, 0, Zeros(h.Stride()), [])
  }

  /** Cropping while it inflates is decoding whole, then cropping: when it refuses, and every pixel when it does not. */
  lemma CropIsDecodeThenCrop(h: Header, r: Region, raw: Bytes, end: Ending)
    requires h.Valid() && Fits(r, h)
    ensures Cropped(h, r, raw, end).Ok? <==> Enough(h, r, raw, end, 0)
    ensures Enough(h, r, raw, end, 0) ==>
              var rows := Rows(raw, Zeros(h.Stride()), h.samples);
              && |rows| >= r.y + r.height
              && Cropped(h, r, raw, end) == Ok(Stacked(rows[r.y..r.y + r.height], r, h.samples))
  {
    hide Cropping, Rows, Stacked, Begins, Columns, Recon;
    SucceedsExactly(h, r, raw, end, 0, Zeros(h.Stride()), []);
    if Enough(h, r, raw, end, 0) {
      var rows := Rows(raw, Zeros(h.Stride()), h.samples);
      RowsAre(raw, Zeros(h.Stride()), h.samples, h.Stride(), r.y + r.height, r.y + r.height == h.height);
      CropsTheDecoded(h, r, raw, end, 0, Zeros(h.Stride()), []);
      assert [] + Wanted(rows, r, 0) == rows[r.y..r.y + r.height];
    }
  }

  lemma {:induction false} StackedAt(rows: seq<Bytes>, r: Region, samples: nat, j: nat)
    requires j < |rows|
    ensures var w := Times(r.width, Channels(samples));
            && Times(j + 1, w) <= |Stacked(rows, r, samples)|
            && Stacked(rows, r, samples)[Times(j, w)..Times(j + 1, w)] == Columns(rows[j], r.x, r.width, samples)
  {
    var w := Times(r.width, Channels(samples));
    var before := rows[..|rows| - 1];
    assert rows == before + [rows[|rows| - 1]];
    var last := Columns(rows[|rows| - 1], r.x, r.width, samples);
    if j < |rows| - 1 {
      StackedAt(before, r, samples, j);
    } else {
      assert Stacked(rows, r, samples)[Times(j, w)..] == last;
    }
  }

  /** Pixel `i` of line `j` of a region's pixels. */
  function PixelOf(out: Bytes, width: nat, channels: nat, i: nat, j: nat): Bytes
    requires i < width && Times(j + 1, Times(width, channels)) <= |out|
  {
    TimesGrows(i + 1, width, channels);
    out[Times(j, Times(width, channels))..Times(j + 1, Times(width, channels))]
       [Times(i, channels)..Times(i + 1, channels)]
  }

  lemma PixelOfLine(out: Bytes, row: Bytes, x: nat, width: nat, samples: nat, c: nat, i: nat, j: nat)
    requires c == Channels(samples) && i < width && Times(j + 1, Times(width, c)) <= |out|
    requires out[Times(j, Times(width, c))..Times(j + 1, Times(width, c))] == Columns(row, x, width, samples)
    ensures PixelOf(out, width, c, i, j) == Widened(PixelAt(row, x + i, samples))
  {
    TimesGrows(i + 1, width, c);
    ColumnsAre(row, x, width, samples, i);
  }

  /** Line `j` of a crop is the region's columns of row y + j of the image. */
  lemma CropLine(h: Header, r: Region, raw: Bytes, end: Ending, j: nat)
    requires h.Valid() && Fits(r, h) && Enough(h, r, raw, end, 0) && j < r.height
    ensures var rows := Rows(raw, Zeros(h.Stride()), h.samples);
            var out := Cropped(h, r, raw, end);
            var w := Times(r.width, Channels(h.samples));
            && r.y + j < |rows| && |rows[r.y + j]| == h.Stride()
            && out.Ok? && Times(j + 1, w) <= |out.value|
            && out.value[Times(j, w)..Times(j + 1, w)] == Columns(rows[r.y + j], r.x, r.width, h.samples)
  {
    hide Columns, Cropping, Rows, Stacked;
    CropIsDecodeThenCrop(h, r, raw, end);
    RowsAre(raw, Zeros(h.Stride()), h.samples, h.Stride(), r.y + r.height, r.y + r.height == h.height);
    StackedAt(Rows(raw, Zeros(h.Stride()), h.samples)[r.y..r.y + r.height], r, h.samples, j);
  }

  /** Pixel (i, j) of a crop is pixel (x + i, y + j) of the image. */
  lemma CropPixel(h: Header, r: Region, raw: Bytes, end: Ending, i: nat, j: nat)
    requires h.Valid() && Fits(r, h) && Enough(h, r, raw, end, 0) && i < r.width && j < r.height
    ensures var rows := Rows(raw, Zeros(h.Stride()), h.samples);
            var out := Cropped(h, r, raw, end);
            && r.y + j < |rows| && out.Ok? && Times(j + 1, Times(r.width, Channels(h.samples))) <= |out.value|
            && PixelOf(out.value, r.width, Channels(h.samples), i, j)
              == Widened(PixelAt(rows[r.y + j], r.x + i, h.samples))
  {
    hide Columns, Cropping, Rows, Begins, Stacked;
    CropLine(h, r, raw, end, j);
    PixelOfLine(Cropped(h, r, raw, end).value, Rows(raw, Zeros(h.Stride()), h.samples)[r.y + j],
                r.x, r.width, h.samples, Channels(h.samples), i, j);
  }

  // ----- crop-png.ts and row-assembler.ts, piece by piece

  lemma {:induction false} ColumnsOfColour(row: Bytes, x: nat, n: nat, samples: nat)
    requires 3 <= samples <= 4 && Times(x + n, samples) <= |row|
    ensures Times(x, samples) <= Times(x + n, samples) && Columns(row, x, n, samples)
            == row[Times(x, samples)..Times(x + n, samples)]
  {
    TimesGrows(x, x + n, samples);
    if n > 0 {
      ColumnsOfColour(row, x, n - 1, samples);
      var a, b, c := Times(x, samples), Times(x + n - 1, samples), Times(x + n, samples);
      assert PixelAt(row, x + n - 1, samples) == row[b..c];
      SliceJoins(row, a, b, c);
    }
  }

  lemma SliceJoins(s: Bytes, a: nat, b: nat, c: nat)
    requires a <= b <= c <= |s|
    ensures s[a..b] + s[b..c] == s[a..c]
  {
  }

  /** Where the i-th of things k long is, from `base` on. */
  function Offset(base: nat, i: nat, k: nat): (at: nat)
    ensures at == base + Times(i, k)
  {
    TimesIs(i, k);
    base + i * k
  }

  lemma {:induction false} TimesAdds(n: nat, m: nat, k: nat)
    ensures Times(n, k) + Times(m, k) == Times(n + m, k)
  {
    if m > 0 { TimesAdds(n, m - 1, k); }
  }

  /** `b` put into `s` at `at`. */
  function Spliced(s: Bytes, at: nat, b: Bytes): Bytes {
    if at + |b| <= |s| then s[..at] + b + s[at + |b|..] else s
  }

  lemma SplicedTwice(s: Bytes, at: nat, a: Bytes, b: Bytes)
    requires at + |a| + |b| <= |s|
    ensures Spliced(Spliced(s, at, a), at + |a|, b) == Spliced(s, at, a + b)
  {
  }

  /** `copyColumns`: the region's columns of an unfiltered row, its filter byte first, into the output. */
  method CopyColumns(row: array<byte>, r: Region, samples: nat, out: array<byte>, outRow: nat)
    requires row != out && 1 <= samples <= 4 && 1 + Times(r.x + r.width, samples) <= row.Length
    requires outRow + Times(r.width, Channels(samples)) <= out.Length
    modifies out
    ensures out[..] == Spliced(old(out[..]), outRow, Columns(row[1..], r.x, r.width, samples))
  {
    hide Columns, Offset, Times;
    TimesAdds(r.x, r.width, samples);
    var from := Offset(1, r.x, samples);
    if samples >= 3 {
      var n := Offset(0, r.width, samples);
      CopyColour(row, from, n, out, outRow);
      ColumnsOfColour(row[1..], r.x, r.width, samples);
      assert row[from..from + n] == row[1..][from - 1..from - 1 + n];
    } else {
      CopyGrey(row, r, samples, out, outRow, Channels(samples));
    }
  }

  method CopyColour(row: array<byte>, from: nat, n: nat, out: array<byte>, outRow: nat)
    requires row != out && from + n <= row.Length && outRow + n <= out.Length
    modifies out
    ensures out[..] == Spliced(old(out[..]), outRow, row[from..from + n])
  {
    forall k | 0 <= k < n { out[outRow + k] := row[from + k]; }
  }

  method CopyGrey(row: array<byte>, r: Region, samples: nat, out: array<byte>, outRow: nat, channels: nat)
    requires row != out && 1 <= samples <= 2 && 1 + Times(r.x + r.width, samples) <= row.Length
    requires channels == Channels(samples) && outRow + Times(r.width, channels) <= out.Length
    modifies out
    ensures out[..] == Spliced(old(out[..]), outRow, Columns(row[1..], r.x, r.width, samples))
  {
    ghost var before := out[..];
    assert Columns(row[1..], r.x, 0, samples) == [] && out[..] == Spliced(before, outRow, []);
    hide Columns, Spliced;
    for i := 0 to r.width
      invariant out[..] == Spliced(before, outRow, Columns(row[1..], r.x, i, samples))
    {
      CopyGreyPixel(row, r, i, samples, out, outRow, channels, before);
    }
  }

  /** One turn of the loop: a grey pixel, three times over, and its alpha. */
  method CopyGreyPixel(row: array<byte>, r: Region, i: nat, samples: nat, out: array<byte>, outRow: nat, channels: nat,
      ghost before: Bytes)
    requires row != out && 1 <= samples <= 2 && 1 + Times(r.x + r.width, samples) <= row.Length && i < r.width
    requires channels == Channels(samples) && |before| == out.Length && outRow + Times(r.width, channels) <= out.Length
    requires out[..] == Spliced(before, outRow, Columns(row[1..], r.x, i, samples))
    modifies out
    ensures out[..] == Spliced(before, outRow, Columns(row[1..], r.x, i + 1, samples))
  {
    hide *;
    ghost var pixels := row[1..];
    GreyColumn(pixels, r.x, i, r.width, samples, channels);
    var source := Offset(Offset(1, r.x, samples), i, samples);
    var at := Offset(outRow, i, channels);
    PutGrey(row, source, samples, out, at);
    SplicedTwice(before, outRow, Columns(pixels, r.x, i, samples), GreyAt(pixels, source - 1, samples));
  }

  method PutGrey(row: array<byte>, source: nat, samples: nat, out: array<byte>, at: nat)
    requires row != out && 1 <= samples <= 2 && 1 <= source && source + samples <= row.Length
             && at + Channels(samples) <= out.Length
    modifies out
    ensures out[..] == Spliced(old(out[..]), at, GreyAt(row[1..], source - 1, samples))
  {
    var grey := row[source];
    out[at], out[at + 1], out[at + 2] := grey, grey, grey;
    if samples == 2 { out[at + 3] := row[source + 1]; }
  }

  function GreyAt(row: Bytes, from: nat, samples: nat): (w: Bytes)
    requires 1 <= samples <= 2 && from + samples <= |row|
    ensures |w| == Channels(samples)
  {
    [row[from], row[from], row[from]] + if samples == 2 then [row[from + 1]] else []
  }

  /** Where a grey pixel is in its row, and what it adds. */
  lemma GreyColumn(row: Bytes, x: nat, i: nat, n: nat, samples: nat, channels: nat)
    requires 1 <= samples <= 2 && Times(x + n, samples) <= |row| && i < n && channels == Channels(samples)
    ensures Times(i + 1, channels) == Times(i, channels) + channels <= Times(n, channels)
    ensures Times(x, samples) + Times(i, samples) == Times(x + i, samples) && Times(x + i, samples) + samples <= |row|
    ensures Columns(row, x, i + 1, samples) == Columns(row, x, i, samples) + GreyAt(row, Times(x + i, samples), samples)
  {
    TimesAdds(x, i, samples);
    TimesGrows(i + 1, n, channels);
    TimesGrows(x + i + 1, x + n, samples);
  }

  /** How many bytes of the region are in once row `y` is the next. */
  function DoneBefore(h: Header, r: Region, y: nat): nat {
    Times(if y < r.y then 0 else y - r.y, Times(r.width, Channels(h.samples)))
  }

  lemma OutRow(y: nat, width: nat, channels: nat)
    ensures y * width * channels == Times(y, Times(width, channels))
  {
    TimesIs(width, channels);
    TimesIs(y, Times(width, channels));
    assert y * width * channels == y * (width * channels);
  }

  /** What `cropPng` keeps across rows: the region's pixels so far. */
  class Pixels {
    const h: Header
    const r: Region
    const out: array<byte>

    constructor (h: Header, r: Region)
      requires h.Valid() && Fits(r, h)
      ensures this.h == h && this.r == r && fresh(out) && out.Length == DoneBefore(h, r, r.y + r.height)
    {
      OutRow(r.height, r.width, Channels(h.samples));
      this.h, this.r := h, r;
      this.out := new byte[r.height * r.width * Channels(h.samples)];
    }

    ghost predicate Valid() {
      h.Valid() && Fits(r, h) && out.Length == DoneBefore(h, r, r.y + r.height)
    }

    /** `onRow`: the region's columns are copied; the rest is read only to the region's last row, or to the end. */
    method OnRow(row: array<byte>, y: nat) returns (more: bool)
      requires Valid() && row != out && row.Length == h.Stride() + 1 && y < h.height
      requires y < r.y + r.height
      modifies out
      ensures DoneBefore(h, r, y) <= DoneBefore(h, r, y + 1) <= out.Length
      ensures out[..DoneBefore(h, r, y + 1)] == old(out[..DoneBefore(h, r, y)]) + Taken(h, r, y, row[1..])
      ensures more == !StopsAt(h, r, y)
    {
      hide Columns;
      var lastRow := r.y + r.height - 1;
      var channels := if h.samples == 1 || h.samples == 3 then 3 else 4;
      ghost var w := Times(r.width, channels);
      if y >= r.y {
        OutRow(y - r.y, r.width, channels);
        TimesGrows(y + 1 - r.y, r.height, w);
        TimesGrows(r.x + r.width, h.width, h.samples);
        assert DoneBefore(h, r, y + 1) == DoneBefore(h, r, y) + w;
        var outRow := (y - r.y) * r.width * channels;
        CopyColumns(row, r, h.samples, out, outRow);
      } else {
        assert out[..0] == [];
      }
      more := y < lastRow || lastRow == h.height - 1;
    }
  }

  /** `createRowAssembler`: two row buffers, the one being filled and the one above, swapped at each row. */
  class RowAssembler {
    const h: Header
    var previous: array<byte>
    var current: array<byte>
    var filled: nat
    var y: nat

    constructor (h: Header)
      ensures this.h == h && Valid() && fresh(previous) && fresh(current)
      ensures filled == 0 && y == 0 && previous[1..] == Zeros(h.Stride())
    {
      this.h := h;
      this.previous := new byte[h.Stride() + 1](_ => 0);
      this.current := new byte[h.Stride() + 1](_ => 0);
      this.filled, this.y := 0, 0;
    }

    ghost predicate Valid()
      reads this
    {
      previous != current && previous.Length == current.Length == h.Stride() + 1 && filled <= h.Stride()
    }

    /** What becomes of the stream, given what follows and how it ends. */
    ghost function Outcome(p: Pixels, rest: Bytes, end: Ending): Result<Bytes, Refusal>
      requires Valid() && p.Valid() && p.h == h && DoneBefore(h, p.r, y) <= p.out.Length
      reads this, previous, current, p.out
    {
      Cropping(h, p.r, current[..filled] + rest, end, y, previous[1..], p.out[..DoneBefore(h, p.r, y)])
    }

    /** The buffers and the rows read, between two pieces. */
    ghost predicate Reading(p: Pixels)
      reads this, p
    {
      && Valid() && p.Valid() && p.h == h && p.out != previous && p.out != current
      && DoneBefore(h, p.r, y) <= p.out.Length
      && (y < p.r.y + p.r.height || (y == p.r.y + p.r.height == h.height && filled == 0))
    }

    /** A row is whole: unfiltered in place, handed on, and the buffers swapped. */
    method EndRow(p: Pixels) returns (known: bool, more: bool)
      requires Valid() && p.Valid() && p.h == h && p.out != previous && p.out != current
      requires y < h.height && y < p.r.y + p.r.height && DoneBefore(h, p.r, y) <= p.out.Length
      modifies this, current, p.out
      ensures known == (old(current[0]) <= 4)
      ensures !known ==> previous == old(previous) && current == old(current)
      ensures known ==>
                && previous == old(current) && current == old(previous) && filled == 0 && y == old(y) + 1
                && previous[1..] == Recon(old(current[0]) as nat, old(current[1..]), old(previous[1..]), h.samples)
                && DoneBefore(h, p.r, y) <= p.out.Length && more == !StopsAt(h, p.r, old(y))
                && p.out[..DoneBefore(h, p.r, y)] == old(p.out[..DoneBefore(h, p.r, y)])
                  + Taken(h, p.r, old(y), previous[1..])
    {
      more := false;
      ghost var filt, prior := current[1..], previous[1..];
      assert current[1..1 + h.Stride()] == filt && previous[1..1 + h.Stride()] == prior;
      known := UnfilterRow(current[0], current, previous, 1, h.Stride(), h.samples);
      if known {
        assert current[1..] == Recon(old(current[0]) as nat, filt, prior, h.samples);
        more := p.OnRow(current, y);
        previous, current := current, previous;
        filled, y := 0, y + 1;
      }
    }

    /** The same, as the stream's outcome sees it. */
    method TakeRow(p: Pixels, ghost tail: Bytes, ghost end: Ending) returns (known: bool, more: bool)
      requires Reading(p) && y < h.height
      modifies this, current, p.out
      ensures previous == old(if known then current else previous)
              && current == old(if known then previous else current)
      ensures known && more ==> Reading(p) && filled == 0
      ensures var whole := old(Cropping(h, p.r, current[..] + tail, end, y, previous[1..],
              p.out[..DoneBefore(h, p.r, y)]));
              && (!known ==> whole == Err(UnknownFilter))
              && (known && !more ==> whole == Ok(p.out[..]))
              && (known && more ==> Outcome(p, tail, end) == whole)
    {
      hide Cropping;
      OneRowIn(h, p.r, current[..], tail, end, y, previous[1..], p.out[..DoneBefore(h, p.r, y)]);
      assert current[..][1..] == current[1..];
      known, more := EndRow(p);
      if known && more {
        assert current[..0] + tail == tail;
      } else if known {
        assert p.out[..DoneBefore(h, p.r, y)] == p.out[..];
      }
    }

    /** As much of a piece as the row has room for. */
    method Fill(part: Bytes, at: nat) returns (take: nat)
      requires Valid() && at < |part|
      modifies current
      ensures 0 < take && at + take <= |part| && filled + take <= h.Stride() + 1
      ensures filled + take < h.Stride() + 1 ==> at + take == |part|
      ensures current[..filled + take] == old(current[..filled]) + part[at..at + take]
    {
      take := if |part| - at < h.Stride() + 1 - filled then |part| - at else h.Stride() + 1 - filled;
      forall k | 0 <= k < take { current[filled + k] := part[at + k]; }
    }

    lemma FilledThenRest(before: Bytes, part: Bytes, at: nat, take: nat, rest: Bytes)
      requires at + take <= |part|
      ensures before + part[at..at + take] + (part[at + take..] + rest) == before + (part[at..] + rest)
    {
    }

    /** `feed`: a piece of the stream, whatever its size; false once nothing more is to be read. */
    method Feed(part: Bytes, p: Pixels, ghost rest: Bytes, ghost end: Ending) returns (r: Result<bool, Refusal>)
      requires Reading(p)
      modifies this, previous, current, p.out
      ensures r == Ok(true) ==> Reading(p) && {previous, current} == old({previous, current})
                                && Outcome(p, rest, end) == old(Outcome(p, part + rest, end))
      ensures r == Ok(false) ==> old(Outcome(p, part + rest, end)) == Ok(p.out[..])
      ensures r.Err? ==> old(Outcome(p, part + rest, end)) == Err(r.error)
    {
      hide Cropping;
      var at := 0;
      ghost var whole := Outcome(p, part + rest, end);
      assert part[at..] == part;
      while at < |part|
        invariant 0 <= at <= |part| && Reading(p) && {previous, current} == old({previous, current})
        invariant Outcome(p, part[at..] + rest, end) == whole
      {
        if y >= h.height {
          PastTheLastRow(h, p.r, current[..filled] + (part[at..] + rest), end, y, previous[1..],
            p.out[..DoneBefore(h, p.r, y)]);
          return Err(TooLong);
        }
        ghost var before := current[..filled];
        var take := Fill(part, at);
        FilledThenRest(before, part, at, take, rest);
        at := at + take;
        if filled + take < h.Stride() + 1 {
          filled := filled + take;
          continue;
        }
        assert current[..filled + take] == current[..];
        var known, more := TakeRow(p, part[at..] + rest, end);
        if !known { return Err(UnknownFilter); }
        if !more { return Ok(false); }
      }
      assert part[at..] + rest == rest;
      r := Ok(true);
    }
  }

  /** A whole row at the head of what is left. */
  lemma OneRowIn(h: Header, r: Region, data: Bytes, tail: Bytes, end: Ending, y: nat, prior: Bytes, out: Bytes)
    requires h.Valid() && Fits(r, h) && |prior| == h.Stride() && |data| == h.Stride() + 1 && y < h.height
    ensures var row := Recon(data[0] as nat, data[1..], prior, h.samples);
            Cropping(h, r, data + tail, end, y, prior, out) ==
            if data[0] > 4 then Err(UnknownFilter)
            else if StopsAt(h, r, y) then Ok(out + Taken(h, r, y, row))
            else Cropping(h, r, tail, end, y + 1, row, out + Taken(h, r, y, row))
  {
    assert (data + tail)[1..h.Stride() + 1] == data[1..] && (data + tail)[h.Stride() + 1..] == tail;
  }

  lemma PastTheLastRow(h: Header, r: Region, raw: Bytes, end: Ending, y: nat, prior: Bytes, out: Bytes)
    requires h.Valid() && Fits(r, h) && |prior| == h.Stride() && y >= h.height
    ensures Cropping(h, r, raw, end, y, prior, out) ==
            if raw != [] then Err(TooLong) else if end.Some? then Err(end.value) else Ok(out)
  {
  }

  lemma InsideARow(h: Header, r: Region, raw: Bytes, end: Ending, y: nat, prior: Bytes, out: Bytes)
    requires h.Valid() && Fits(r, h) && |prior| == h.Stride() && y < h.height && |raw| <= h.Stride()
    ensures Cropping(h, r, raw, end, y, prior, out) == Shorter(end)
  {
  }

  /** The read loop of `cropPng`: pieces of any size, then the stream's end, to the region's pixels. */
  method CropStream(h: Header, r: Region, pieces: seq<Bytes>, end: Ending) returns (out: Result<Bytes, Refusal>)
    requires h.Valid() && Fits(r, h)
    ensures out == Cropped(h, r, Joined(pieces), end)
  {
    hide Cropping;
    var pixels := new Pixels(h, r);
    var rows := new RowAssembler(h);
    assert rows.current[..0] + Joined(pieces) == Joined(pieces) && pixels.out[..0] == [];
    ghost var whole := Cropped(h, r, Joined(pieces), end);
    var i := 0;
    while i < |pieces|
      invariant 0 <= i <= |pieces| && rows.h == h && pixels.r == r
      invariant rows.Reading(pixels) && fresh(rows) && fresh(rows.previous) && fresh(rows.current) && fresh(pixels.out)
      invariant rows.Outcome(pixels, Joined(pieces[i..]), end) == whole
    {
      assert Joined(pieces[i..]) == pieces[i] + Joined(pieces[i + 1..]);
      var fed := rows.Feed(pieces[i], pixels, Joined(pieces[i + 1..]), end);
      if fed.Err? { return Err(fed.error); }
      if !fed.value { return Ok(pixels.out[..]); }
      i := i + 1;
    }
    assert rows.current[..rows.filled] + [] == rows.current[..rows.filled];
    if rows.y < h.height {
      InsideARow(h, r, rows.current[..rows.filled], end, rows.y, rows.previous[1..],
        pixels.out[..DoneBefore(h, r, rows.y)]);
    } else {
      PastTheLastRow(h, r, rows.current[..rows.filled], end, rows.y, rows.previous[1..],
        pixels.out[..DoneBefore(h, r, rows.y)]);
      assert pixels.out[..DoneBefore(h, r, rows.y)] == pixels.out[..];
    }
    if end.Some? { return Err(end.value); }
    if rows.y < h.height { return Err(TooShort); }
    out := Ok(pixels.out[..]);
  }
}
