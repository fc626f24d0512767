/**
 The five filters of a PNG row, and undoing them in place: packages/image/src/crop/unfilter.ts,
 against section 9 of the PNG specification.

 A filtered byte is what was left of it once a neighbour's prediction was taken away, modulo 256:
 the byte to its left, the one above, their average, or the nearest of three as Paeth has it. Left
 of a row and above the first there is zero.
 */
module Unfilter {
  import opened Octets

  function Abs(x: int): nat {
    if x < 0 then -x else x
  }

  /** `paeth`. */
  function Paeth(a: int, b: int, c: int): (r: int)
    ensures r == a || r == b || r == c
  {
    var p := a + b - c;
    var pa, pb, pc := Abs(p - a), Abs(p - b), Abs(p - c);
    if pa <= pb && pa <= pc then a else if pb <= pc then b else c
  }

  /** Section 9.4: the neighbour nearest to a + b - c; on a tie the left one, then the upper one. */
  lemma PaethIsNearest(a: int, b: int, c: int)
    ensures var p, r := a + b - c, Paeth(a, b, c);
            && Abs(p - r) <= Abs(p - a) && Abs(p - r) <= Abs(p - b) && Abs(p - r) <= Abs(p - c)
            && (Abs(p - a) == Abs(p - r) ==> r == a)
            && (Abs(p - a) > Abs(p - r) && Abs(p - b) == Abs(p - r) ==> r == b)
  {
  }

  /** What section 9.2 has each filter type predict from the bytes to the left, above, and above to the left. */
  function Predicted(filter: nat, a: byte, b: byte, c: byte): byte {
    match filter
    case 1 => a
    case 2 => b
    case 3 => ((a as int + b as int) / 2) as byte
    case 4 => Paeth(a as int, b as int, c as int) as byte
    case _ => 0
  }

  function Left(row: Bytes, k: nat, bpp: nat): byte
    requires k <= |row|
  {
    if k >= bpp > 0 then row[k - bpp] else 0
  }

  /** Section 9.2 again: arithmetic on bytes is modulo 256. */
  function Plus(x: byte, p: byte): byte {
    ((x as int + p as int) % 256) as byte
  }

  function Minus(x: byte, p: byte): byte {
    ((x as int - p as int) % 256) as byte
  }

  /** Section 9.2: the filtered bytes of a row. */
  function Filtered(filter: nat, row: Bytes, prior: Bytes, bpp: nat): (f: Bytes)
    requires |prior| == |row|
    ensures |f| == |row|
  {
    seq(|row|, k requires 0 <= k < |row| && |prior| == |row| =>
      Minus(row[k], Predicted(filter, Left(row, k, bpp), prior[k], Left(prior, k, bpp))))
  }

  /** Section 9.2: the first n bytes of a row, from its filtered bytes and the row above. */
  function ReconTo(filter: nat, filt: Bytes, prior: Bytes, bpp: nat, n: nat): (r: Bytes)
    requires |prior| == |filt| && n <= |filt|
    ensures |r| == n
  {
    if n == 0 then []
    else
      var before := ReconTo(filter, filt, prior, bpp, n - 1);
      before + [Plus(filt[n - 1], Predicted(filter, Left(before, n - 1, bpp), prior[n - 1], Left(prior, n - 1, bpp)))]
  }

  function Recon(filter: nat, filt: Bytes, prior: Bytes, bpp: nat): (r: Bytes)
    requires |prior| == |filt|
    ensures |r| == |filt|
  {
    ReconTo(filter, filt, prior, bpp, |filt|)
  }

  lemma {:induction false} ReconGrows(filter: nat, filt: Bytes, prior: Bytes, bpp: nat, n: nat, m: nat)
    requires |prior| == |filt| && n <= m <= |filt|
    ensures ReconTo(filter, filt, prior, bpp, m)[..n] == ReconTo(filter, filt, prior, bpp, n)
  {
    if n < m {
      ReconGrows(filter, filt, prior, bpp, n, m - 1);
      assert ReconTo(filter, filt, prior, bpp, m)[..n] == ReconTo(filter, filt, prior, bpp, m - 1)[..n];
    }
  }

  /** Each byte of the result is its filtered byte and what the finished bytes around it predict. */
  lemma ReconEach(filter: nat, filt: Bytes, prior: Bytes, bpp: nat, k: nat)
    requires |prior| == |filt| && k < |filt|
    ensures var r := Recon(filter, filt, prior, bpp);
            r[k] == Plus(filt[k], Predicted(filter, Left(r, k, bpp), prior[k], Left(prior, k, bpp)))
  {
    var r := Recon(filter, filt, prior, bpp);
    ReconGrows(filter, filt, prior, bpp, k + 1, |filt|);
    ReconGrows(filter, filt, prior, bpp, k, |filt|);
    assert r[k] == r[..k + 1][k];
    assert bpp > 0 && k >= bpp ==> r[k - bpp] == r[..k][k - bpp];
  }

  lemma AddedBack(x: byte, p: byte)
    ensures Plus(Minus(x, p), p) == x
  {
  }

  /** A filtered byte and what its row predicts there are the byte. */
  lemma UndoneAt(filter: nat, row: Bytes, prior: Bytes, bpp: nat, k: nat)
    requires |prior| == |row| && k < |row|
    ensures var predicted := Predicted(filter, Left(row, k, bpp), prior[k], Left(prior, k, bpp));
            Plus(Filtered(filter, row, prior, bpp)[k], predicted) == row[k]
  {
    hide Predicted, Left, Plus, Minus;
    AddedBack(row[k], Predicted(filter, Left(row, k, bpp), prior[k], Left(prior, k, bpp)));
  }

  /** Reconstructing undoes filtering, for every filter type and every row above. */
  lemma {:induction false} ReconUndoes(filter: nat, row: Bytes, prior: Bytes, bpp: nat, n: nat)
    requires |prior| == |row| && n <= |row|
    ensures ReconTo(filter, Filtered(filter, row, prior, bpp), prior, bpp, n) == row[..n]
  {
    hide Predicted, Plus, Minus, Filtered;
    if n > 0 {
      ReconUndoes(filter, row, prior, bpp, n - 1);
      UndoneAt(filter, row, prior, bpp, n - 1);
      assert Left(row[..n - 1], n - 1, bpp) == Left(row, n - 1, bpp);
      assert row[..n] == row[..n - 1] + [row[n - 1]];
    }
  }

  /** The bytes from `offset` up to `i` are finished, and the others are as they were. */
  twostate predicate Finished(row: array<byte>, r: Bytes, offset: nat, i: nat)
    requires offset <= i <= offset + |r| <= row.Length
    reads row
  {
    && (forall k | offset <= k < i :: row[k] == r[k - offset])
    && (forall k | 0 <= k < offset || i <= k < row.Length :: row[k] == old(row[k]))
  }

  method UndoSub(row: array<byte>, offset: nat, stride: nat, bpp: nat, ghost prior: Bytes)
    requires offset + stride <= row.Length && bpp > 0 && |prior| == stride
    modifies row
    ensures Finished(row, Recon(1, old(row[offset..offset + stride]), prior, bpp), offset, offset + stride)
  {
    var end := offset + stride;
    ghost var filt := row[offset..end];
    ghost var r := Recon(1, filt, prior, bpp);
    var i := offset + bpp;
    forall k | 0 <= k < stride && k < bpp ensures row[offset + k] == r[k] { ReconEach(1, filt, prior, bpp, k); }
    while i < end
      invariant offset + bpp <= i && (i <= end || i == offset + bpp)
      invariant Finished(row, r, offset, if i <= end then i else end)
    {
      ReconEach(1, filt, prior, bpp, i - offset);
      row[i] := ((row[i] as int + row[i - bpp] as int) % 256) as byte;
      i := i + 1;
    }
  }

  method UndoUp(row: array<byte>, previous: array<byte>, offset: nat, stride: nat, ghost bpp: nat)
    requires row != previous && offset + stride <= row.Length && offset + stride <= previous.Length
    modifies row
    ensures var recon := Recon(2, old(row[offset..offset + stride]), previous[offset..offset + stride], bpp);
            Finished(row, recon, offset, offset + stride)
  {
    var end := offset + stride;
    ghost var filt, prior := row[offset..end], previous[offset..end];
    for i := offset to end
      invariant Finished(row, Recon(2, filt, prior, bpp), offset, i)
    {
      ReconEach(2, filt, prior, bpp, i - offset);
      row[i] := ((row[i] as int + previous[i] as int) % 256) as byte;
    }
  }

  method UndoAverage(row: array<byte>, previous: array<byte>, offset: nat, stride: nat, bpp: nat)
    requires row != previous && offset + stride <= row.Length && offset + stride <= previous.Length && bpp > 0
    modifies row
    ensures var recon := Recon(3, old(row[offset..offset + stride]), previous[offset..offset + stride], bpp);
            Finished(row, recon, offset, offset + stride)
  {
    var end := offset + stride;
    ghost var filt, prior := row[offset..end], previous[offset..end];
    for i := offset to end
      invariant Finished(row, Recon(3, filt, prior, bpp), offset, i)
    {
      ReconEach(3, filt, prior, bpp, i - offset);
      var left := if i - bpp >= offset then row[i - bpp] as int else 0;
      row[i] := ((row[i] as int + (left + previous[i] as int) / 2) % 256) as byte;
    }
  }

  method UndoPaeth(row: array<byte>, previous: array<byte>, offset: nat, stride: nat, bpp: nat)
    requires row != previous && offset + stride <= row.Length && offset + stride <= previous.Length && bpp > 0
    modifies row
    ensures var recon := Recon(4, old(row[offset..offset + stride]), previous[offset..offset + stride], bpp);
            Finished(row, recon, offset, offset + stride)
  {
    var end := offset + stride;
    ghost var filt, prior := row[offset..end], previous[offset..end];
    hide Recon, Paeth;
    for i := offset to end
      invariant Finished(row, Recon(4, filt, prior, bpp), offset, i)
    {
      ReconEach(4, filt, prior, bpp, i - offset);
      var has := i - bpp >= offset;
      var left := if has then row[i - bpp] as int else 0;
      var upLeft := if has then previous[i - bpp] as int else 0;
      var predicted := Paeth(left, previous[i] as int, upLeft);
      row[i] := ((row[i] as int + predicted) % 256) as byte;
    }
  }

  lemma {:induction false} ReconOfNone(filt: Bytes, prior: Bytes, bpp: nat, n: nat)
    requires |prior| == |filt| && n <= |filt|
    ensures ReconTo(0, filt, prior, bpp, n) == filt[..n]
  {
    if n > 0 {
      ReconOfNone(filt, prior, bpp, n - 1);
      assert filt[..n] == filt[..n - 1] + [filt[n - 1]];
    }
  }

  /** `unfilterRow`: one row, in place, from its bytes filtered and the row above. */
  method UnfilterRow(filter: byte, row: array<byte>, previous: array<byte>, offset: nat, stride: nat, bpp: nat)
      returns (known: bool)
    requires row != previous && offset + stride <= row.Length && offset + stride <= previous.Length && bpp > 0
    modifies row
    ensures known == (filter <= 4)
    ensures row[..offset] == old(row[..offset]) && row[offset + stride..] == old(row[offset + stride..])
    ensures known ==> row[offset..offset + stride] ==
                      Recon(filter as nat, old(row[offset..offset + stride]), previous[offset..offset + stride], bpp)
    ensures !known ==> row[..] == old(row[..])
  {
    known := true;
    match filter {
      case 0 => ReconOfNone(row[offset..offset + stride], previous[offset..offset + stride], bpp, stride);
      case 1 => UndoSub(row, offset, stride, bpp, previous[offset..offset + stride]);
      case 2 => UndoUp(row, previous, offset, stride, bpp);
      case 3 => UndoAverage(row, previous, offset, stride, bpp);
      case 4 => UndoPaeth(row, previous, offset, stride, bpp);
      case _ => known := false;
    }
    assert forall k | 0 <= k < offset || offset + stride <= k < row.Length :: row[k] == old(row[k]);
    assert row[offset + stride..] == old(row[offset + stride..]);
  }
}
