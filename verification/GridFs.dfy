/**
 A file in chunks: written from pieces of any size, read back whole or by range, whatever has
 become of the chunks since: packages/mongo/src/gridfs/chunks.ts and serve.ts.

 Every chunk but the last is full, and they are numbered from 0. They are inserted in batches, which
 the database may refuse or take in part; each number is written down before its insert, so that
 what landed of a write that failed can be removed. A range is served by the chunks it lies in, of
 which the first and the last are cut.
 */
module GridFs {
  import opened Octets
  import opened Wrappers

  const BATCH: nat := 16

  datatype Chunk = Chunk(n: nat, data: Bytes)

  // ----- what a file's chunks are

  /** The n-th chunk of a file's bytes. */
  function ChunkOf(bytes: Bytes, size: nat, n: nat): Bytes
    requires size > 0
  {
    var at := n * size;
    if at >= |bytes| then [] else if at + size <= |bytes| then bytes[at..at + size] else bytes[at..]
  }

  /** A file's first chunks, numbered from zero. */
  ghost predicate AreChunks(chunks: seq<Chunk>, bytes: Bytes, size: nat)
    requires size > 0
  {
    forall i | 0 <= i < |chunks| :: chunks[i] == Chunk(i, ChunkOf(bytes, size, i)) && chunks[i].data != []
  }

  lemma EarlierChunk(i: nat, n: nat, size: nat)
    requires i < n
    ensures i * size + size <= n * size
  {
    assert (i + 1) * size <= n * size;
  }

  /** So many chunks hold so many bytes, the last one perhaps not full. */
  predicate Reaches(chunks: nat, size: nat, length: nat) {
    chunks * size >= length
  }

  // ----- writeChunks

  /**
   One write of a file: `written` is every id recorded for the cleanup, `landed` what the
   collection holds of it. `fails` says of each insert whether it fails, and after how many.
   */
  class Writer {
    const size: nat
    const fails: nat -> Option<nat>
    var held: array<byte>
    var filled: nat
    var n: nat
    var batch: seq<Chunk>
    var inserts: nat
    var written: seq<nat>
    var landed: seq<Chunk>
    ghost var bytes: Bytes

    constructor (size: nat, fails: nat -> Option<nat>)
      requires size > 0
      ensures this.size == size && this.fails == fails && Valid() && fresh(held)
      ensures bytes == [] && landed == [] && written == []
    {
      this.size, this.fails := size, fails;
      held := new byte[size](_ => 0);
      filled, n, batch, inserts, written, landed := 0, 0, [], 0, [], [];
      bytes := [];
    }

    /** What came in is in the chunks, landed or waiting, and in `held`; every id landed is recorded. */
    ghost predicate Valid()
      reads this, held
    {
      && size > 0 && held.Length == size && filled < size
      && AreChunks(landed + batch, bytes, size) && n == |landed| + |batch|
      && |bytes| == n * size + filled && held[..filled] == bytes[n * size..]
      && Recorded() && |batch| < BATCH
    }

    ghost predicate Recorded()
      reads this
    {
      && |written| == |landed| && forall i | 0 <= i < |landed| :: landed[i].n == i && written[i] == i
    }

    /** What a failed write leaves: an insert failed, and all that landed is recorded to be removed. */
    ghost predicate Stopped()
      reads this
    {
      (exists k | 0 <= k < inserts :: fails(k).Some?) && forall i | 0 <= i < |landed| :: landed[i].n in written
    }

    /** `flushBatch`: recorded first, then inserted; a failed insert has landed some of them. */
    method FlushBatch() returns (ok: bool)
      requires Recorded() && forall i | 0 <= i < |batch| :: batch[i].n == |landed| + i
      modifies `batch, `inserts, `written, `landed
      ensures batch == []
      ensures ok ==> landed == old(landed + batch) && Recorded()
      ensures !ok ==> Stopped()
    {
      ok := true;
      if batch == [] { return; }
      var going := batch;
      batch := [];
      written := written + seq(|going|, i requires 0 <= i < |going| => going[i].n);
      var failed := fails(inserts);
      inserts := inserts + 1;
      if failed.Some? {
        var some := if failed.value <= |going| then failed.value else |going|;
        landed := landed + going[..some];
        ok := false;
        forall i | 0 <= i < |landed| ensures landed[i].n in written { assert written[i] == landed[i].n; }
      } else {
        landed := landed + going;
      }
    }

    /** `emit`: a copy of what is held, as the next chunk. */
    method Emit() returns (ok: bool)
      requires size > 0 && 0 < filled <= held.Length == size
      requires AreChunks(landed + batch, bytes, size) && n == |landed| + |batch| && Recorded() && |batch| < BATCH
      requires held[..filled] == ChunkOf(bytes, size, n)
      modifies `filled, `n, `batch, `inserts, `written, `landed
      ensures ok ==> AreChunks(landed + batch, bytes, size) && n == old(n) + 1 == |landed| + |batch| && Recorded()
                     && filled == 0 && |batch| < BATCH
      ensures !ok ==> Stopped()
    {
      ghost var before := landed + batch;
      batch := batch + [Chunk(n, held[..filled])];
      assert landed + batch == before + [Chunk(n, ChunkOf(bytes, size, n))];
      n := n + 1;
      filled := 0;
      ok := true;
      if |batch| >= BATCH {
        assert forall i | 0 <= i < |batch| :: batch[i] == (landed + batch)[|landed| + i];
        ghost var all := landed + batch;
        ok := FlushBatch();
        if ok { assert landed + batch == all; }
      }
    }

    /** The bytes so far and more of them: no chunk changes. */
    lemma ChunksKept(chunks: seq<Chunk>, more: Bytes)
      requires size > 0 && AreChunks(chunks, bytes, size) && |chunks| * size <= |bytes|
      ensures AreChunks(chunks, bytes + more, size)
    {
      forall i | 0 <= i < |chunks| ensures ChunkOf(bytes + more, size, i) == ChunkOf(bytes, size, i) {
        EarlierChunk(i, |chunks|, size);
      }
    }

    /** Room in `held` filled from a piece. */
    method Fill(piece: Bytes, offset: nat) returns (take: nat)
      requires Valid() && offset < |piece|
      modifies held, `filled, `bytes
      ensures 0 < take && offset + take <= |piece| && filled == old(filled) + take <= size
      ensures bytes == old(bytes) + piece[offset..offset + take]
      ensures filled < size ==> offset + take == |piece|
      ensures AreChunks(landed + batch, bytes, size) && |bytes| == n * size + filled
              && held[..filled] == bytes[n * size..]
    {
      take := if size - filled < |piece| - offset then size - filled else |piece| - offset;
      ChunksKept(landed + batch, piece[offset..offset + take]);
      ghost var at, before := n * size, bytes;
      forall k | 0 <= k < take { held[filled + k] := piece[offset + k]; }
      filled := filled + take;
      bytes := bytes + piece[offset..offset + take];
      assert bytes[at..] == before[at..] + piece[offset..offset + take];
    }

    /** A full `held` is a chunk, and the next one has its own. */
    method EmitFull() returns (ok: bool)
      requires size > 0 && filled == held.Length == size
      requires AreChunks(landed + batch, bytes, size) && n == |landed| + |batch| && Recorded() && |batch| < BATCH
      requires |bytes| == n * size + filled && held[..filled] == bytes[n * size..]
      modifies `held, `filled, `n, `batch, `inserts, `written, `landed
      ensures ok ==> Valid() && fresh(held) && bytes == old(bytes)
      ensures !ok ==> Stopped()
    {
      EarlierChunk(n, n + 1, size);
      assert ChunkOf(bytes, size, n) == bytes[n * size..];
      ok := Emit();
      if ok {
        held := new byte[size](_ => 0);
        assert n * size == |bytes| by { assert (n - 1) * size + size == n * size; }
        assert bytes[n * size..] == held[..0];
      }
    }

    /** One piece of the source. */
    method Put(piece: Bytes) returns (ok: bool)
      requires Valid()
      modifies this, held
      ensures ok ==> Valid() && (held == old(held) || fresh(held)) && bytes == old(bytes) + piece
      ensures !ok ==> Stopped()
    {
      var offset := 0;
      ok := true;
      assert bytes == old(bytes) + piece[..0];
      while offset < |piece|
        invariant 0 <= offset <= |piece| && ok && Valid() && (held == old(held) || fresh(held))
        invariant bytes == old(bytes) + piece[..offset]
      {
        ghost var before, start := bytes, offset;
        var take := Fill(piece, offset);
        offset := offset + take;
        assert piece[..offset] == piece[..start] + piece[start..offset];
        if filled == size {
          ok := EmitFull();
          if !ok { return; }
        }
      }
      assert piece[..|piece|] == piece;
    }

    lemma LastIsRest(n: nat)
      requires size > 0 && n * size <= |bytes| <= n * size + size
      ensures ChunkOf(bytes, size, n) == bytes[n * size..]
    {
    }

    /** What is held, though not full, is the last chunk. */
    method EmitRest() returns (ok: bool)
      requires Valid()
      modifies `filled, `n, `batch, `inserts, `written, `landed
      ensures ok ==> AreChunks(landed + batch, bytes, size) && n == |landed| + |batch| && Recorded()
                     && Reaches(n, size, |bytes|)
      ensures !ok ==> Stopped()
    {
      hide ChunkOf;
      ok := true;
      if filled > 0 {
        EarlierChunk(n, n + 1, size);
        LastIsRest(n);
        ok := Emit();
      }
    }

    /** The last chunk, when there are bytes for one, and what still waits. */
    method Finish() returns (ok: bool)
      requires Valid()
      modifies this
      ensures ok ==> AreChunks(landed, bytes, size) && Reaches(|landed|, size, |bytes|) && bytes == old(bytes)
      ensures !ok ==> Stopped()
    {
      hide Reaches, ChunkOf;
      assert size > 0;
      ok := EmitRest();
      if !ok { return; }
      hide Valid;
      ghost var all := landed + batch;
      assert forall i | 0 <= i < |batch| :: batch[i] == all[|landed| + i] && all[|landed| + i].n == |landed| + i;
      ok := FlushBatch();
      assert ok ==> landed == all;
    }
  }

  /**
   `writeChunks`: however the source is cut, the chunks are those of its bytes, none empty and none
   missing, and the length is theirs; and when an insert fails, every chunk that landed is recorded.
   */
  method WriteChunks(size: nat, pieces: seq<Bytes>, fails: nat -> Option<nat>)
    returns (length: Option<nat>, landed: seq<Chunk>, written: seq<nat>)
    requires size > 0
    ensures length.Some? ==> length.value == |Joined(pieces)| && AreChunks(landed, Joined(pieces), size)
                             && |landed| * size >= length.value
    ensures length.None? ==> (exists k :: fails(k).Some?) && forall c | c in landed :: c.n in written
  {
    var w := new Writer(size, fails);
    var total := 0;
    for i := 0 to |pieces|
      invariant w.Valid() && fresh(w) && fresh(w.held) && w.size == size && w.fails == fails
      invariant w.bytes == Joined(pieces[..i])
      invariant total == |w.bytes|
    {
      assert pieces[..i + 1] == pieces[..i] + [pieces[i]];
      JoinedMore(pieces[..i], pieces[i]);
      var ok := w.Put(pieces[i]);
      if !ok { return None, w.landed, w.written; }
      total := total + |pieces[i]|;
    }
    assert pieces[..|pieces|] == pieces;
    var ok := w.Finish();
    length, landed, written := if ok then Some(total) else None, w.landed, w.written;
  }

  // ----- readChunks

  /** Chunks as they may have become: each a prefix of what it was, some not there any more. */
  ghost predicate Remain(docs: seq<Chunk>, bytes: Bytes, size: nat)
    requires size > 0
  {
    forall c | c in docs :: c.data <= ChunkOf(bytes, size, c.n)
  }

  datatype Ending = Clean | MissingChunk(n: nat) | ShortFile

  function Clamp(x: int, low: int, high: int): int {
    var y := if x < high then x else high;
    if y > low then y else low
  }

  /** The bytes a range names, within the file's length; all of them by default. */
  function StartOf(length: nat, start: Option<int>): (s: nat)
    ensures s <= length && (start.None? ==> s == 0)
    ensures start.Some? && 0 <= start.value <= length ==> s == start.value
    ensures start.Some? && !(0 <= start.value <= length) ==> s == if start.value < 0 then 0 else length
  {
    Clamp(if start.Some? then start.value else 0, 0, length)
  }

  function EndOf(length: nat, start: Option<int>, end: Option<int>): (e: nat)
    ensures StartOf(length, start) <= e <= length && (end.None? ==> e == length)
    ensures end.Some? && StartOf(length, start) <= end.value <= length ==> e == end.value
  {
    Clamp(if end.Some? then end.value else length, StartOf(length, start), length)
  }

  function FirstChunk(start: nat, size: nat): nat
    requires size > 0
  {
    start / size
  }

  function LastChunk(end: nat, size: nat): nat
    requires size > 0 && end > 0
  {
    (end + size - 1) / size - 1
  }

  lemma ChunkSpan(start: nat, end: nat, size: nat)
    requires size > 0 && start < end
    ensures FirstChunk(start, size) * size <= start < FirstChunk(start, size) * size + size
    ensures LastChunk(end, size) * size < end <= LastChunk(end, size) * size + size
    ensures FirstChunk(start, size) <= LastChunk(end, size)
  {
    var f, l := FirstChunk(start, size), LastChunk(end, size);
    assert start == f * size + start % size;
    assert end + size - 1 == (l + 1) * size + (end + size - 1) % size;
    assert (l + 1) * size == l * size + size;
    if f > l { EarlierChunk(l, f, size); }
  }

  /** How much of a range is before an offset. */
  function Before(at: int, start: int, end: int): nat
    requires start <= end
  {
    Clamp(at, start, end) - start
  }

  /** The chunks a range spans, whole. */
  ghost predicate Intact(docs: seq<Chunk>, bytes: Bytes, size: nat, start: nat, end: nat)
    requires size > 0 && start < end
  {
    var first := FirstChunk(start, size);
    && |docs| == LastChunk(end, size) - first + 1
    && forall i | 0 <= i < |docs| :: docs[i] == Chunk(first + i, ChunkOf(bytes, size, first + i))
  }

  /** How far into the chunk at an offset a range that ends there goes. */
  function Reach(size: int, at: int, end: int): int {
    if end - at < size then end - at else size
  }

  function Takes(size: nat, n: nat, end: int): int {
    Reach(size, n * size, end)
  }

  /** The chunks a range spans are there, each with all that the range takes of it. */
  ghost predicate Enough(docs: seq<Chunk>, size: nat, start: nat, end: nat)
    requires size > 0 && start < end
  {
    |docs| == LastChunk(end, size) - FirstChunk(start, size) + 1 && EnoughOf(docs, size, FirstChunk(start, size), end)
  }

  ghost predicate EnoughOf(docs: seq<Chunk>, size: nat, first: nat, end: nat) {
    forall i | 0 <= i < |docs| :: docs[i].n == first + i && |docs[i].data| >= Takes(size, docs[i].n, end)
  }

  lemma EnoughMore(docs: seq<Chunk>, i: nat, size: nat, first: nat, end: nat)
    requires i < |docs|
    ensures EnoughOf(docs[..i + 1], size, first, end) <==>
            && EnoughOf(docs[..i], size, first, end)
            && docs[i].n == first + i && |docs[i].data| >= Takes(size, docs[i].n, end)
    ensures EnoughOf(docs, size, first, end) ==> EnoughOf(docs[..i + 1], size, first, end)
  {
    assert docs[..i + 1] == docs[..i] + [docs[i]];
    hide Takes;
    if EnoughOf(docs[..i + 1], size, first, end) {
      assert forall j | 0 <= j < i :: docs[..i][j] == docs[..i + 1][j];
      assert docs[..i + 1][i] == docs[i];
    }
  }

  /** Whole chunks are enough. */
  lemma IntactIsEnough(docs: seq<Chunk>, bytes: Bytes, size: nat, start: nat, end: nat)
    requires size > 0 && start < end <= |bytes| && Intact(docs, bytes, size, start, end)
    ensures Enough(docs, size, start, end)
  {
    var first := FirstChunk(start, size);
    ChunkSpan(start, end, size);
    forall i | 0 <= i < |docs| ensures |docs[i].data| >= Reach(size, (first + i) * size, end) {
      NextPlace(first + i, LastChunk(end, size), size);
    }
  }

  lemma PartOfSlice(bytes: Bytes, at: nat, whole: Bytes, data: Bytes, from: nat, to: nat)
    requires at + |whole| <= |bytes| && whole == bytes[at..at + |whole|] && data <= whole && from <= to <= |data|
    ensures at + to <= |bytes| && data[from..to] == bytes[at + from..at + to]
  {
    assert |data| <= |whole| && forall k | 0 <= k < |data| :: data[k] == whole[k] == bytes[at + k];
  }

  lemma ChunkAtPlace(bytes: Bytes, size: nat, n: nat, at: int)
    requires size > 0 && at == n * size
    ensures var whole := ChunkOf(bytes, size, n);
            whole != [] ==> 0 <= at && at + |whole| <= |bytes| && whole == bytes[at..at + |whole|]
  {
  }

  /** The bytes of a chunk, where they are in the file. */
  lemma PartOfChunk(bytes: Bytes, size: nat, c: Chunk, at: int, from: int, to: int)
    requires size > 0 && c.data <= ChunkOf(bytes, size, c.n) && at == c.n * size && 0 <= from <= to <= |c.data|
    ensures at + |c.data| <= |bytes| || c.data == []
    ensures from < to ==> at + to <= |bytes| && c.data[from..to] == bytes[at + from..at + to]
  {
    ChunkAtPlace(bytes, size, c.n, at);
    hide ChunkOf;
    if from < to { PartOfSlice(bytes, at, ChunkOf(bytes, size, c.n), c.data, from, to); }
  }

  /** How many bytes a chunk of so many adds, and when that is as many as it should. */
  lemma HowMany(size: int, held: int, whole: int, at: int, start: int, end: int)
    requires 0 <= start < end && start < at + size && 0 <= at < end && 0 <= held <= whole <= size
             && at + whole >= (if end < at + size then end else at + size)
    ensures var from, to := Clamp(start - at, 0, start), Clamp(end - at, -end, held);
            var more := if to > from then to - from else 0;
            && Before(at, start, end) + more <= Before(at + size, start, end)
            && (Before(at, start, end) + more == Before(at + size, start, end) <==> held >= Reach(size, at, end))
            && (to > from ==> at + from == start + Before(at, start, end))
  {
  }

  /** What one chunk adds to a range, and that it adds all it should exactly when none of that is cut. */
  lemma OneChunk(bytes: Bytes, size: nat, c: Chunk, at: int, start: int, end: int, given: Bytes)
    requires size > 0 && 0 <= start < end <= |bytes| && c.data <= ChunkOf(bytes, size, c.n) && at == c.n * size
    requires start < at + size && at < end && |given| <= Before(at, start, end)
    requires |given| == Before(at, start, end) ==> given == bytes[start..start + |given|]
    ensures var from := Clamp(start - at, 0, start);
            var to := Clamp(end - at, -end, |c.data|);
            var more := given + if to > from then c.data[from..to] else [];
            && |more| <= Before(at + size, start, end)
            && (|more| == Before(at + size, start, end) ==> more == bytes[start..start + |more|])
            && (|more| == Before(at + size, start, end) <==>
                |given| == Before(at, start, end) && |c.data| >= Reach(size, at, end))
  {
    var from := Clamp(start - at, 0, start);
    var to := Clamp(end - at, -end, |c.data|);
    HowMany(size, |c.data|, |ChunkOf(bytes, size, c.n)|, at, start, end);
    assert 0 <= from && to <= |c.data|;
    hide ChunkOf, Before, Clamp, Reach;
    if to > from {
      PartOfChunk(bytes, size, c, at, from, to);
      if |given| == Before(at, start, end) {
        assert bytes[start..start + |given|] + bytes[at + from..at + to] == bytes[start..at + to];
      }
    }
  }

  lemma BeginsReading(docs: seq<Chunk>, bytes: Bytes, size: nat, s: nat, e: nat)
    requires size > 0 && s < e <= |bytes|
    ensures var first, last := FirstChunk(s, size), LastChunk(e, size);
            && docs[..0] == [] && docs[..|docs|] == docs && EnoughOf([], size, first, e)
            && UpToDate(size, first, s, e, []) && Reading(bytes, size, first, s, e, [])
            && (Enough(docs, size, s, e) <==> |docs| == last - first + 1 && EnoughOf(docs, size, first, e))
  {
    ChunkSpan(s, e, size);
  }

  /**
   `readChunks`, chunk by chunk from the cursor: over chunks that may be gone or cut short, a clean end
   gives exactly the bytes of the range, and the end is clean exactly when every chunk the range spans
   is there with all the range takes of it.
   */
  method ReadChunks(size: nat, length: nat, start: Option<int>, end: Option<int>, docs: seq<Chunk>, ghost bytes: Bytes)
    returns (given: Bytes, ending: Ending)
    requires size > 0 && |bytes| == length && Remain(docs, bytes, size)
    requires var s, e := StartOf(length, start), EndOf(length, start, end);
             s < e ==> forall c | c in docs :: FirstChunk(s, size) <= c.n <= LastChunk(e, size)
    ensures ending.Clean? ==> given == bytes[StartOf(length, start)..EndOf(length, start, end)]
    ensures var s, e := StartOf(length, start), EndOf(length, start, end);
            s < e ==> (ending.Clean? <==> Enough(docs, size, s, e))
    ensures StartOf(length, start) == EndOf(length, start, end) ==> ending.Clean?
  {
    var s, e := StartOf(length, start), EndOf(length, start, end);
    given := [];
    if e == s { return given, Clean; }
    ChunkSpan(s, e, size);
    var firstChunk, lastChunk := FirstChunk(s, size), LastChunk(e, size);
    var expected, sent := firstChunk, 0;
    BeginsReading(docs, bytes, size, s, e);
    hide ChunkOf, Before, Clamp, FirstChunk, LastChunk, StartOf, EndOf, Reading, UpToDate, Enough, EnoughOf, Takes;
    for i := 0 to |docs|
      invariant expected == firstChunk + i <= lastChunk + 1 && sent == |given|
      invariant Reading(bytes, size, expected, s, e, given)
      invariant UpToDate(size, expected, s, e, given) <==> EnoughOf(docs[..i], size, firstChunk, e)
    {
      var chunk := docs[i];
      EnoughMore(docs, i, size, firstChunk, e);
      if chunk.n != expected { return given, MissingChunk(expected); }
      NextPlace(expected, lastChunk, size);
      given, sent := ReadOne(size, s, e, chunk, given, sent, bytes);
      expected := expected + 1;
    }
    if expected <= lastChunk { return given, MissingChunk(expected); }
    PastTheLast(expected, lastChunk, size, s, e);
    if sent != e - s { return given, ShortFile; }
    AllRead(bytes, size, expected, s, e, given);
    ending := Clean;
  }

  lemma OneMoreChunk(bytes: Bytes, size: nat, c: Chunk, start: int, end: int, given: Bytes, from: int, to: int)
    requires size > 0 && 0 <= start < end <= |bytes| && c.data <= ChunkOf(bytes, size, c.n) && c.n * size < end
    requires Reading(bytes, size, c.n, start, end, given)
    requires from == Clamp(start - c.n * size, 0, start) && to == Clamp(end - c.n * size, -end, |c.data|)
    ensures to > from ==> 0 <= from && to <= |c.data|
    ensures var more := if to > from then given + c.data[from..to] else given;
            && Reading(bytes, size, c.n + 1, start, end, more)
            && (UpToDate(size, c.n + 1, start, end, more) <==>
              UpToDate(size, c.n, start, end, given) && |c.data| >= Takes(size, c.n, end))
  {
    var at := c.n * size;
    assert (c.n + 1) * size == at + size;
    assert to > from ==> 0 <= from && to <= |c.data|;
    hide ChunkOf, Clamp, Before, Reach;
    OneChunk(bytes, size, c, at, start, end, given);
  }

  /** One pull: the part of a chunk the range has; only the first and the last are ever cut. */
  method ReadOne(size: nat, start: nat, end: nat, chunk: Chunk, before: Bytes, sentBefore: nat, ghost bytes: Bytes)
      returns (given: Bytes, sent: nat)
    requires size > 0 && start < end <= |bytes| && chunk.data <= ChunkOf(bytes, size, chunk.n) && chunk.n * size < end
    requires sentBefore == |before| && Reading(bytes, size, chunk.n, start, end, before)
    ensures sent == |given| && Reading(bytes, size, chunk.n + 1, start, end, given)
    ensures UpToDate(size, chunk.n + 1, start, end, given) <==>
            UpToDate(size, chunk.n, start, end, before) && |chunk.data| >= Takes(size, chunk.n, end)
  {
    given, sent := before, sentBefore;
    var at: int := chunk.n * size;
    var from, to := Clamp(start as int - at, 0, start), Clamp(end as int - at, -(end as int), |chunk.data|);
    OneMoreChunk(bytes, size, chunk, start, end, before, from, to);
    hide Reading, UpToDate, ChunkOf, Takes;
    if to > from {
      sent := sent + (to - from);
      given := given + chunk.data[from..to];
    }
  }

  /** So far no more than the range has before here, and that exactly when it is as long. */
  ghost predicate Reading(bytes: Bytes, size: nat, n: nat, start: int, end: int, given: Bytes)
    requires 0 <= start <= end <= |bytes|
  {
    && start < n * size + size && |given| <= Before(n * size, start, end)
    && (|given| == Before(n * size, start, end) ==> given == bytes[start..start + |given|])
  }

  /** All the range has before the n-th chunk is given. */
  predicate UpToDate(size: nat, n: nat, start: int, end: int, given: Bytes)
    requires start <= end
  {
    |given| == Before(n * size, start, end)
  }

  lemma AllRead(bytes: Bytes, size: nat, n: nat, start: int, end: int, given: Bytes)
    requires 0 <= start <= end <= |bytes| && Reading(bytes, size, n, start, end, given)
    requires UpToDate(size, n, start, end, given) && |given| == end - start
    ensures given == bytes[start..end]
  {
  }

  lemma NextPlace(n: nat, last: nat, size: nat)
    requires n <= last
    ensures n * size <= last * size && (n + 1) * size == n * size + size
  {
    if n < last { EarlierChunk(n, last, size); }
  }

  lemma PastTheLast(n: nat, last: nat, size: nat, start: int, end: int)
    requires n > last && start <= end <= last * size + size
    ensures forall given :: UpToDate(size, n, start, end, given) <==> |given| == end - start
  {
    assert (last + 1) * size == last * size + size;
    if n > last + 1 { EarlierChunk(last + 1, n, size); }
  }

  // ----- a write, then a read

  lemma SpanWithin(size: nat, chunks: nat, s: nat, e: nat)
    requires size > 0 && s < e <= chunks * size
    ensures FirstChunk(s, size) <= LastChunk(e, size) < chunks
  {
    ChunkSpan(s, e, size);
    if LastChunk(e, size) >= chunks {
      assert false;
    }
  }

  /** What `writeChunks` stored is read back whole, whatever the pieces it came in and whatever the range. */
  lemma StoredReadBack(size: nat, pieces: seq<Bytes>, landed: seq<Chunk>, s: nat, e: nat, first: nat, last: nat)
    requires size > 0 && AreChunks(landed, Joined(pieces), size) && |landed| * size >= |Joined(pieces)|
    requires s < e <= |Joined(pieces)| && first == FirstChunk(s, size) && last == LastChunk(e, size)
    ensures first <= last < |landed|
    ensures var span := landed[first..last + 1];
            Intact(span, Joined(pieces), size, s, e) && Remain(span, Joined(pieces), size) && Enough(span, size, s, e)
  {
    SpanWithin(size, |landed|, s, e);
    hide ChunkOf, FirstChunk, LastChunk, Joined;
    var span := landed[first..last + 1];
    assert forall i | 0 <= i < |span| :: span[i] == landed[first + i];
    IntactIsEnough(span, Joined(pieces), size, s, e);
  }

  // ----- serve.ts

  /**
   A `Range` header: one this package reads as a single range of bytes, with the positions it gives, or anything else.
   */
  datatype RangeHeader = NotOne | OneRange(from: Option<nat>, to: Option<nat>)

  datatype ByteRange = Whole | Unsatisfiable | Part(start: nat, end: nat)

  function Min(a: nat, b: nat): nat {
    if a < b then a else b
  }

  /** `parseRange`. */
  function ParseRange(header: RangeHeader, size: nat): ByteRange {
    if header.NotOne? || (header.from.None? && header.to.None?) then Whole
    else if header.from.None? then
      var wanted := header.to.value;
      if wanted == 0 || size == 0 then Unsatisfiable
      else Part(if size > wanted then size - wanted else 0, size)
    else
      var start := header.from.value;
      var end := if header.to.None? then size else Min(size, header.to.value + 1);
      if start >= size || end <= start then Unsatisfiable else Part(start, end)
  }

  /**
   The positions a range specifier selects of so many bytes, as section 14.1.2 of RFC 9110 says: from
   the first to the last position, both in, or to the end; or a suffix so long, or all when shorter.
   */
  predicate Selects(header: RangeHeader, size: nat, p: nat)
    requires header.OneRange? && (header.from.Some? || header.to.Some?)
  {
    && p < size
    && if header.from.Some? then header.from.value <= p && (header.to.Some? ==> p <= header.to.value)
       else p + header.to.value >= size
  }

  /** A range accepted is what the specifier selects, and one refused selects nothing. */
  lemma RangeIsSelected(header: RangeHeader, size: nat)
    requires header.OneRange? && (header.from.Some? || header.to.Some?)
    ensures !ParseRange(header, size).Whole?
    ensures ParseRange(header, size).Unsatisfiable? <==> forall p: nat :: !Selects(header, size, p)
    ensures ParseRange(header, size).Part? ==>
              forall p: nat :: Selects(header, size, p) <==>
                ParseRange(header, size).start <= p < ParseRange(header, size).end
  {
    var r := ParseRange(header, size);
    if r.Part? { assert Selects(header, size, r.start); }
  }

  /** A range served is the bytes it selects, in order. */
  lemma ServedIsSelected(header: RangeHeader, bytes: Bytes, i: nat)
    requires header.OneRange? && (header.from.Some? || header.to.Some?) && ParseRange(header, |bytes|).Part?
    requires var r := ParseRange(header, |bytes|); i < r.end - r.start
    ensures var r := ParseRange(header, |bytes|);
            && r.start <= r.end <= |bytes| && Selects(header, |bytes|, r.start + i)
            && bytes[StartOf(|bytes|, Some(r.start))..EndOf(|bytes|, Some(r.start), Some(r.end))][i]
              == bytes[r.start + i]
            && (forall p: nat | Selects(header, |bytes|, p) :: r.start <= p)
  {
    RangeIsSelected(header, |bytes|);
  }
}
