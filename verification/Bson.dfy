/**
 The documents of a stream of concatenated BSON, whatever pieces it comes in:
 packages/mongo-backup/src/format/bson-stream.ts.

 A document begins with its own length, in four bytes. The splitter gathers the length, then the
 document, from as many pieces as it takes, and yields it once whole. A length under 5 or over the
 maximum is refused, and so is a stream that ends within a document.
 */
module Bson {
  import opened Octets
  import opened Wrappers

  const DOCUMENT_MAX_BYTES: nat := 17 * 1024 * 1024

  /** A signed 32-bit integer, the least significant byte first: `getInt32(at, true)`. */
  function Int32At(bytes: Bytes, at: nat): int
    requires at + 4 <= |bytes|
  {
    var n := bytes[at] as int + bytes[at + 1] as int * 0x100 + bytes[at + 2] as int * 0x1_0000
      + bytes[at + 3] as int * 0x100_0000;
    if n >= 0x8000_0000 then n - 0x1_0000_0000 else n
  }

  /** The four bytes of such an integer, as the format has them: two's complement, least significant first. */
  function Int32(n: int): (b: Bytes)
    ensures |b| == 4
  {
    var u := if n < 0 then n + 0x1_0000_0000 else n;
    [(u % 256) as byte, (u / 0x100 % 256) as byte, (u / 0x1_0000 % 256) as byte, (u / 0x100_0000 % 256) as byte]
  }

  /** What is read is what was written, wherever it stands. */
  lemma Int32ReadBack(n: int, before: Bytes, after: Bytes)
    requires -0x8000_0000 <= n < 0x8000_0000
    ensures Int32At(before + Int32(n) + after, |before|) == n
  {
    var u := if n < 0 then n + 0x1_0000_0000 else n;
    var all := before + Int32(n) + after;
    assert all[|before|..|before| + 4] == Int32(n);
    assert forall k | 0 <= k < 4 :: all[|before| + k] == Int32(n)[k];
    BytesOf(u);
  }

  lemma BytesOf(u: nat)
    requires u < 0x1_0000_0000
    ensures u == u % 256 + u / 0x100 % 256 * 0x100 + u / 0x1_0000 % 256 * 0x1_0000 + u / 0x100_0000 % 256 * 0x100_0000
  {
    assert u / 0x1_0000 == u / 0x100 / 256 && u / 0x100_0000 == u / 0x100 / 256 / 256;
  }

  predicate IsLength(n: int) {
    5 <= n <= DOCUMENT_MAX_BYTES
  }

  /** A document: its own length first, 17 MiB at most: what the server writes and the record around it. */
  predicate IsDocument(d: Bytes) {
    5 <= |d| <= 17 * 1024 * 1024 && Int32At(d, 0) == |d|
  }

  /** What the stream of some bytes yields, and whether it ends cleanly. */
  datatype Outcome = Outcome(documents: seq<Bytes>, clean: bool)

  function After(yielded: seq<Bytes>, o: Outcome): Outcome {
    Outcome(yielded + o.documents, o.clean)
  }

  function Split(bytes: Bytes): Outcome
    decreases |bytes|
  {
    if bytes == [] then Outcome([], true)
    else if |bytes| < 4 then Outcome([], false)
    else
      var length := Int32At(bytes, 0);
      if !IsLength(length) || |bytes| < length then Outcome([], false)
      else After([bytes[..length]], Split(bytes[length..]))
  }

  /** What is left of the outcome, in the middle of a document or between two. */
  function Left(current: Option<Bytes>, length: nat, rest: Bytes): Outcome {
    if current.None? then Split(rest)
    else if |current.value| + |rest| < length then Outcome([], false)
    else if length < |current.value| then Outcome([], false)
    else After([current.value + rest[..length - |current.value|]], Split(rest[length - |current.value|..]))
  }

  lemma LengthFirst(rest: Bytes, more: Bytes)
    requires |rest| >= 4
    ensures Int32At(rest + more, 0) == Int32At(rest, 0)
  {
  }

  /** A length read: from there the document is being filled, or the stream is refused. */
  lemma Starts(rest: Bytes)
    requires |rest| >= 4
    ensures Split(rest) == if IsLength(Int32At(rest, 0)) then Left(Some([]), Int32At(rest, 0), rest)
            else Outcome([], false)
  {
    if IsLength(Int32At(rest, 0)) && |rest| >= Int32At(rest, 0) {
      assert [] + rest[..Int32At(rest, 0)] == rest[..Int32At(rest, 0)];
    }
  }

  /** Some of the rest moved into the document. */
  lemma Fills(current: Bytes, length: nat, part: Bytes, rest: Bytes)
    requires |current| + |part| <= length
    ensures Left(Some(current), length, part + rest) ==
            if |current| + |part| == length then After([current + part], Split(rest))
              else Left(Some(current + part), length, rest)
  {
    var n := length - |current|;
    if n <= |part + rest| {
      assert (part + rest)[..n] == part + rest[..n - |part|];
      assert (part + rest)[n..] == rest[n - |part|..];
      assert current + (part + rest[..n - |part|]) == current + part + rest[..n - |part|];
      if n == |part| { assert rest[..0] == [] && rest[0..] == rest; }
    }
  }

  lemma AfterTwice(a: seq<Bytes>, b: seq<Bytes>, o: Outcome)
    ensures After(a, After(b, o)) == After(a + b, o)
  {
    assert a + (b + o.documents) == a + b + o.documents;
  }

  /** `bsonDocuments`, between two chunks: what was carried over, and the document being filled. */
  class Splitter {
    var carry: Bytes
    var document: array?<byte>
    var filled: nat
    var yielded: seq<Bytes>

    constructor ()
      ensures Valid() && yielded == [] && carry == [] && document == null
    {
      carry, document, filled, yielded := [], null, 0, [];
    }

    ghost predicate Valid()
      reads this
    {
      |carry| < 4 && (document != null ==> carry == [] && filled < document.Length)
    }

    /** What the whole stream yields, given what is left of it. */
    ghost function Whole(rest: Bytes): Outcome
      requires document != null ==> filled <= document.Length
      reads this, document
    {
      if document == null then After(yielded, Split(rest))
      else After(yielded, Left(Some(document[..filled]), document.Length, rest))
    }

    /** As much of the data as the document has room for; the document is yielded once it is whole. */
    method Fill(data: Bytes, offset: nat, ghost rest: Bytes) returns (n: nat)
      requires document != null && filled < document.Length && offset < |data|
      modifies this, document
      ensures 0 < n && offset + n <= |data| && carry == old(carry)
      ensures document == null || (document == old(document) && filled < document.Length && offset + n == |data|)
      ensures Whole(data[offset + n..] + rest) == old(Whole(data[offset..] + rest))
    {
      n := if document.Length - filled < |data| - offset then document.Length - filled else |data| - offset;
      ghost var before, part, tail := document[..filled], data[offset..offset + n], data[offset + n..] + rest;
      assert data[offset..] + rest == part + tail;
      Fills(before, document.Length, part, tail);
      ghost var left := Left(Some(before), document.Length, part + tail);
      forall k | 0 <= k < n { document[filled + k] := data[offset + k]; }
      filled := filled + n;
      assert document[..filled] == before + part;
      hide Left, Split;
      if filled == document.Length {
        assert document[..] == before + part;
        AfterTwice(yielded, [document[..]], Split(tail));
        yielded := yielded + [document[..]];
        document := null;
      }
    }

    /** One chunk of the stream, of any size; false for a length that is not one. */
    method Feed(chunk: Bytes, ghost rest: Bytes) returns (ok: bool)
      requires Valid()
      modifies this, document
      ensures ok ==> Valid() && (document == null || document == old(document) || fresh(document))
      ensures ok ==> Whole(carry + rest) == old(Whole(carry + chunk + rest))
      ensures !ok ==> old(Whole(carry + chunk + rest)) == Outcome(yielded, false)
    {
      hide Split, Left, Int32At, IsLength;
      ghost var whole := Whole(carry + chunk + rest);
      var data := carry + chunk;
      carry := [];
      var offset := 0;
      assert data[offset..] + rest == data + rest;
      while offset < |data|
        invariant 0 <= offset <= |data| && carry == []
        invariant document != null ==> filled < document.Length
        invariant document == null || document == old(document) || fresh(document)
        invariant Whole(data[offset..] + rest) == whole
        decreases |data| - offset, document == null
      {
        if document != null {
          var n := Fill(data, offset, rest);
          offset := offset + n;
          continue;
        }
        if |data| - offset < 4 {
          carry := data[offset..];
          return true;
        }
        Starts(data[offset..] + rest);
        LengthFirst(data[offset..], rest);
        var length := Int32At(data[offset..], 0);
        if !IsLength(length) {
          assert yielded + [] == yielded;
          return false;
        }
        LengthIsPositive(length);
        document := new byte[length];
        filled := 0;
        assert document[..0] == [];
      }
      assert data[offset..] + rest == carry + rest;
      ok := true;
    }
  }

  lemma LengthIsPositive(n: int)
    requires IsLength(n)
    ensures n > 0
  {
  }

  /** The whole stream: what it yields, and whether it ends cleanly, is what its bytes say. */
  method BsonDocuments(chunks: seq<Bytes>) returns (o: Outcome)
    ensures o == Split(Joined(chunks))
  {
    var s := new Splitter();
    assert s.carry + Joined(chunks) == Joined(chunks) && chunks[0..] == chunks;
    ghost var whole := Split(Joined(chunks));
    assert After([], whole) == whole by { assert [] + whole.documents == whole.documents; }
    for i := 0 to |chunks|
      invariant s.Valid() && fresh(s) && (s.document == null || fresh(s.document))
      invariant s.Whole(s.carry + Joined(chunks[i..])) == whole
    {
      assert Joined(chunks[i..]) == chunks[i] + Joined(chunks[i + 1..]);
      assert s.carry + Joined(chunks[i..]) == s.carry + chunks[i] + Joined(chunks[i + 1..]);
      var ok := s.Feed(chunks[i], Joined(chunks[i + 1..]));
      if !ok { return Outcome(s.yielded, false); }
    }
    assert s.carry + Joined(chunks[|chunks|..]) == s.carry;
    assert s.yielded + [] == s.yielded;
    o := Outcome(s.yielded, s.document == null && s.carry == []);
  }

  // ----- what that says of the bytes

  lemma {:induction false} SplitOfJoined(documents: seq<Bytes>)
    requires forall d | d in documents :: IsDocument(d)
    ensures Split(Joined(documents)) == Outcome(documents, true)
    decreases |documents|
  {
    if documents != [] {
      var d, rest := documents[0], Joined(documents[1..]);
      assert d in documents && IsDocument(d) && Joined(documents) == d + rest;
      SplitOfJoined(documents[1..]);
      LengthFirst(d, rest);
      assert (d + rest)[..|d|] == d && (d + rest)[|d|..] == rest;
      assert [d] + documents[1..] == documents;
    }
  }

  lemma {:induction false} JoinedOfSplit(bytes: Bytes)
    ensures forall d | d in Split(bytes).documents :: IsDocument(d)
    ensures Split(bytes).clean ==> Joined(Split(bytes).documents) == bytes
    decreases |bytes|
  {
    if |bytes| >= 4 && IsLength(Int32At(bytes, 0)) && |bytes| >= Int32At(bytes, 0) {
      var n := Int32At(bytes, 0);
      JoinedOfSplit(bytes[n..]);
      assert Int32At(bytes[..n], 0) == n;
      var rest := Split(bytes[n..]);
      assert Split(bytes).documents == [bytes[..n]] + rest.documents;
      assert ([bytes[..n]] + rest.documents)[1..] == rest.documents;
      assert bytes[..n] + bytes[n..] == bytes;
    }
  }

  /** The stream ends cleanly exactly when its bytes are documents one after the other, and then it yields those. */
  lemma CleanExactly(bytes: Bytes)
    ensures Split(bytes).clean <==>
              exists documents :: (forall d | d in documents :: IsDocument(d)) && Joined(documents) == bytes
    ensures forall documents | (forall d | d in documents :: IsDocument(d)) && Joined(documents) == bytes ::
              Split(bytes).documents == documents
  {
    JoinedOfSplit(bytes);
    forall documents | (forall d | d in documents :: IsDocument(d)) && Joined(documents) == bytes
      ensures Split(bytes) == Outcome(documents, true)
    {
      SplitOfJoined(documents);
    }
  }
}
