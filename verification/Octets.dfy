/**
 Bytes, and pieces of them as a stream gives them.
 */
module Octets {
  newtype byte = x: int | 0 <= x < 256

  type Bytes = seq<byte>

  function Joined(pieces: seq<Bytes>): Bytes {
    if pieces == [] then [] else pieces[0] + Joined(pieces[1..])
  }

  /** One more piece is its bytes after those of the others. */
  lemma {:induction false} JoinedMore(pieces: seq<Bytes>, piece: Bytes)
    ensures Joined(pieces + [piece]) == Joined(pieces) + piece
  {
    if pieces == [] {
      assert [piece][1..] == [] && piece + [] == piece;
    } else {
      JoinedMore(pieces[1..], piece);
      assert (pieces + [piece])[1..] == pieces[1..] + [piece];
      assert pieces[0] + (Joined(pieces[1..]) + piece) == pieces[0] + Joined(pieces[1..]) + piece;
    }
  }
}
