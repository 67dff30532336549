/**
 The result of the last dec_update is not looked at (src/server_f.c:198).  Without a function
 nothing is hashed, and a record can be accepted that does not end with its tag.
 */
module Unserved {
  import opened Bytes
  import opened Gf128
  import opened Addmul
  import opened Gcm
  import opened EdContext
  import Numbers
  import Receiver

  /** A cipher under whose hash key 1000... hashing is exclusive or, and whose keystream is zero. */
  function Plain(): Cipher {
    (b: Block) => if b == ZeroBytes(16) then BlockOf(ONE) else ZeroBytes(16)
  }

  /** Hashing is adding up the blocks. */
  ghost predicate AddsUp(hash: Hash) {
    forall y: Block, x: seq<byte> :: |x| <= 16 ==> hash(y, x) == XorBytes(y, Pad(x))
  }

  lemma OneAddsUp()
    ensures AddsUp(HashBy(BlockOf(ONE)))
  {
    forall y: Block, x: seq<byte> | |x| <= 16
      ensures HashBy(BlockOf(ONE))(y, x) == XorBytes(y, Pad(x))
    {
      var sum := XorBytes(y, Pad(x));
      BitsXor(y, Pad(x));
      DotOne(ElemOf(sum));
      BlockOfBits(sum);
    }
  }

  /** The tag of at most one block is that block and the block of lengths, added up. */
  lemma ShortTag(hash: Hash, ks: nat -> byte, c: seq<byte>)
    requires AddsUp(hash) && |c| <= 16 && forall i :: 0 <= i < 16 ==> ks(i) == 0
    ensures StreamTag(hash, ks, c) == XorBytes(Pad(c), Lengths(c))
  {
    var y, l := Absorb(hash, ZeroBytes(16), c), Lengths(c);
    assert y == Pad(c);
    assert hash(y, l) == XorBytes(y, Pad(l)) && Pad(l) == l;
  }

  lemma ZeroStream(icb: Block)
    requires icb[15] == 1
    ensures forall i :: 0 <= i < 16 ==> Keystream(Plain(), icb)(i) == 0
  {
  }

  lemma PlainTag(iv: seq<byte>, c: seq<byte>)
    requires |iv| == 12 && |c| <= 16
    ensures Tag(Plain(), iv, c) == XorBytes(Pad(c), Lengths(c))
  {
    TagIsStreamTag(Plain(), iv, c);
    OneAddsUp();
    ZeroStream(PreCounter(iv));
    ShortTag(HashBy(HashKey(Plain())), Keystream(Plain(), PreCounter(iv)), c);
  }

  lemma Stored(records: seq<seq<byte>>, rec: seq<byte>)
    requires records == [rec]
    ensures Receiver.Stream(records) == rec && Receiver.Front(records) == []
  {
    assert records[..0] == [];
  }

  lemma NoData()
    ensures XorBytes(Pad([]), Lengths([])) == ZeroBytes(16)
  {
    Numbers.ZeroDigits(8);
  }

  lemma SomeData(c: seq<byte>, l: seq<byte>)
    requires c == [1] && |l| == 8
    ensures XorBytes(Pad(c), ZeroBytes(8) + l) != ZeroBytes(16)
  {
    assert XorBytes(Pad(c), ZeroBytes(8) + l)[0] == 1;
  }

  /**
   The record holds the data [1] and sixteen zeros, which are not its tag; the server accepts it
   when the mode names no function, because the data is not hashed.
   */
  lemma UncheckedVerdict(lib: Library, modes: nat -> int, iv: seq<byte>, records: seq<seq<byte>>)
    requires |iv| == 12 && !Receiver.Served(lib, modes, 0) && records == [[1] + ZeroBytes(16)]
    ensures Receiver.Framed(records)
    ensures !Receiver.Unserved(lib, modes, records) && !Receiver.LastServed(lib, modes, records)
    ensures |Receiver.Stream(records)| == 17
    ensures var w := Receiver.Stream(records);
      && Receiver.Trailer(w) == Tag(Plain(), iv, Receiver.Front(records))
      && Receiver.Trailer(w) != Tag(Plain(), iv, Receiver.Body(w))
  {
    var c: seq<byte> := [1];
    Stored(records, c + ZeroBytes(16));
    PlainTag(iv, []);
    PlainTag(iv, c);
    NoData();
    SomeData(c, BigEndian(8 * |c|, 8));
  }
}
