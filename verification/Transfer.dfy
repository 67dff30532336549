/**
 The OpenSSL path of the record loop (mode 0, src/server_f.c:235-258), and transfers from the
 client to either path of the server.
 */
module Transfer {
  import opened Bytes
  import opened Gcm
  import opened EdContext
  import opened Receiver
  import opened Sender

  /** Only the last record may be short enough to hold nothing but tag bytes. */
  ghost predicate TagInLastTwo(records: seq<seq<byte>>) {
    && (forall i :: 0 <= i < |records| ==> 0 < |records[i]| <= CHUNK)
    && (forall i :: 0 <= i < |records| - 1 ==> |records[i]| > TAGSIZE)
  }

  lemma TagOfLast(s: seq<byte>, rec: seq<byte>, held: seq<byte>)
    requires |rec| <= TAGSIZE <= |s| + |rec| && |held| == TAGSIZE
    requires if |s| < TAGSIZE then s == [] else held == Trailer(s)
    ensures Trailer(s + rec) == held[|rec|..] + rec
  {
    if |s| >= TAGSIZE {
      SplitTag(s, rec);
    }
  }

  /** The local variables of the OpenSSL path. */
  class OpenSslSession {
    const ctxx: Evp
    const tag: array<byte>
    var tp: nat
    var ct: nat
    var file: seq<byte>

    constructor (e: Cipher, iv: seq<byte>)
      requires |iv| == 12
      ensures Shape() && fresh(ctxx) && fresh(tag) && ctxx.e == e && ctxx.iv == iv
      ensures ctxx.input == [] && tp == 0 && ct == 0 && file == []
    {
      ctxx := new Evp(e, iv);
      tag := new byte[32];
      tp, ct, file := 0, 0, [];
    }

    ghost predicate Shape() {
      tag.Length == 2 * TAGSIZE && |ctxx.iv| == 12
    }

    /** OpenSSL has been given c, and its output is in the file. */
    ghost predicate Given(c: seq<byte>)
      reads this, ctxx
    {
      Shape() && ctxx.input == c && file == Encipher(Keystream(ctxx.e, PreCounter(ctxx.iv)), 16, c)
    }

    /** The state after records longer than the tag, which make up s. */
    ghost predicate After(s: seq<byte>)
      reads this, ctxx, tag
    {
      && Shape() && tp == 0
      && (ct == 0 ==> s == [] && Given([]))
      && (ct > 0 ==> |s| >= TAGSIZE && Given(Body(s)) && tag[..16] == Trailer(s))
    }

    /** EVP_DecryptUpdate and fwrite. */
    method Decrypt(data: seq<byte>, ghost c: seq<byte>)
      requires Given(c)
      modifies this`file, ctxx
      ensures Given(c + data)
    {
      EncipherAppend(Keystream(ctxx.e, PreCounter(ctxx.iv)), 16, c, data);
      var out := ctxx.Update(data);
      file := file + out;
    }

    /** A record longer than the tag: its last 16 bytes are held back undeciphered. */
    method LongRecord(buffer: seq<byte>, ghost s: seq<byte>)
      requires |buffer| > TAGSIZE && After(s)
      modifies this, ctxx, tag
      ensures After(s + buffer) && ct > 0
    {
      if ct != 0 {
        Decrypt(tag[..16], Body(s));
        assert Body(s) + Trailer(s) == s;
      }
      Decrypt(buffer[..|buffer| - TAGSIZE], s);
      Copy(tag, buffer[|buffer| - TAGSIZE..]);
      assert s + Body(buffer) == Body(s + buffer) && Trailer(s + buffer) == Trailer(buffer);
      tp := 0;
      ct := ct + 1;
    }

    /** A last record of at most 16 bytes: as many of the held-back bytes are data. */
    method LastRecord(buffer: seq<byte>, ghost s: seq<byte>)
      requires 0 < |buffer| <= TAGSIZE <= |s| + |buffer| && After(s)
      modifies this, ctxx, tag
      ensures Given(Body(s + buffer)) && tp <= TAGSIZE && tag[tp..tp + TAGSIZE] == Trailer(s + buffer)
    {
      ghost var held := tag[..16];
      Release(buffer, s);
      PutTail(tag, buffer);
      tp := |buffer|;
      TagOfLast(s, buffer, held);
    }

    /** The data bytes held back are deciphered and written. */
    method Release(buffer: seq<byte>, ghost s: seq<byte>)
      requires 0 < |buffer| <= TAGSIZE <= |s| + |buffer| && After(s)
      modifies this`file, ctxx
      ensures Given(Body(s + buffer))
    {
      if ct != 0 {
        SplitTag(s, buffer);
        Decrypt(tag[..|buffer|], Body(s));
        assert tag[..|buffer|] == tag[..16][..|buffer|];
      } else {
        assert Body(s + buffer) == [];
      }
    }

    /** Everything but the tag has been given to OpenSSL, and the tag is at tp. */
    ghost predicate Ended(w: seq<byte>)
      requires |w| >= TAGSIZE
      reads this, ctxx, tag
    {
      Given(Body(w)) && tp <= TAGSIZE && tag[tp..tp + TAGSIZE] == Trailer(w)
    }

    /** One iteration of the record loop; the result says whether it was the last, short record. */
    method Record(records: seq<seq<byte>>, i: nat) returns (ghost short: bool)
      requires i < |records| && TagInLastTwo(records) && TAGSIZE <= |Stream(records)| && After(Stream(records[..i]))
      modifies this, ctxx, tag
      ensures short ==> i + 1 == |records| && Ended(Stream(records))
      ensures !short ==> After(Stream(records[..i + 1])) && ct > 0
    {
      StreamSplit(records, i);
      short := |records[i]| <= TAGSIZE;
      if |records[i]| > TAGSIZE {
        LongRecord(records[i], Stream(records[..i]));
      } else {
        assert records[..i + 1] == records;
        LastRecord(records[i], Stream(records[..i]));
      }
    }

    /** The record loop. */
    method Loop(records: seq<seq<byte>>)
      requires TagInLastTwo(records) && TAGSIZE <= |Stream(records)| && After([])
      modifies this, ctxx, tag
      ensures Ended(Stream(records))
    {
      var i := 0;
      ghost var short := false;
      assert Stream(records[..0]) == [];
      while i < |records|
        invariant 0 <= i <= |records|
        invariant if short then i == |records| && Ended(Stream(records))
          else After(Stream(records[..i])) && (i > 0 ==> ct > 0)
      {
        short := Record(records, i);
        i := i + 1;
      }
      assert records[..i] == records;
    }
  }

  /**
   One transfer over the OpenSSL path.  `passed` is the ciphertext handed to EVP_DecryptUpdate
   and `given` the tag handed to EVP_CIPHER_CTX_ctrl.
   */
  method ReceiveOpenSsl(e: Cipher, iv: seq<byte>, records: seq<seq<byte>>)
      returns (file: seq<byte>, accepted: bool, passed: seq<byte>, given: seq<byte>)
    requires |iv| == 12 && TagInLastTwo(records) && TAGSIZE <= |Stream(records)|
    ensures passed == Body(Stream(records)) && given == Trailer(Stream(records))
    ensures file == Crypt(e, iv, Body(Stream(records)))
    ensures accepted == (Trailer(Stream(records)) == Tag(e, iv, Body(Stream(records))))
  {
    var x := new OpenSslSession(e, iv);
    x.Loop(records);
    CryptIsEncipher(e, iv, Body(Stream(records)));
    passed := x.ctxx.input;
    given := x.tag[x.tp..x.tp + TAGSIZE];
    accepted := x.ctxx.CheckTag(given);
    file := x.file;
  }

  // ----- client to backend path

  /** How many records the client makes of a file of this length and the tag. */
  function NumRecords(len: nat): nat {
    (len + TAGSIZE + CHUNK - 1) / CHUNK
  }

  /** The record that chunk i of the file begins is deciphered. */
  ghost predicate ChunksServed(lib: Library, modes: nat -> int, len: nat) {
    forall i: nat :: CHUNK * i < len ==> Served(lib, modes, i)
  }

  /** Some record of the client is full, and there is no function for it. */
  ghost predicate FullUnserved(lib: Library, modes: nat -> int, len: nat) {
    exists i: nat :: CHUNK * (i + 1) <= len + TAGSIZE && !Served(lib, modes, i)
  }

  /** Where the record begins that holds the end of the file. */
  function LastStart(len: nat): nat {
    CHUNK * (len / CHUNK)
  }

  lemma ClientRecord(records: seq<seq<byte>>, len: nat, i: nat)
    requires Framed(records) && |Stream(records)| == len + TAGSIZE
    ensures LooksUp(records, i) <==> CHUNK * i < len
    ensures i < |records| && |records[i]| == CHUNK <==> CHUNK * (i + 1) <= len + TAGSIZE
  {
    var last := |records| - 1;
    FrontLength(records, last);
    assert |records[last]| == len + TAGSIZE - CHUNK * last;
  }

  lemma ClientRecords(records: seq<seq<byte>>, len: nat)
    requires Framed(records) && |Stream(records)| == len + TAGSIZE
    ensures |records| == NumRecords(len)
    ensures LooksUp(records, |records| - 1) ==> |Front(records)| == LastStart(len)
  {
    FrontLength(records, |records| - 1);
  }

  /** In terms of the file: which lookups fail. */
  lemma ClientLookups(lib: Library, modes: nat -> int, records: seq<seq<byte>>, len: nat)
    requires Framed(records) && |Stream(records)| == len + TAGSIZE
    ensures Unserved(lib, modes, records) <==> FullUnserved(lib, modes, len)
    ensures !Unserved(lib, modes, records) ==> (LastServed(lib, modes, records) <==> ChunksServed(lib, modes, len))
  {
    forall i: nat
      ensures LooksUp(records, i) <==> CHUNK * i < len
      ensures i < |records| && |records[i]| == CHUNK <==> CHUNK * (i + 1) <= len + TAGSIZE
    {
      ClientRecord(records, len, i);
    }
    if FullUnserved(lib, modes, len) {
      var i: nat :| CHUNK * (i + 1) <= len + TAGSIZE && !Served(lib, modes, i);
      ClientRecord(records, len, i);
      assert |records[i]| == CHUNK;
    }
    if !Unserved(lib, modes, records) && LastServed(lib, modes, records) {
      forall i: nat | CHUNK * i < len
        ensures Served(lib, modes, i)
      {
        assert LooksUp(records, i);
      }
    }
  }

  lemma StreamParts(records: seq<seq<byte>>, e: Cipher, iv: seq<byte>, file: seq<byte>)
    requires |iv| == 12
    requires var (c, t) := AuthEncrypt(e, iv, file); Stream(records) == c + t && |t| == TAGSIZE
    ensures |Stream(records)| == |file| + TAGSIZE
    ensures Body(Stream(records)) == Crypt(e, iv, file)
    ensures Trailer(Stream(records)) == Tag(e, iv, Crypt(e, iv, file))
  {
  }

  /** What Receive says of a file that did not arrive whole, and of one that did. */
  lemma OfFile(lib: Library, modes: nat -> int, records: seq<seq<byte>>, file: seq<byte>, c: seq<byte>,
      received: seq<byte>)
    requires Framed(records) && |Stream(records)| == |file| + TAGSIZE && |c| == |file| && Body(Stream(records)) == c
    requires !Unserved(lib, modes, records)
    requires if LastServed(lib, modes, records) then received == file else Lost(received, file, |Front(records)|)
    ensures RightIf(received, file, LastStart(|file|), ChunksServed(lib, modes, |file|))
    ensures !LastServed(lib, modes, records) ==>
      |Front(records)| == LastStart(|file|) && Front(records) == c[..LastStart(|file|)]
  {
    var n := LastStart(|file|);
    ClientRecords(records, |file|);
    ClientLookups(lib, modes, records, |file|);
    if !LastServed(lib, modes, records) {
      StreamSplit(records, |records| - 1);
      assert records[..|records|] == records;
      assert c[..n] == Stream(records)[..n] == Front(records);
      if n >= CHUNK {
        StaleIsRight(file, n);
      }
    }
  }

  /**
   Client to backend path, for every file, key and IV, and for every schedule of modes whose
   functions, where one is looked up, compute the client's cipher.  If all chunks find a function
   the file arrives and its tag is accepted.  A full record without one ends the transfer; if only
   the end of the file has none, what arrives in its place repeats the chunk before.
   */
  method SendAndReceive(lib: Library, startMode: int, modes: nat -> int, key: seq<byte>, iv: seq<byte>, e: Cipher,
      file: seq<byte>)
      returns (received: seq<byte>, outcome: Outcome)
    requires |key| == 32 && |iv| == 16 && |file| <= MAX_LENGTH
    requires startMode != 0 && Installed(lib, startMode) && Selects(lib, startMode, key, e)
    requires modes(NumRecords(|file|)) != 0
    requires forall i: nat :: CHUNK * i < |file| ==> Selects(lib, modes(i), key, e)
    ensures ChunksServed(lib, modes, |file|) ==> received == file && outcome == Finished(true)
    ensures outcome.Aborted? <==> FullUnserved(lib, modes, |file|)
    ensures outcome.Finished? ==> RightIf(received, file, LastStart(|file|), ChunksServed(lib, modes, |file|))
    ensures outcome.Finished? && !ChunksServed(lib, modes, |file|) ==>
      var c := Crypt(e, iv[..12], file);
      && Lost(received, file, LastStart(|file|))
      && outcome.accepted == (Tag(e, iv[..12], c) == Tag(e, iv[..12], c[..LastStart(|file|)]))
  {
    var records := Send(file, e, iv[..12]);
    StreamParts(records, e, iv[..12], file);
    DecryptEncrypt(e, iv[..12], file);
    ClientRecords(records, |file|);
    ClientLookups(lib, modes, records, |file|);
    forall i: nat | LooksUp(records, i)
      ensures Selects(lib, modes(i), key, e)
    {
      ClientRecord(records, |file|, i);
    }
    received, outcome := Receive(lib, startMode, modes, key, iv, records, e);
    if outcome.Finished? {
      OfFile(lib, modes, records, file, Crypt(e, iv[..12], file), received);
    }
  }

  /** On the client's framing both paths write the same file and reach the same verdict. */
  method BothPaths(lib: Library, startMode: int, modes: nat -> int, key: seq<byte>, iv: seq<byte>, e: Cipher,
      records: seq<seq<byte>>)
      returns (file: seq<byte>, outcome: Outcome, file0: seq<byte>, accepted0: bool)
    requires |key| == 32 && |iv| == 16
    requires Framed(records) && TAGSIZE <= |Stream(records)| <= MAX_LENGTH + TAGSIZE
    requires startMode != 0 && Installed(lib, startMode) && Selects(lib, startMode, key, e)
    requires modes(|records|) != 0
    requires forall i: nat :: LooksUp(records, i) ==> Served(lib, modes, i) && Selects(lib, modes(i), key, e)
    ensures file0 == file && outcome == Finished(accepted0)
  {
    var passed, given;
    file, outcome := Receive(lib, startMode, modes, key, iv, records, e);
    file0, accepted0, passed, given := ReceiveOpenSsl(e, iv[..12], records);
  }
}
