/**
 The backend path of the record loop of `createserver` (src/server_f.c:165-213).

 SSL_read_ex delivers one record at a time into a buffer of CHUNK bytes; bytes beyond the
 length of a short record keep what the previous read left there, which the loop relies on.
 */
module Receiver {
  import opened Bytes
  import opened Gcm
  import opened Addmul
  import opened EdContext

  const CHUNK: nat := 1024
  const TAGSIZE: nat := 16

  /** The bytes that a sequence of reads delivers. */
  function Stream(records: seq<seq<byte>>): seq<byte> {
    if records == [] then [] else Stream(records[..|records| - 1]) + records[|records| - 1]
  }

  /** Every read fills the buffer, except that the last one may deliver less. */
  ghost predicate Framed(records: seq<seq<byte>>) {
    && (forall i :: 0 <= i < |records| ==> 0 < |records[i]| <= CHUNK)
    && (forall i :: 0 <= i < |records| - 1 ==> |records[i]| == CHUNK)
  }

  /** The data and the tag of a stream. */
  function Body(w: seq<byte>): seq<byte>
    requires |w| >= TAGSIZE
  {
    w[..|w| - TAGSIZE]
  }

  function Trailer(w: seq<byte>): seq<byte>
    requires |w| >= TAGSIZE
  {
    w[|w| - TAGSIZE..]
  }

  /** The 16 bytes held back complete the output for the full records. */
  lemma Flush(ks: nat -> byte, s: seq<byte>, len: nat)
    requires |s| >= TAGSIZE && len <= TAGSIZE
    ensures Encipher(ks, 16, Body(s)) + Trailer(Encipher(ks, 16, s))[..len]
      == Encipher(ks, 16, s[..|s| - TAGSIZE + len])
  {
    EncipherPrefix(ks, 16, s, |s| - TAGSIZE);
    EncipherPrefix(ks, 16, s, |s| - TAGSIZE + len);
    Slices(Encipher(ks, 16, s), |s| - TAGSIZE, len);
  }

  lemma Slices<T>(p: seq<T>, a: nat, len: nat)
    requires a + len <= |p|
    ensures p[..a] + p[a..][..len] == p[..a + len]
  {
  }

  /** A further record of at least 16 bytes, all of which is deciphered. */
  lemma Extend(ks: nat -> byte, s: seq<byte>, rec: seq<byte>)
    requires |rec| >= TAGSIZE
    ensures Encipher(ks, 16, s) + Body(Encipher(ks, 16 + |s|, rec)) == Encipher(ks, 16, Body(s + rec))
    ensures Trailer(Encipher(ks, 16, s + rec)) == Trailer(Encipher(ks, 16 + |s|, rec))
  {
    EncipherAppend(ks, 16, s, rec);
    var p, q := Encipher(ks, 16, s), Encipher(ks, 16 + |s|, rec);
    EncipherPrefix(ks, 16, s + rec, |s + rec| - TAGSIZE);
    assert (p + q)[..|s + rec| - TAGSIZE] == p + Body(q);
  }

  /** A last record, of which only the data is deciphered. */
  lemma ExtendData(ks: nat -> byte, s: seq<byte>, rec: seq<byte>)
    requires |rec| >= TAGSIZE
    ensures Encipher(ks, 16, s) + Encipher(ks, 16 + |s|, Body(rec)) == Encipher(ks, 16, Body(s + rec))
    ensures s + Body(rec) == Body(s + rec) && Trailer(s + rec) == Trailer(rec)
  {
    EncipherAppend(ks, 16, s, Body(rec));
    assert s + Body(rec) == Body(s + rec);
  }

  /** A tag split over two records: the first part ends s, the second part is rec. */
  lemma SplitTag(s: seq<byte>, rec: seq<byte>)
    requires |s| >= TAGSIZE >= |rec|
    ensures Body(s + rec) == s[..|s| - TAGSIZE + |rec|] == Body(s) + Trailer(s)[..|rec|]
    ensures Trailer(s + rec) == Trailer(s)[|rec|..] + rec
  {
  }

  datatype Outcome = Aborted | Finished(accepted: bool)

  lemma StreamSplit(records: seq<seq<byte>>, i: nat)
    requires i < |records|
    ensures Stream(records[..i + 1]) == Stream(records[..i]) + records[i]
  {
    assert records[..i + 1][..i] == records[..i];
  }

  lemma {:induction false} StreamLength(records: seq<seq<byte>>, i: nat)
    requires i <= |records|
    ensures |Stream(records[..i])| <= |Stream(records)|
    decreases |records| - i
  {
    if i < |records| {
      StreamSplit(records, i);
      StreamLength(records, i + 1);
    } else {
      assert records[..i] == records;
    }
  }

  lemma {:induction false} FrontLength(records: seq<seq<byte>>, i: nat)
    requires Framed(records) && i < |records|
    ensures |Stream(records[..i])| == CHUNK * i
  {
    if i > 0 {
      FrontLength(records, i - 1);
      StreamSplit(records, i - 1);
    }
  }

  /** The records up to and with record i do not exceed the whole. */
  lemma OneMore(records: seq<seq<byte>>, i: nat)
    requires i < |records|
    ensures Stream(records[..i + 1]) == Stream(records[..i]) + records[i]
    ensures |Stream(records[..i])| + |records[i]| <= |Stream(records)|
    ensures i + 1 == |records| ==> records[..i + 1] == records
  {
    StreamSplit(records, i);
    StreamLength(records, i + 1);
  }

  /** Mode read at record i names a function. */
  predicate Served(lib: Library, modes: nat -> int, i: nat) {
    Installed(lib, modes(i))
  }

  /** The last record is deciphered, or holds nothing but tag bytes. */
  predicate LastServed(lib: Library, modes: nat -> int, records: seq<seq<byte>>)
    requires records != []
  {
    Served(lib, modes, |records| - 1) || |records[|records| - 1]| <= TAGSIZE
  }

  /** The records before the last. */
  function Front(records: seq<seq<byte>>): seq<byte>
    requires records != []
  {
    Stream(records[..|records| - 1])
  }

  /** Some full record arrives while the mode names no function. */
  ghost predicate Unserved(lib: Library, modes: nat -> int, records: seq<seq<byte>>) {
    exists i :: 0 <= i < |records| && |records[i]| == CHUNK && !Served(lib, modes, i)
  }

  /** The functions for the full ones of the first n records are there. */
  ghost predicate AllServed(lib: Library, modes: nat -> int, records: seq<seq<byte>>, n: nat)
    requires n <= |records|
  {
    forall j :: 0 <= j < n && |records[j]| == CHUNK ==> Served(lib, modes, j)
  }

  /** Record i holds more than tag bytes, so that a function is looked up for it. */
  predicate LooksUp(records: seq<seq<byte>>, i: nat) {
    i < |records| && |records[i]| > TAGSIZE
  }

  /** Whatever function is looked up generates the keystream ks. */
  ghost predicate AllGenerate(lib: Library, modes: nat -> int, records: seq<seq<byte>>,
      key: seq<byte>, iv: seq<byte>, ks: nat -> byte)
    requires |iv| == 12
  {
    forall i: nat :: LooksUp(records, i) && Served(lib, modes, i) ==> Generates(Lookup(lib, modes(i)), key, iv, ks)
  }

  // ----- what is written when the last data finds no function

  /** p, with what follows its first n bytes replaced by the beginning of the chunk before. */
  function Stale(p: seq<byte>, n: nat): (q: seq<byte>)
    requires CHUNK <= n <= |p| <= n + CHUNK
    ensures |q| == |p|
  {
    p[..n] + p[n - CHUNK..][..|p| - n]
  }

  /** The last data is the beginning of the chunk before. */
  predicate Repeats(p: seq<byte>, n: nat)
    requires CHUNK <= n <= |p| <= n + CHUNK
  {
    p[n..] == p[n - CHUNK..][..|p| - n]
  }

  lemma StaleIsRight(p: seq<byte>, n: nat)
    requires CHUNK <= n <= |p| <= n + CHUNK
    ensures Stale(p, n) == p <==> Repeats(p, n)
  {
    assert p == p[..n] + p[n..];
    assert Stale(p, n)[n..] == p[n - CHUNK..][..|p| - n];
  }

  /** The file, when the last of the data p was not deciphered: all but the first n bytes are left over. */
  ghost predicate Lost(file: seq<byte>, p: seq<byte>, n: nat) {
    |file| == |p| && (n >= CHUNK ==> n <= |p| <= n + CHUNK && file == Stale(p, n))
  }

  /** It is right nevertheless exactly if the last data repeats the chunk before. */
  ghost predicate RightIf(file: seq<byte>, p: seq<byte>, n: nat, served: bool)
    requires n <= |p| <= n + CHUNK
  {
    n >= CHUNK ==> (file == p <==> served || Repeats(p, n))
  }

  lemma RightOrLost(file: seq<byte>, records: seq<seq<byte>>, p: seq<byte>, served: bool)
    requires Framed(records) && records != [] && |p| + TAGSIZE == |Stream(records)|
    requires if served then file == p else Lost(file, p, |Front(records)|)
    ensures |records| > 1 && LooksUp(records, |records| - 1) ==>
      var n := |Front(records)|; CHUNK <= n <= |p| <= n + CHUNK && RightIf(file, p, n, served)
  {
    var n := |Front(records)|;
    FrontLength(records, |records| - 1);
    if CHUNK <= n <= |p| <= n + CHUNK {
      StaleIsRight(p, n);
    }
  }

  /** What the last full record of s was deciphered to. */
  function LastChunk(ks: nat -> byte, s: seq<byte>): seq<byte>
    requires |s| >= CHUNK
  {
    Encipher(ks, 16 + |s| - CHUNK, s[|s| - CHUNK..])
  }

  lemma ChunkAdded(ks: nat -> byte, s: seq<byte>, rec: seq<byte>)
    requires |rec| == CHUNK
    ensures LastChunk(ks, s + rec) == Encipher(ks, 16 + |s|, rec)
    ensures s + rec[..CHUNK - TAGSIZE] == Body(s + rec) && Trailer(s + rec) == Trailer(rec)
  {
    assert (s + rec)[|s|..] == rec;
  }

  lemma LeftOver(ks: nat -> byte, s: seq<byte>, data: seq<byte>)
    requires |s| >= CHUNK >= |data|
    ensures Encipher(ks, 16, s) + LastChunk(ks, s)[..|data|] == Stale(Encipher(ks, 16, s + data), |s|)
  {
    var p, n := Encipher(ks, 16, s + data), |s|;
    EncipherPrefix(ks, 16, s + data, n);
    assert (s + data)[..n] == s;
    EncipherAppend(ks, 16, s[..n - CHUNK], s[n - CHUNK..]);
    assert s == s[..n - CHUNK] + s[n - CHUNK..];
    assert p[..n][n - CHUNK..] == LastChunk(ks, s);
    assert p[n - CHUNK..][..|data|] == p[..n][n - CHUNK..][..|data|];
  }

  /** The local variables of one connection. */
  class Session {
    const cx: EDcontext
    const buffer: array<byte>
    const outmsg: array<byte>
    const tag: array<byte>
    var tp: nat
    var ct: nat
    var part: bool
    var file: seq<byte>

    constructor ()
      ensures Shape()
      ensures fresh(buffer) && fresh(outmsg) && fresh(tag) && fresh(cx)
      ensures fresh(cx.kcopy) && fresh(cx.H) && fresh(cx.J) && fresh(cx.T) && fresh(cx.accum) && fresh(cx.paccum)
      ensures fresh(cx.finalblock)
      ensures tp == 0 && ct == 0 && !part && file == []
    {
      cx := new EDcontext();
      buffer := new byte[1024];
      outmsg := new byte[1024];
      tag := new byte[32];
      tp, ct, part, file := 0, 0, false, [];
    }

    ghost predicate Shape() {
      && cx.Shape()
      && buffer.Length == CHUNK && outmsg.Length == CHUNK && tag.Length == 2 * TAGSIZE
      && buffer != outmsg && buffer != tag && outmsg != tag
      && cx.Apart(buffer) && cx.Apart(outmsg) && cx.Apart(tag)
    }

    /** The state after the full records that make up s. */
    ghost predicate After(hash: Hash, ks: nat -> byte, iv: seq<byte>, s: seq<byte>)
      requires |iv| == 12
      reads this, buffer, outmsg, tag, cx, cx.H, cx.J, cx.T, cx.accum, cx.paccum, cx.finalblock
    {
      && Shape() && tp == 0 && |s| == CHUNK * ct
      && cx.Keyed(hash, ks, iv) && cx.Hashed(hash, s) && cx.index == 64 * ct + 1
      && (ct == 0 ==> file == [] && cx.accum[..] == ZeroBytes(16))
      && (ct > 0 ==> Holding(hash, ks, s) && tag[..16] == Trailer(s) && outmsg[..] == LastChunk(ks, s))
    }

    /** All but the last 16 bytes of s are in the file; those 16 may be data, tag, or both. */
    ghost predicate Holding(hash: Hash, ks: nat -> byte, s: seq<byte>)
      requires |s| >= TAGSIZE
      reads this, buffer, outmsg, cx, cx.paccum
    {
      && Shape()
      && cx.Saved(hash, Body(s))
      && file == Encipher(ks, 16, Body(s))
      && outmsg[1008..] == Trailer(Encipher(ks, 16, s))
      && buffer[1008..] == Trailer(s)
    }

    /** What the tail of the function needs: message d hashed and written, tag t in place. */
    ghost predicate Done(hash: Hash, ks: nat -> byte, iv: seq<byte>, d: seq<byte>, t: seq<byte>)
      requires |iv| == 12
      reads this, tag, cx, cx.H, cx.J, cx.T, cx.accum, cx.finalblock
    {
      && Shape() && tp <= 16
      && cx.Keyed(hash, ks, iv) && cx.Hashed(hash, d)
      && file == Encipher(ks, 16, d)
      && tag[tp..tp + 16] == t
    }

    /** fwrite of the bytes held back from the previous record, if there is one. */
    method WriteHeld(len: nat, ghost hash: Hash, ghost ks: nat -> byte, ghost s: seq<byte>)
      requires len <= TAGSIZE && |s| == CHUNK * ct && (ct > 0 ==> Holding(hash, ks, s)) && (ct == 0 ==> file == [])
      modifies this`file
      ensures file == if ct == 0 then [] else Encipher(ks, 16, s[..|s| - TAGSIZE + len])
    {
      if ct != 0 {
        Flush(ks, s, len);
        file := file + outmsg[CHUNK - TAGSIZE..][..len];
      }
    }

    /** The bytes held back are data after all, and the next record is read. */
    method Begin(rec: seq<byte>, ghost hash: Hash, ghost ks: nat -> byte, ghost iv: seq<byte>, ghost s: seq<byte>)
      requires |iv| == 12 && |rec| <= CHUNK && After(hash, ks, iv, s)
      modifies this`file, buffer
      ensures buffer[..|rec|] == rec && file == Encipher(ks, 16, s)
    {
      WriteHeld(TAGSIZE, hash, ks, s);
      assert s[..|s|] == s;
      Copy(buffer, rec);
    }

    /** All but the last 16 bytes of a deciphered record are written; the record's last 16 bytes may be the tag. */
    method HoldBack()
      requires Shape()
      modifies this`file, tag
      ensures file == old(file) + outmsg[..CHUNK - TAGSIZE] && tag[..16] == buffer[CHUNK - TAGSIZE..]
    {
      file := file + outmsg[..CHUNK - TAGSIZE];
      Copy(tag, buffer[CHUNK - TAGSIZE..]);
    }

    /** A full record is read, deciphered and hashed. */
    method Decipher(mode: int, rec: seq<byte>, ghost hash: Hash, ghost ks: nat -> byte, ghost iv: seq<byte>,
        ghost s: seq<byte>)
        returns (ok: bool)
      requires |iv| == 12 && |rec| == CHUNK && |s| + CHUNK <= MAX_LENGTH + TAGSIZE
      requires After(hash, ks, iv, s)
      requires Installed(cx.handle, mode) ==> Generates(Lookup(cx.handle, mode), cx.kcopy[..], iv, ks)
      modifies this`file, buffer, outmsg, cx`index, cx`mlen, cx.J, cx.accum, cx.paccum
      ensures ok == Installed(cx.handle, mode)
      ensures ok ==> file == Encipher(ks, 16, s) && buffer[..] == rec && outmsg[..] == Encipher(ks, 16 + |s|, rec)
      ensures ok ==> cx.Keyed(hash, ks, iv) && cx.Hashed(hash, s + rec) && cx.index == 64 * ct + 65
      ensures ok ==> cx.Saved(hash, s + rec[..CHUNK - TAGSIZE])
    {
      Begin(rec, hash, ks, iv, s);
      assert buffer[..] == rec;
      var r := cx.DecUpdate(mode, outmsg, buffer[..], hash, ks, iv, s, 64 * ct);
      ok := r == 0;
      assert outmsg[..] == outmsg[..CHUNK];
    }

    /** A full record; false when the current mode names no function and the server gives up. */
    method FullRecord(mode: int, rec: seq<byte>, ghost hash: Hash, ghost ks: nat -> byte, ghost iv: seq<byte>,
        ghost s: seq<byte>)
        returns (ok: bool)
      requires |iv| == 12 && |rec| == CHUNK && |s| + CHUNK <= MAX_LENGTH + TAGSIZE
      requires After(hash, ks, iv, s)
      requires Installed(cx.handle, mode) ==> Generates(Lookup(cx.handle, mode), cx.kcopy[..], iv, ks)
      modifies this, buffer, outmsg, tag, cx`index, cx`mlen, cx.J, cx.accum, cx.paccum
      ensures ok == Installed(cx.handle, mode)
      ensures ok ==> After(hash, ks, iv, s + rec) && ct == old(ct) + 1 && part == old(part)
    {
      ok := Decipher(mode, rec, hash, ks, iv, s);
      if !ok {
        return;
      }
      HoldBack();
      Extend(ks, s, rec);
      ChunkAdded(ks, s, rec);
      ct := ct + 1;
    }

    /**
     A last record longer than the tag: its data is deciphered, its last 16 bytes are the tag.
     The result of dec_update is not looked at: without a function nothing is hashed, and what
     the record before left in outmsg is written for the data.
     */
    method DataRecord(mode: int, rec: seq<byte>, ghost hash: Hash, ghost ks: nat -> byte, ghost iv: seq<byte>,
        ghost s: seq<byte>)
      requires |iv| == 12 && TAGSIZE < |rec| < CHUNK && |s| + |rec| <= MAX_LENGTH + TAGSIZE
      requires After(hash, ks, iv, s)
      requires Installed(cx.handle, mode) ==> Generates(Lookup(cx.handle, mode), cx.kcopy[..], iv, ks)
      modifies this, buffer, outmsg, tag, cx`index, cx`mlen, cx.J, cx.accum, cx.paccum
      ensures part && Shape() && tp == 0 && tag[..16] == Trailer(s + rec) && cx.Keyed(hash, ks, iv)
      ensures cx.Hashed(hash, if Installed(cx.handle, mode) then Body(s + rec) else s)
      ensures if Installed(cx.handle, mode) then file == Encipher(ks, 16, Body(s + rec))
        else Lost(file, Encipher(ks, 16, Body(s + rec)), |s|)
    {
      part := true;
      Begin(rec, hash, ks, iv, s);
      var len := |rec| - TAGSIZE;
      var data, trailer := buffer[..len], buffer[len..|rec|];
      assert data == buffer[..|rec|][..len] == Body(rec) && trailer == buffer[..|rec|][len..] == Trailer(rec);
      WriteData(mode, data, hash, ks, iv, s);
      Copy(tag, trailer);
      ExtendData(ks, s, rec);
      if |s| >= CHUNK {
        LeftOver(ks, s, data);
      }
    }

    /** dec_update and fwrite of the data of a last record. */
    method WriteData(mode: int, data: seq<byte>, ghost hash: Hash, ghost ks: nat -> byte, ghost iv: seq<byte>,
        ghost s: seq<byte>)
      requires |iv| == 12 && |data| <= CHUNK && |s| + |data| <= MAX_LENGTH && Shape()
      requires cx.Keyed(hash, ks, iv) && cx.Hashed(hash, s) && |s| == CHUNK * ct && cx.index == 64 * ct + 1
      requires Installed(cx.handle, mode) ==> Generates(Lookup(cx.handle, mode), cx.kcopy[..], iv, ks)
      modifies this`file, outmsg, cx`index, cx`mlen, cx.J, cx.accum, cx.paccum
      ensures cx.Keyed(hash, ks, iv) && cx.Hashed(hash, if Installed(cx.handle, mode) then s + data else s)
      ensures file
        == old(file) + if Installed(cx.handle, mode) then Encipher(ks, 16 + |s|, data) else old(outmsg[..|data|])
    {
      var r := cx.DecUpdate(mode, outmsg, data, hash, ks, iv, s, 64 * ct);
      assert r != 0 ==> outmsg[..|data|] == outmsg[..][..|data|] == old(outmsg[..])[..|data|];
      file := file + outmsg[..|data|];
    }

    /**
     A last record of at most 16 bytes completes a tag that began in the record before it.  The
     data bytes at the end of that record stay hashed, its tag bytes are taken back.
     */
    method TagRecord(rec: seq<byte>, ghost hash: Hash, ghost ks: nat -> byte, ghost iv: seq<byte>, ghost s: seq<byte>)
      requires |iv| == 12 && 0 < |rec| <= TAGSIZE <= |s| + |rec| && |s| <= MAX_LENGTH + TAGSIZE
      requires After(hash, ks, iv, s)
      modifies this, buffer, tag, cx`mlen, cx.accum, cx.paccum
      ensures part && Done(hash, ks, iv, Body(s + rec), Trailer(s + rec))
    {
      part := true;
      ReadShort(rec);
      Release(rec, hash, ks, iv, s);
      CompleteTag(rec, s);
    }

    /** A read of at most 16 bytes leaves the end of the buffer as the record before it left it. */
    method ReadShort(rec: seq<byte>)
      requires |rec| <= TAGSIZE && buffer.Length == CHUNK
      modifies buffer
      ensures buffer[1008..] == old(buffer[1008..])
    {
      Copy(buffer, rec);
      assert buffer[1008..] == buffer[|rec|..][1008 - |rec|..];
    }

    /** The tag is made up of the bytes held back and of the record. */
    method CompleteTag(rec: seq<byte>, ghost s: seq<byte>)
      requires 0 < |rec| <= TAGSIZE <= |s| + |rec| && tag.Length == 2 * TAGSIZE
      requires if s == [] then |rec| == TAGSIZE else |s| >= TAGSIZE && tag[..16] == Trailer(s)
      modifies this`tp, tag
      ensures tp == |rec| && tag[tp..tp + TAGSIZE] == Trailer(s + rec)
    {
      PutTail(tag, rec);
      tp := |rec|;
      if |s| >= TAGSIZE {
        SplitTag(s, rec);
      }
    }

    /** The data bytes held back are written and stay hashed, the tag bytes held back are taken back. */
    method Release(rec: seq<byte>, ghost hash: Hash, ghost ks: nat -> byte, ghost iv: seq<byte>, ghost s: seq<byte>)
      requires |iv| == 12 && 0 < |rec| <= TAGSIZE <= |s| + |rec| && |s| <= MAX_LENGTH + TAGSIZE
      requires After(hash, ks, iv, s)
      modifies this`file, cx`mlen, cx.accum, cx.paccum
      ensures cx.Keyed(hash, ks, iv) && cx.Hashed(hash, Body(s + rec)) && file == Encipher(ks, 16, Body(s + rec))
    {
      if ct != 0 {
        SplitTag(s, rec);
        WriteHeld(|rec|, hash, ks, s);
        RollBack(buffer[CHUNK - TAGSIZE..][..|rec|], hash, s);
      } else {
        assert s == [] && Body(s + rec) == [];
      }
    }

    /** Replaces the last block of the hashed message s by its first bytes, the given data. */
    method RollBack(data: seq<byte>, ghost hash: Hash, ghost s: seq<byte>)
      requires 0 < |data| <= TAGSIZE <= |s| <= MAX_LENGTH + TAGSIZE && |s| % 16 == 0 && Shape()
      requires MultipliesBy(hash, cx.H[..]) && cx.mlen == |s| && cx.Saved(hash, Body(s))
      modifies cx`mlen, cx.accum, cx.paccum
      ensures cx.Hashed(hash, Body(s) + data)
    {
      cx.mlen := (cx.mlen + TWO64 - (TAGSIZE - |data|)) % TWO64;
      Withdraw(|s|, |data|);
      AbsorbAppend(hash, ZeroBytes(16), Body(s), data);
      AddMul(cx.paccum, data, cx.H);
      Copy(cx.accum, cx.paccum[..]);
      assert cx.accum[..] == cx.paccum[..];
    }

    /**
     The record loop is over: w has been received and c is hashed and written, which is the data if
     served; else only the full records are hashed, and the last data is lost.
     */
    ghost predicate Ended(hash: Hash, ks: nat -> byte, iv: seq<byte>, w: seq<byte>, full: seq<byte>, c: seq<byte>,
        served: bool)
      requires |iv| == 12 && |w| >= TAGSIZE
      reads this, tag, cx, cx.H, cx.J, cx.T, cx.accum, cx.finalblock
    {
      && Shape() && tp <= TAGSIZE && tag[tp..tp + TAGSIZE] == Trailer(w)
      && cx.Keyed(hash, ks, iv) && cx.Hashed(hash, c) && |c| <= MAX_LENGTH
      && (if served then c == Body(w) && file == Encipher(ks, 16, c)
          else c == full && Lost(file, Encipher(ks, 16, Body(w)), |full|))
    }

    /** A record shorter than the buffer. */
    method ShortRecord(mode: int, rec: seq<byte>, ghost hash: Hash, ghost ks: nat -> byte, ghost iv: seq<byte>,
        ghost s: seq<byte>)
        returns (ghost c: seq<byte>)
      requires |iv| == 12 && 0 < |rec| < CHUNK && TAGSIZE <= |s| + |rec| <= MAX_LENGTH + TAGSIZE
      requires After(hash, ks, iv, s)
      requires |rec| > TAGSIZE && Installed(cx.handle, mode) ==>
        Generates(Lookup(cx.handle, mode), cx.kcopy[..], iv, ks)
      modifies this, buffer, outmsg, tag, cx`index, cx`mlen, cx.J, cx.accum, cx.paccum
      ensures part && Ended(hash, ks, iv, s + rec, s, c, Installed(cx.handle, mode) || |rec| <= TAGSIZE)
    {
      if |rec| > TAGSIZE {
        DataRecord(mode, rec, hash, ks, iv, s);
        c := if Installed(cx.handle, mode) then Body(s + rec) else s;
      } else {
        TagRecord(rec, hash, ks, iv, s);
        c := Body(s + rec);
      }
    }

    /** No short record came: the whole tag ends the last full record, and its block is dropped. */
    method DropTag(ghost full: seq<byte>, ghost hash: Hash, ghost ks: nat -> byte, ghost iv: seq<byte>,
        ghost s: seq<byte>)
      requires |iv| == 12 && 0 < |s| <= MAX_LENGTH + TAGSIZE
      requires After(hash, ks, iv, s)
      modifies cx`mlen, cx.accum
      ensures Ended(hash, ks, iv, s, full, Body(s), true)
    {
      cx.mlen := (cx.mlen + TWO64 - TAGSIZE) % TWO64;
      Withdraw(|s|, 0);
      Copy(cx.accum, cx.paccum[..]);
      assert cx.accum[..] == cx.paccum[..];
    }

    /** The invariant of the record loop, after i records; once a short record came, c is hashed. */
    ghost predicate Reached(modes: nat -> int, records: seq<seq<byte>>, i: nat,
                            hash: Hash, ks: nat -> byte, iv: seq<byte>, c: seq<byte>)
      requires |iv| == 12 && i <= |records| && TAGSIZE <= |Stream(records)|
      reads this, buffer, outmsg, tag, cx, cx.H, cx.J, cx.T, cx.accum, cx.paccum, cx.finalblock
    {
      if part then
        i == |records| && Ended(hash, ks, iv, Stream(records), Front(records), c, LastServed(cx.handle, modes, records))
      else
        After(hash, ks, iv, Stream(records[..i])) && ct == i && (i > 0 ==> |records[i - 1]| == CHUNK)
    }

    /** The last record, when it does not fill the buffer. */
    method LastRecord(mode: int, records: seq<seq<byte>>, ghost hash: Hash, ghost ks: nat -> byte, ghost iv: seq<byte>)
        returns (ghost c: seq<byte>)
      requires |iv| == 12 && records != [] && 0 < |records[|records| - 1]| < CHUNK
      requires TAGSIZE <= |Stream(records)| <= MAX_LENGTH + TAGSIZE && After(hash, ks, iv, Front(records))
      requires |records[|records| - 1]| > TAGSIZE && Installed(cx.handle, mode) ==>
        Generates(Lookup(cx.handle, mode), cx.kcopy[..], iv, ks)
      modifies this, buffer, outmsg, tag, cx`index, cx`mlen, cx.J, cx.accum, cx.paccum
      ensures part && Ended(hash, ks, iv, Stream(records), Front(records), c,
                            Installed(cx.handle, mode) || |records[|records| - 1]| <= TAGSIZE)
    {
      c := ShortRecord(mode, records[|records| - 1], hash, ks, iv, Front(records));
    }

    /** The body of the record loop. */
    method Record(modes: nat -> int, records: seq<seq<byte>>, i: nat,
                  ghost hash: Hash, ghost ks: nat -> byte, ghost iv: seq<byte>, ghost c0: seq<byte>)
        returns (ok: bool, ghost c: seq<byte>)
      requires |iv| == 12 && i < |records| && Framed(records) && TAGSIZE <= |Stream(records)| <= MAX_LENGTH + TAGSIZE
      requires Reached(modes, records, i, hash, ks, iv, c0)
      requires AllGenerate(cx.handle, modes, records, cx.kcopy[..], iv, ks) && AllServed(cx.handle, modes, records, i)
      modifies this, buffer, outmsg, tag, cx`index, cx`mlen, cx.J, cx.accum, cx.paccum
      ensures ok <==> AllServed(cx.handle, modes, records, i + 1)
      ensures ok ==> Reached(modes, records, i + 1, hash, ks, iv, c)
    {
      ghost var s := Stream(records[..i]);
      OneMore(records, i);
      c := [];
      assert |records[i]| > TAGSIZE ==> LooksUp(records, i);
      if |records[i]| == CHUNK {
        ok := FullRecord(modes(i), records[i], hash, ks, iv, s);
      } else {
        c := LastRecord(modes(i), records, hash, ks, iv);
        ok := true;
      }
    }

    /** What follows the loop, up to the call of dec_final. */
    method AfterLoop(modes: nat -> int, records: seq<seq<byte>>, ghost hash: Hash, ghost ks: nat -> byte,
        ghost iv: seq<byte>, ghost c0: seq<byte>)
        returns (ghost c: seq<byte>)
      requires |iv| == 12 && TAGSIZE <= |Stream(records)| <= MAX_LENGTH + TAGSIZE
      requires Reached(modes, records, |records|, hash, ks, iv, c0)
      requires !part && records != [] ==> Served(cx.handle, modes, |records| - 1)
      modifies cx`mlen, cx.accum
      ensures Ended(hash, ks, iv, Stream(records), Front(records), c, LastServed(cx.handle, modes, records))
    {
      assert records[..|records|] == records;
      c := c0;
      if !part {
        c := Body(Stream(records));
        DropTag(Front(records), hash, ks, iv, Stream(records));
      }
    }

    /** The record loop. */
    method ReadAll(modes: nat -> int, records: seq<seq<byte>>, ghost hash: Hash, ghost ks: nat -> byte,
        ghost iv: seq<byte>)
        returns (ok: bool, ghost c: seq<byte>)
      requires |iv| == 12 && Framed(records) && TAGSIZE <= |Stream(records)| <= MAX_LENGTH + TAGSIZE
      requires Reached(modes, records, 0, hash, ks, iv, [])
      requires AllGenerate(cx.handle, modes, records, cx.kcopy[..], iv, ks)
      modifies this, buffer, outmsg, tag, cx`index, cx`mlen, cx.J, cx.accum, cx.paccum
      ensures ok <==> !Unserved(cx.handle, modes, records)
      ensures ok ==> Reached(modes, records, |records|, hash, ks, iv, c)
    {
      var i := 0;
      ok, c := true, [];
      while i < |records| && ok
        invariant 0 <= i <= |records|
        invariant ok ==> AllServed(cx.handle, modes, records, i) && Reached(modes, records, i, hash, ks, iv, c)
        invariant !ok ==> Unserved(cx.handle, modes, records)
        decreases |records| - i, ok
      {
        ok, c := Record(modes, records, i, hash, ks, iv, c);
        if ok {
          i := i + 1;
        }
      }
    }

    /** From the first read to the point where dec_final is called. */
    method Loop(modes: nat -> int, records: seq<seq<byte>>, ghost hash: Hash, ghost ks: nat -> byte,
        ghost iv: seq<byte>)
        returns (ok: bool, ghost c: seq<byte>)
      requires |iv| == 12 && Framed(records) && TAGSIZE <= |Stream(records)| <= MAX_LENGTH + TAGSIZE
      requires !part && ct == 0 && After(hash, ks, iv, [])
      requires AllGenerate(cx.handle, modes, records, cx.kcopy[..], iv, ks)
      modifies this, buffer, outmsg, tag, cx`index, cx`mlen, cx.J, cx.accum, cx.paccum
      ensures ok <==> !Unserved(cx.handle, modes, records)
      ensures ok ==> Ended(hash, ks, iv, Stream(records), Front(records), c, LastServed(cx.handle, modes, records))
    {
      assert Stream(records[..0]) == [];
      ok, c := ReadAll(modes, records, hash, ks, iv);
      if ok {
        assert records != [] && !part ==> Served(cx.handle, modes, |records| - 1);
        c := AfterLoop(modes, records, hash, ks, iv, c);
      }
    }
  }

  /** memcpy(tag + TAGSIZE, buffer, readbytes). */
  method PutTail(tag: array<byte>, rec: seq<byte>)
    requires tag.Length == 32 && |rec| <= TAGSIZE
    modifies tag
    ensures tag[|rec|..|rec| + 16] == old(tag[..16])[|rec|..] + rec
  {
    var i := 0;
    while i < |rec|
      invariant 0 <= i <= |rec|
      invariant tag[..16] == old(tag[..16]) && tag[16..16 + i] == rec[..i]
    {
      tag[16 + i] := rec[i];
      i := i + 1;
    }
    assert tag[|rec|..|rec| + 16] == tag[..16][|rec|..] + tag[16..16 + |rec|];
  }

  /** Subtracting from a 64-bit counter does not wrap while the counter is large enough. */
  lemma Withdraw(n: nat, r: nat)
    requires TAGSIZE <= n <= MAX_LENGTH + TAGSIZE && r <= TAGSIZE
    ensures (n + TWO64 - (TAGSIZE - r)) % TWO64 == n - TAGSIZE + r
  {
  }

  /**
   One transfer over the backend path, for the library, key and IV of the connection.  The mode
   is startMode when the context is set up, modes(i) when record i is deciphered and
   modes(|records|) in the end; it may change at any time, as long as it is not 0 in the end and
   every function looked up computes the same cipher e.  When the last data record finds no
   function, its data is lost: the beginning of the chunk before is written in its place, and its
   tag is compared with that of the full records.
   */
  method Receive(lib: Library, startMode: int, modes: nat -> int, key: seq<byte>, iv: seq<byte>,
      records: seq<seq<byte>>, ghost e: Cipher)
      returns (file: seq<byte>, outcome: Outcome)
    requires |key| == 32 && |iv| == 16
    requires startMode != 0 && Installed(lib, startMode) && Selects(lib, startMode, key, e)
    requires modes(|records|) != 0
    requires forall i: nat :: LooksUp(records, i) ==> Selects(lib, modes(i), key, e)
    requires Framed(records) && TAGSIZE <= |Stream(records)| <= MAX_LENGTH + TAGSIZE
    ensures outcome.Aborted? <==> Unserved(lib, modes, records)
    ensures outcome.Finished? && LastServed(lib, modes, records) ==>
      && file == Crypt(e, iv[..12], Body(Stream(records)))
      && outcome.accepted == (Trailer(Stream(records)) == Tag(e, iv[..12], Body(Stream(records))))
    ensures outcome.Finished? && !LastServed(lib, modes, records) ==>
      && outcome.accepted == (Trailer(Stream(records)) == Tag(e, iv[..12], Front(records)))
      && Lost(file, Crypt(e, iv[..12], Body(Stream(records))), |Front(records)|)
    ensures outcome.Finished? && |records| > 1 && LooksUp(records, |records| - 1) ==>
      var p, n := Crypt(e, iv[..12], Body(Stream(records))), |Front(records)|;
      n <= |p| <= n + CHUNK && RightIf(file, p, n, LastServed(lib, modes, records))
  {
    ghost var iv0, hash, ks := iv[..12], HashBy(HashKey(e)), Keystream(e, PreCounter(iv[..12]));
    var x := new Session();
    var r := x.cx.EdInit(Some(lib), startMode, iv, key, e);
    forall i: nat | LooksUp(records, i) && Served(lib, modes, i)
      ensures Generates(Lookup(lib, modes(i)), key, iv0, ks)
    {
      SelectedGenerates(lib, modes(i), key, iv0, e);
    }
    ghost var c;
    var ok;
    ok, c := x.Loop(modes, records, hash, ks, iv0);
    file := x.file;
    if !ok {
      return file, Aborted;
    }
    TagIsStreamTag(e, iv0, c);
    CryptIsEncipher(e, iv0, Body(Stream(records)));
    RightOrLost(file, records, Crypt(e, iv0, Body(Stream(records))), LastServed(lib, modes, records));
    r := x.cx.DecFinal(x.tag[x.tp..x.tp + TAGSIZE], hash, ks, iv0, c);
    return file, Finished(r != -1);
  }
}
