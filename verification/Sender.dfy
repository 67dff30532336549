/**
 The sending loop of src/cltest.c:152-181.

 OpenSSL's AES-GCM context is specified by the bytes it has been given: an update returns the
 matching part of the GCTR output, and the tag covers everything.
 */
module Sender {
  import opened Bytes
  import opened Gcm
  import opened Receiver
  import opened EdContext

  /** EVP_CIPHER_CTX set up for GCM with the cipher e. */
  class Evp {
    const e: Cipher
    const iv: seq<byte>
    var input: seq<byte>

    constructor (e: Cipher, iv: seq<byte>)
      requires |iv| == 12
      ensures this.e == e && this.iv == iv && input == []
    {
      this.e, this.iv, input := e, iv, [];
    }

    /** EVP_EncryptUpdate and EVP_DecryptUpdate: the GCTR output for the new bytes. */
    method Update(data: seq<byte>) returns (out: seq<byte>)
      requires |iv| == 12
      modifies this
      ensures input == old(input) + data
      ensures out == Encipher(Keystream(e, PreCounter(iv)), 16 + |old(input)|, data)
    {
      out := Encipher(Keystream(e, PreCounter(iv)), 16 + |input|, data);
      input := input + data;
    }

    /** EVP_CTRL_GCM_GET_TAG after encryption: the tag of the ciphertext produced. */
    method GetTag() returns (t: seq<byte>)
      requires |iv| == 12
      ensures t == Tag(e, iv, Crypt(e, iv, input)) && |t| == 16
    {
      t := Tag(e, iv, Crypt(e, iv, input));
    }

    /** EVP_DecryptFinal with the expected tag t: whether t is the tag of the ciphertext consumed. */
    method CheckTag(t: seq<byte>) returns (ok: bool)
      requires |iv| == 12
      ensures ok == (t == Tag(e, iv, input))
    {
      ok := t == Tag(e, iv, input);
    }
  }

  /** BIO_write: a record of the bytes written; a write of no bytes delivers none. */
  function Written(records: seq<seq<byte>>, data: seq<byte>): seq<seq<byte>> {
    if data == [] then records else records + [data]
  }

  lemma WrittenStream(records: seq<seq<byte>>, data: seq<byte>)
    ensures Stream(Written(records, data)) == Stream(records) + data
  {
    if data != [] {
      assert (records + [data])[..|records|] == records;
    }
  }

  /** Every record fills the receiver's buffer. */
  ghost predicate AllFull(records: seq<seq<byte>>) {
    forall i :: 0 <= i < |records| ==> |records[i]| == CHUNK
  }

  /** The tag is stored at outmsg + outlen. */
  method Append(outmsg: array<byte>, outlen: nat, t: seq<byte>)
    requires outlen + |t| <= outmsg.Length
    modifies outmsg
    ensures outmsg[..outlen + |t|] == old(outmsg[..outlen]) + t
  {
    var i := 0;
    while i < |t|
      invariant 0 <= i <= |t|
      invariant outmsg[..outlen] == old(outmsg[..outlen]) && outmsg[outlen..outlen + i] == t[..i]
    {
      outmsg[outlen + i] := t[i];
      i := i + 1;
    }
    assert outmsg[..outlen + |t|] == outmsg[..outlen] + outmsg[outlen..outlen + |t|];
  }

  /**
   The body of the loop, for the chunk that follows the bytes `done` of the file: `before` are
   the records written so far.
   */
  method SendChunk(ctxx: Evp, outmsg: array<byte>, message: seq<byte>, before: seq<seq<byte>>, ghost done: seq<byte>)
      returns (records: seq<seq<byte>>, outlen: nat)
    requires |ctxx.iv| == 12 && ctxx.input == done && outmsg.Length == 1040 && 0 < |message| <= CHUNK
    requires Stream(before) == Encipher(Keystream(ctxx.e, PreCounter(ctxx.iv)), 16, done) && AllFull(before)
    modifies ctxx, outmsg
    ensures ctxx.input == done + message && AllFull(records)
    ensures outlen == if |message| == CHUNK then 0 else |message|
    ensures Stream(records) + outmsg[..outlen] == Encipher(Keystream(ctxx.e, PreCounter(ctxx.iv)), 16, done + message)
  {
    EncipherAppend(Keystream(ctxx.e, PreCounter(ctxx.iv)), 16, done, message);
    var out := ctxx.Update(message);
    Copy(outmsg, out);
    outlen := |out|;
    records := before;
    if outlen == CHUNK {
      WrittenStream(records, outmsg[..outlen]);
      records := Written(records, outmsg[..outlen]);
      outlen := 0;
    }
  }

  /** The tag is appended to what is left of the last chunk, and sent in one record or in two. */
  method SendTag(outmsg: array<byte>, outlen: nat, t: seq<byte>, before: seq<seq<byte>>)
    returns (records: seq<seq<byte>>)
    requires outmsg.Length == 1040 && outlen < CHUNK && |t| == TAGSIZE && AllFull(before)
    modifies outmsg
    ensures Framed(records) && Stream(records) == (Stream(before) + old(outmsg[..outlen])) + t
  {
    Append(outmsg, outlen, t);
    Concat(Stream(before), old(outmsg[..outlen]), t);
    var all := outmsg[..outlen + TAGSIZE];
    if outlen + TAGSIZE < CHUNK {
      WrittenStream(before, all);
      records := Written(before, all);
    } else {
      var first, rest := outmsg[..CHUNK], outmsg[CHUNK..outlen + TAGSIZE];
      assert all == first + rest && |rest| < CHUNK;
      WrittenTwice(before, first, rest);
      records := Written(Written(before, first), rest);
    }
  }

  lemma WrittenTwice(before: seq<seq<byte>>, first: seq<byte>, rest: seq<byte>)
    requires AllFull(before) && |first| == CHUNK && |rest| < CHUNK
    ensures Framed(Written(Written(before, first), rest))
    ensures Stream(Written(Written(before, first), rest)) == Stream(before) + (first + rest)
  {
    WrittenStream(before, first);
    WrittenStream(Written(before, first), rest);
    Concat(Stream(before), first, rest);
  }

  /** The file is read in chunks, enciphered and written; the tag follows the last chunk. */
  method Send(file: seq<byte>, e: Cipher, iv: seq<byte>) returns (records: seq<seq<byte>>)
    requires |iv| == 12
    ensures Framed(records)
    ensures var (c, t) := AuthEncrypt(e, iv, file); Stream(records) == c + t && |t| == TAGSIZE
  {
    ghost var ks := Keystream(e, PreCounter(iv));
    var ctxx := new Evp(e, iv);
    var outmsg := new byte[1040];
    var outlen, pos := 0, 0;
    records := [];
    while pos < |file|
      invariant 0 <= pos <= |file| && 0 <= outlen < CHUNK && (pos == |file| || outlen == 0)
      invariant AllFull(records)
      invariant ctxx.input == file[..pos]
      invariant Stream(records) + outmsg[..outlen] == Encipher(ks, 16, file[..pos])
    {
      var bytesRead := if |file| - pos < CHUNK then |file| - pos else CHUNK;
      var message := file[pos..pos + bytesRead];
      assert file[..pos + bytesRead] == file[..pos] + message;
      records, outlen := SendChunk(ctxx, outmsg, message, records, file[..pos]);
      pos := pos + bytesRead;
    }
    assert file[..pos] == file;
    CryptIsEncipher(e, iv, file);
    var t := ctxx.GetTag();
    records := SendTag(outmsg, outlen, t, records);
  }
}
