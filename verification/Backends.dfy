/**
 The eight backends as the functions enc_sLL_nII of the encryption library, and transfers that
 are served by them.
 */
module Backends {
  import opened Bytes
  import opened Gcm
  import opened EdContext
  import opened Receiver
  import opened Transfer
  import Fips197
  import SBoxes
  import MatrixAes
  import FlatAes
  import NiAes
  import ArmAes
  import BitslicedAes

  /** Security level 1: AES-128, under the first half of the key buffer. */
  function Aes128(pt: Block, key: seq<byte>): Block {
    if |key| >= 16 then Fips197.Aes(SBoxes.SBox, key[..16], pt) else pt
  }

  /** Security level 2: AES-256. */
  function Aes256(pt: Block, key: seq<byte>): Block {
    if |key| >= 32 then Fips197.Aes(SBoxes.SBox, key[..32], pt) else pt
  }

  function LevelFunction(level: int): BlockFunction {
    if level == 1 then Aes128 else Aes256
  }

  /** The library once all backends are registered: four of each level. */
  function AllBackends(): (lib: Library)
    ensures forall level: int, i: int :: (level, i) in lib <==> 1 <= level <= 2 && 1 <= i <= 4
    ensures forall level: int, i: int :: 1 <= level <= 2 && 1 <= i <= 4 ==> lib[(level, i)] == LevelFunction(level)
  {
    map p | p in {(1, 1), (1, 2), (1, 3), (1, 4), (2, 1), (2, 2), (2, 3), (2, 4)} :: LevelFunction(p.0)
  }

  /** The instruction set that f7 and f8 are compiled for. */
  datatype Target = X86 | Arm

  /** f1, f2, f3, f7 for 16-byte keys and f4, f5, f6, f8 for 32-byte keys. */
  method Encrypt(target: Target, i: int, pt: Block, k: seq<byte>) returns (ct: Block)
    requires 1 <= i <= 4 && Fips197.IsKey(k)
    ensures ct == Fips197.Aes(SBoxes.SBox, k, pt)
  {
    if i == 1 {
      ct := MatrixAes.Encrypt(SBoxes.SBox, pt, k);
    } else if i == 2 {
      ct := FlatAes.Encrypt(SBoxes.SBox, pt, k);
    } else if i == 3 {
      ct := BitslicedAes.Encrypt(pt, k);
    } else if target == Arm {
      ct := ArmAes.Encrypt(SBoxes.SBox, pt, k);
    } else if |k| == 16 {
      ct := NiAes.Aes128(SBoxes.SBox, pt, k);
    } else {
      ct := NiAes.Aes256(SBoxes.SBox, pt, k);
    }
  }

  /** Calls enc_sLL_nII with the key buffer of the context. */
  method Call(target: Target, level: int, i: int, pt: Block, key: seq<byte>) returns (ct: Block)
    requires (level, i) in AllBackends() && |key| == 32
    ensures ct == AllBackends()[(level, i)](pt, key)
    ensures level == 1 ==> ct == Fips197.Aes(SBoxes.SBox, key[..16], pt)
    ensures level == 2 ==> ct == Fips197.Aes(SBoxes.SBox, key, pt)
  {
    if level == 1 {
      ct := Encrypt(target, i, pt, key[..16]);
    } else {
      assert key[..32] == key;
      ct := Encrypt(target, i, pt, key);
    }
  }

  /** At level 1 the second half of the key buffer does not matter. */
  lemma FirstHalfOnly(key: seq<byte>, key': seq<byte>, pt: Block)
    requires |key| == |key'| == 32 && key[..16] == key'[..16]
    ensures LevelFunction(1)(pt, key) == LevelFunction(1)(pt, key') == Fips197.Aes(SBoxes.SBox, key[..16], pt)
  {
  }

  /** The cipher that the client uses at a level. */
  function ClientCipher(level: int, key: seq<byte>): Cipher {
    (b: Block) => LevelFunction(level)(b, key)
  }

  /** The mode names one of the four backends of the level. */
  predicate NamesBackend(mode: int, level: int) {
    SBits(mode) == level && 1 <= level <= 2 && 1 <= IBits(mode) <= 4
  }

  lemma NamedBackendSelects(mode: int, level: int, key: seq<byte>)
    requires NamesBackend(mode, level)
    ensures mode != 0 && Installed(AllBackends(), mode) && Selects(AllBackends(), mode, key, ClientCipher(level, key))
  {
  }

  /** The file arrives, whichever backends of the port's level the modes name from record to record. */
  method TransferAtLevel(level: int, startMode: int, modes: nat -> int, key: seq<byte>, iv: seq<byte>, file: seq<byte>)
      returns (received: seq<byte>, outcome: Outcome)
    requires |key| == 32 && |iv| == 16 && |file| <= MAX_LENGTH
    requires NamesBackend(startMode, level) && forall i: nat :: NamesBackend(modes(i), level)
    ensures received == file && outcome == Finished(true)
  {
    var lib, e := AllBackends(), ClientCipher(level, key);
    NamedBackendSelects(startMode, level, key);
    forall i: nat
      ensures modes(i) != 0 && Served(lib, modes, i) && Selects(lib, modes(i), key, e)
    {
      NamedBackendSelects(modes(i), level, key);
    }
    received, outcome := SendAndReceive(lib, startMode, modes, key, iv, e, file);
  }
}
