# Encrypted file transfer: a verified model

The client encrypts a file with AES-GCM and sends the ciphertext and then the 16-byte tag over
TLS, in records of at most 1024 bytes. The server does not know which record is the last, so it
deciphers and hashes everything as it comes, holds 16 bytes back, and at the end takes the tag,
or the part of it that the last record did not bring, out of the hash again. While it does so a
signal may switch it from one AES implementation (backend) to another; `synthesize` sends these
signals, choosing a backend by the time and the energy measured for it.

The project proves one statement about all of this, `Modes.TransferDuringRun`: whatever commands
`synthesize` issues during a transfer, as long as the backends they name exist, a file of any
length arrives byte for byte and its tag is accepted. The rest is what that statement rests on,
or what the measurements and the choice promise by themselves.

| modules | what they hold |
|---|---|
| Bytes, Numbers, Gf128, Addmul, Gcm | blocks and their bits; the integers they stand for; the field of section 6.3 of NIST SP 800-38D; `addmul`; GCM as sections 6 and 7 define it |
| EdContext, Receiver, Sender, Transfer, Unserved | the streaming context; both record loops of the server; the client; whole transfers; a wrong verdict |
| Fips197 | AES as FIPS 197 defines it, with the table for SubBytes as a parameter |
| MatrixAes, FlatAes, NiAes, ArmAes | backends f1 and f4, f2 and f5, and the two halves of f7 and f8 |
| Circuits, SBoxes, Vectors, Linear | the gate circuits over wires of any type; the S-box; the mixing rows |
| Words, Planes, Transposes, Bitslice, BitslicedAes, RevF6 | backends f3 and f6, on 128 words of 64 lanes; the reverse cipher of f6 |
| Backends, Modes | the library of eight backends; the mode of each server process |
| Energy, Medians, Blocks, Variances, Slots, Stats, Synthesize | the integral and the statistics of power samples, block by block and in terms of time; the choice of a backend |

Conventions. Code that works in place is a method over arrays or a class, proved against a
function or a relation between the old and the new contents; the lemmas are about these. A byte
is a `bv8`, a machine word of the bitsliced code a sequence of 64 bits, one a lane. The block
function of a key is any function, so the receiver's theorems hold whatever the cipher. A
`Library` maps a level and an index to the function that `dlsym` would find.
Ghost parameters of a method (`hash`, `ks`, `keys`, `words`) name the key-dependent functions
that its contract speaks of.

Where the comments and the code disagree the code is modelled: the comments of f8 speak of the
11 round keys of AES-128 and of 9 rounds before the last (backends/f8/aes256.c:39, 83), while it
makes 15 and runs 13, and the usage text of `synthesize` (src/synthesize.c:144) offers security
level 0, which neither server port has (`Modes` covers levels 1 and 2, the ones they have).

Five properties one might expect are not true of the code as it stands. Each has an input and
the exact condition under which it does hold.

- `synthesize -t 0 -e 0` chooses a backend that is both fastest and cheapest if and only if there
  is one (`Synthesize.ChoiceForLeast`; `FastestNotCheapest` has a database without one).
- `synthesize` chooses a candidate at all, the nearest one, if the candidates differ in time and
  in energy; if not, it divides by 0 and takes the first entry, whatever that is
  (`Synthesize.ChosenIsNearest`, `SpreadIff`; `LoneCandidate` has a level with one backend).
- Transposing and transposing back is the identity if and only if lanes 32 to 63 hold copies of
  lane 31, because `bitpos` is a 32-bit int (`Transposes.RoundTrip`; `UpperLaneLost` has a state
  that is lost).
- `bs_cipher_revf6` undoes `bs_cipherf6` in a lane if and only if the lane's round keys 10 and 14
  are equal, because it starts from number 10 (`RevF6.CipherThenRev`; `LaneNotRestored` has keys).
- The result of `dec_update` is not looked at for the last, short record. When the mode then names
  no backend, the tag is compared with that of the full records alone, and what `outmsg` still
  holds is written: the file is right if and only if its end repeats the beginning of the chunk
  before (`Receiver.Receive`, `Receiver.StaleIsRight`; `Unserved.UncheckedVerdict` has a record
  that is accepted with a tag that is not its own).

## Model

| member | source | states |
|---|---|---|
| Modes.TransferDuringRun | src/server_f.c:165-211 | For every run of commands and every moment of it at which each record is read, the file of any length sent by the client arrives unchanged and the tag is accepted. |
| Backends.TransferAtLevel | src/encrypt02.c:109-124 | The same for any schedule of modes that name backends of the port's level: switching between chunks is harmless because all of them compute one block function. |
| Transfer.SendAndReceive | src/cltest.c:152-181 | For any library and any schedule of modes whose functions, where one is looked up, compute the cipher of the client: if every chunk finds a function the file, of any length, arrives unchanged and its tag is accepted; the transfer is abandoned iff a full record finds none; if only the end of the file finds none, what arrives is right iff that end repeats the chunk before. |
| Transfer.ClientLookups | src/cltest.c:152-181 | In terms of the file's length alone: which of the client's records are full and which make the server look a function up. |
| Transfer.BothPaths | src/server_f.c:235-258 | On 1024-byte framing the OpenSSL path and the backend path give the same file and the same verdict, for good and for bad tags, when a function is found wherever one is looked up. |
| Transfer.ReceiveOpenSsl | src/server_f.c:235-258 | For records longer than 16 bytes with a last one of any length, OpenSSL is given exactly the stream less its last 16 bytes, in order, and exactly those 16 bytes as the tag. |
| Transfer.OpenSslSession.LongRecord | src/server_f.c:239-249 | A record longer than the tag releases the bytes held back and holds back its own last 16. |
| Transfer.OpenSslSession.LastRecord | src/server_f.c:250-254 | A last record of 1 to 16 bytes makes as many of the bytes held back into data, and the tag stands at tp. |
| Receiver.Receive | src/server_f.c:165-211 | For every framed stream of at least 16 bytes: the loop is abandoned iff a full record finds no function; otherwise, if the last record is served, the file is the decryption of all but the last 16 bytes and the verdict is accepted iff these are the GCM tag of the rest; if it is not served, the verdict compares them with the tag of the full records, and the end of the file is the beginning of the chunk before; with two records or more the file is right iff the last is served or its data repeats that. |
| Receiver.StaleIsRight | src/server_f.c:198-200 | Bytes left over from the chunk before are the right ones iff the data repeats them. |
| Receiver.RightOrLost | src/server_f.c:198-200 | The same for a framed stream with at least one full record. |
| Unserved.UncheckedVerdict | src/server_f.c:198-210 | A record that no function is found for, and that the server accepts although its last 16 bytes are not the tag of its data. |
| Receiver.Session.FullRecord | src/server_f.c:171-183 | After a full record everything so far is hashed and deciphered, all but the last 16 bytes are in the file, and those are held as a possible tag; without a function the loop is left. |
| Receiver.Session.DataRecord | src/server_f.c:184-203 | A last record longer than the tag: its data are hashed and written and its last 16 bytes are the tag, neither hashed nor deciphered; without a function nothing more is hashed and the deciphered bytes of the record before are written for the data. |
| Receiver.Session.TagRecord | src/server_f.c:187-197 | A last record of 1 to 16 bytes: the tag is put together from two records, and hash, length and file are those of the data without it. |
| Receiver.Session.RollBack | src/server_f.c:193-195 | The last block of the hashed message is replaced by its first bytes: hash and length become those of the shorter message. |
| Receiver.Session.DropTag | src/server_f.c:206-209 | When the stream ends on a full record, the saved hash and the reduced length are those of the message without its last block. |
| Receiver.PutTail | src/server_f.c:189-190 | The 16 bytes at tp are the held-back bytes that remain, followed by the last record. |
| Receiver.SplitTag | src/server_f.c:187-197 | Which bytes are data and which are tag when the tag is split over two records. |
| Receiver.Flush | src/server_f.c:172-178 | What is written of the held-back block completes the decryption to the chosen length. |
| Sender.Send | src/cltest.c:152-181 | The records are all of 1024 bytes but a shorter last one, whatever the file's length, and together they are the ciphertext followed by the tag. |
| Sender.SendChunk | src/cltest.c:152-161 | After each chunk the records sent and the bytes waiting in outmsg are the ciphertext so far; only full records have been sent. |
| Sender.SendTag | src/cltest.c:175-181 | The tag goes out after the waiting bytes, in one record or in two, and the framing holds in both cases. |
| EdContext.EDcontext.EdInit | src/encrypt02.c:66-95 | Without a library 1, without a function -1, else 0 and a context keyed for this key and nonce with nothing hashed. |
| EdContext.EDcontext.DecUpdate | src/encrypt02.c:98-128 | With an installed function the bytes are deciphered at their place in the key stream and hashed after what came before, and paccum is the hash before the last block; else -1 and nothing has changed. |
| EdContext.EDcontext.DecBlock | src/encrypt02.c:111-124 | One block: the counter goes up by one, paccum keeps the hash, and no other byte of the output changes. |
| EdContext.EDcontext.DecFinal | src/encrypt02.c:130-138 | 0 iff the given bytes are the tag of the hashed bytes, else -1; the block hashed last holds the values 0 and, in its last eight bytes, eight times the number of bytes hashed. |
| EdContext.EDcontext.StoreLengths | src/encrypt02.c:133 | The two halves of finalblock have the values 0 and eight times the length, without wrapping. |
| EdContext.Verify16 | src/verify_16.inc:1-22 | The comparison without branches is 0 for equal blocks and -1 for all others. |
| EdContext.Store | src/encrypt02.c:18-28 | The big-endian form of the number, at its place and nowhere else. |
| Numbers.BigEndianValue | src/encrypt02.c:18-28 | What is stored has, weighed bit by bit, the value of the number modulo 256^n. |
| Numbers.IncrementValue | src/encrypt02.c:114-115 | Incrementing adds exactly one to the value, through all carries, and wraps around at 256^n only. |
| EdContext.SelectedGenerates | src/encrypt02.c:109-117 | A selected function, applied to the counter blocks, generates the key stream of GCTR. |
| Addmul.AddMul | src/encrypt02.c:36-61 | a becomes the product of section 6.3 of NIST SP 800-38D of (a xor x padded with zeros) and y. |
| Addmul.Convolve | src/encrypt02.c:48-51 | The 128 by 128 bit convolution, modulo the field's polynomial, is the product of the field. |
| Addmul.ReduceStep | src/encrypt02.c:52-58 | Each step of the reduction keeps the residue modulo the polynomial and clears its bit, without disturbing those cleared before. |
| Addmul.Reduce | src/encrypt02.c:52-58 | The low half ends as the residue, the upper half all zero. |
| Addmul.PackBits | src/encrypt02.c:59-60 | The bits of the block are the low half of the product. |
| Gf128.ModulusShifted | src/encrypt02.c:53-56 | x^(k+128) is x^k + x^(k+1) + x^(k+2) + x^(k+7) in the field: the step's four exclusive ors are a multiple of the modulus. |
| Gf128.DotComm | src/encrypt02.c:36-61 | The product of section 6.3 is commutative, though its definition is not symmetric. |
| Gf128.DotAssoc | src/encrypt02.c:36-61 | It is associative. |
| Gf128.DotDistributes | src/encrypt02.c:36-61 | It distributes over exclusive or. |
| Gf128.DotOne | src/encrypt02.c:36-61 | The block 1000... is its unit, on both sides. |
| Gcm.GhashIsPolynomial | src/encrypt02.c:111-124 | Absorbing n blocks one by one gives the sum of the X_i H^(n-i+1), the value of the polynomial of section 6.4 of NIST SP 800-38D. |
| Gcm.AbsorbIsGhash | src/encrypt02.c:111-124 | Absorbing with an implicitly padded last block is GHASH of the padded message. |
| Gcm.CryptIsEncipher | src/encrypt02.c:111-118 | GCTR, block by block with inc32, is exclusive or with one key stream, so it may be cut at any block. |
| Gcm.CounterIsIndex | src/encrypt02.c:83-85 | Storing index + 1 behind the nonce is inc32 applied index times to the pre-counter block. |
| Gcm.CounterValue | src/encrypt02.c:114-115 | The counter block of block n keeps the nonce, and its last four bytes have the value n + 1 modulo 2^32. |
| Gcm.Inc32Value | src/encrypt02.c:114-115 | inc32 of section 6.2 of NIST SP 800-38D in terms of values. |
| Gcm.TagIsStreamTag | src/encrypt02.c:130-135 | The tag of section 7.1 is what accum, finalblock and T give. |
| Gcm.LengthsValue | src/encrypt02.c:133 | The block that ends the hashed message holds the bit lengths 0 and 8 * |c| of section 7.1, eight bytes each. |
| Gcm.DecryptEncrypt | src/cltest.c:152-175 | Authenticated decryption undoes authenticated encryption, with its tag accepted. |
| Fips197.InvCipherUndoes | backends/f3/bs.c:1083-1122 | The inverse cipher of section 5.3 of FIPS 197 undoes the cipher for any round keys and any number of rounds, given an inverse table and inverse mixing rows. |
| Fips197.KeyRecurs | backends/f1/aes128.c:136-179 | The words of the schedule satisfy one recurrence, which every backend's expansion is proved to follow. |
| MatrixAes.Encrypt | backends/f1/aes128.c:321-329 | f1, and f4 for 32-byte keys: the result is AES of the key and the block (FIPS 197, sections 5.1 and 5.2). |
| MatrixAes.KeyExpansion | backends/f1/aes128.c:121-181 | The bytes of RoundKey are the words of the FIPS schedule, for 4 and 8 key words. |
| MatrixAes.ShiftRowsIn | backends/f1/aes128.c:214-240 | The three in-place rotations are ShiftRows. |
| MatrixAes.MixColumnsIn | backends/f1/aes128.c:248-261 | The in-place form with Tmp and xtime is MixColumns. |
| MatrixAes.MixedColumnIsMixColumn | backends/f1/aes128.c:254-259 | A column in that form is the matrix product of section 5.1.3 of FIPS 197. |
| MatrixAes.CipherIn | backends/f1/aes128.c:295-319 | The rounds, with the loop left before the last mixing, are the cipher of section 5.1. |
| FlatAes.Encrypt | backends/f2/a.c:126-171 | f2, and f5 for 32-byte keys: the result is AES of the key and the block. |
| FlatAes.ExpandKey | backends/f2/a.c:63-87 | The in-place expansion is the FIPS schedule, and the byte-wide cursor reaches 176 or 240 without wrapping. |
| FlatAes.RconLoop | backends/f2/a.c:33-47 | Counting down, the loop doubles its way to the round constant. |
| FlatAes.ScheduleCore | backends/f2/a.c:51-60 | RotWord, SubWord and the constant of section 5.2. |
| FlatAes.McolIn | backends/f2/a.c:102-123 | Mcol is MixColumns on the whole state. |
| FlatAes.McolIsMixColumn | backends/f2/a.c:109-117 | Its form with gmul2 and shared sums is the matrix product of section 5.1.3. |
| FlatAes.ShiftRowsIn | backends/f2/a.c:153-157 | Its order of moves is ShiftRows. |
| NiAes.Aes128 | backends/f7/aes128.c:72-76 | The AES-NI form of AES-128 is AES. |
| NiAes.Aes256 | backends/f8/aes256.c:105-109 | The AES-NI form of AES-256 is AES. |
| NiAes.LoadKeys128 | backends/f7/aes128.c:33-45 | The eleven registers are the FIPS round keys. |
| NiAes.LoadKeys256 | backends/f8/aes256.c:40-73 | The fifteen registers, made by turns from r1 and r2, are the FIPS round keys. |
| NiAes.PrefixXor | backends/f7/aes128.c:26-28 | Three steps of shift and exclusive or make the prefix sums of the four words. |
| NiAes.ExpandStepWords | backends/f8/aes256.c:26-38 | Prefix sums and a broadcast word turn one round key into the one a key length further on. |
| NiAes.AssistRotated | backends/f7/aes128.c:35-44 | Word 3 of aeskeygenassist is RotWord, SubWord and the constant of section 5.2, for both key lengths. |
| NiAes.AssistPlain | backends/f8/aes256.c:51-69 | Word 2 of aeskeygenassist with constant 0 is the extra SubWord of 256-bit keys. |
| NiAes.SubShiftCommute | backends/f7/aes128.c:56-67 | aesenc shifts before it substitutes and FIPS after: it makes no difference. |
| NiAes.Encrypt128 | backends/f7/aes128.c:48-71 | Nine aesenc and one aesenclast are the ten rounds of FIPS 197. |
| NiAes.Encrypt256 | backends/f8/aes256.c:76-102 | Thirteen aesenc and one aesenclast are the fourteen rounds of FIPS 197. |
| ArmAes.Encrypt | backends/f7/aes128.c:138-155 | The ARM form of f7, and of f8 for 32-byte keys, is AES. |
| ArmAes.ShiftedRound | backends/f7/aes128.c:144-152 | Adding the round key first, one round ahead, keeps in step with the rounds of FIPS 197; the final exclusive or makes up for it. |
| ArmAes.EncryptRounds | backends/f8/aes256.c:177-185 | The rounds in ARM order are the cipher of section 5.1. |
| ArmAes.KeyExpansion | backends/f8/aes256.c:143-165 | The scalar expansion is the FIPS schedule for both key lengths, and its constants do not run out. |
| SBoxes.CircuitIsTable | backends/f3/bs.c:211-368 | The gate circuit bs_sbox computes the table of the other backends, for every byte. |
| SBoxes.InverseCircuit | backends/f3/bs.c:49-209 | The gate circuit bs_sbox_rev takes every entry of the table back to its place. |
| SBoxes.SBoxUndoes | backends/f6/bs.c:49-209 | bs_sbox also undoes bs_sbox_rev, for every byte. |
| SBoxes.TableIsFips | backends/f1/aes128.c:73-90 | Every entry is the affine map of section 5.1.1 of FIPS 197 applied to the field inverse, 0 going to 0. |
| Circuits.SboxPerWire | backends/f3/bs.c:211-368 | The circuit on words is the circuit on bits, lane by lane: no gate mixes lanes. |
| Circuits.InvSboxPerWire | backends/f3/bs.c:49-209 | The same for the inverse circuit. |
| Words.SboxLane | backends/f3/bs.c:211-368 | In each of the 64 lanes bs_sbox is the S-box, whatever the other lanes hold. |
| Words.InvSboxLane | backends/f3/bs.c:49-209 | In each of the 64 lanes bs_sbox_rev is the inverse S-box. |
| Linear.MixRowBits | backends/f3/bs.c:813-942 | The four straight-line rows of bs_mixcolumns are the one row of section 5.1.3 of FIPS 197, each in its rotation. |
| Linear.MixSpecIsMixByte | backends/f3/bs.c:813-942 | That row on bits is the row on bytes that the byte-wise backends compute. |
| Linear.InvMixRow0Bits | backends/f3/bs.c:944-1056 | The first row of bs_mixcolumns_rev is the inverse row of section 5.3.3. |
| Linear.InvMixRow1Bits | backends/f3/bs.c:944-1056 | So is the second, in its rotation. |
| Linear.MixUndone | backends/f3/bs.c:813-1056 | The inverse rows undo the rows, for every column of bytes. |
| Planes.Fused | backends/f3/bs.c:588-942 | On every state the fused bs_shiftmix relates the same states as bs_shiftrows followed by bs_mixcolumns. |
| Planes.ShiftUndone | backends/f3/bs.c:588-717 | bs_shiftrows_rev restores all 128 words after bs_shiftrows. |
| Planes.MixUndoneOnPlanes | backends/f3/bs.c:813-1056 | bs_mixcolumns_rev restores all 128 words after bs_mixcolumns. |
| Planes.SubstitutedLane | backends/f3/bs.c:25-33 | In every lane bs_apply_sbox is SubBytes of that lane's block alone. |
| Planes.ShiftedLane | backends/f3/bs.c:588-652 | In every lane bs_shiftrows is ShiftRows. |
| Planes.MixedLane | backends/f3/bs.c:813-942 | In every lane bs_mixcolumns is MixColumns. |
| Planes.ShiftMixedLane | backends/f3/bs.c:726-809 | In every lane bs_shiftmix is MixColumns after ShiftRows. |
| Planes.InvMixedLane | backends/f3/bs.c:944-1056 | In every lane bs_mixcolumns_rev is InvMixColumns. |
| Bitslice.ShiftRows | backends/f3/bs.c:588-652 | The loop with four wrapping offsets moves every byte's planes to their place. |
| Bitslice.ShiftRowsRev | backends/f3/bs.c:654-717 | The loop that spreads the rows moves them back. |
| Bitslice.ShiftMix | backends/f3/bs.c:726-809 | Every output column is the mixed column of the four bytes that the wrapping offsets pick. |
| Bitslice.MixColumns | backends/f3/bs.c:813-942 | Every output column is the mixed input column, through a copy. |
| Bitslice.MixColumnsRev | backends/f3/bs.c:944-1056 | Every output column is the inversely mixed input column. |
| Transposes.TransposeDst | backends/f3/bs.c:378-474 | Bit p of block min(l, 31) goes to lane l of word p: the sign-extended 32-bit mask puts lane 31 into the upper lanes. |
| Transposes.TransposeRev | backends/f3/bs.c:476-568 | Lane k of word p goes to bit p of block k, in all 64 lanes. |
| Transposes.RoundTrip | backends/f3/bs.c:378-568 | There and back, lanes 0 to 31 are kept and the others are copies of lane 31; the identity exactly on states whose upper lanes already are. |
| Transposes.UpperLaneLost | backends/f3/bs.c:378-388 | A block in lane 40 alone does not survive. |
| BitslicedAes.CallersSurvive | backends/f3/bs.c:1066-1077 | Both callers, with one block in a zero state or with a replicated round key, meet that condition and get their state back. |
| BitslicedAes.ExpandKey | backends/f3/bs.c:1058-1081 | Round key r of FIPS 197 stands in all 64 lanes of rk[r], for both key lengths. |
| BitslicedAes.Cipher | backends/f3/bs.c:1083-1102 | Block k ends as the FIPS cipher, under the keys of lane k, of block min(k, 31), for any round-key words; with 14 rounds as in f6. |
| BitslicedAes.CipherRev | backends/f3/bs.c:1104-1122 | The same for the inverse cipher of section 5.3 with 10 rounds. |
| BitslicedAes.CipherThenRev | backends/f3/bs.c:1083-1122 | bs_cipher_rev undoes bs_cipher on blocks 0 to 31, for every state and every set of round-key words. |
| RevF6.UnmixUndone | backends/f6/bs.c:813-1056 | The rows of bs_mixcolumns also undo the inverse rows. |
| RevF6.RoundInjective | backends/f6/bs.c:1110-1116 | A round of the inverse cipher takes different states to different states. |
| RevF6.WrongStart | backends/f6/bs.c:1104-1122 | Started from another round key, the inverse cipher gives the block back iff that key equals the right one, for any keys and any number of rounds. |
| RevF6.CipherRev | backends/f6/bs.c:1104-1122 | bs_cipher_revf6 is the inverse cipher with round key 10 in place of 14. |
| RevF6.CipherThenRev | backends/f6/bs.c:1083-1122 | It undoes bs_cipherf6 in exactly those of the lanes 0 to 31 whose round keys 10 and 14 are equal, for every state. |
| RevF6.LaneNotRestored | backends/f6/bs.c:1104-1122 | Round keys for which no block at all comes back. |
| BitslicedAes.Encrypt | backends/f3/aes.c:7-37 | f3, and f6 for 32-byte keys: through transposes, circuits and back, the result is AES of the key and the block. |
| Backends.Call | src/encrypt02.c:109-117 | On either target, each of the eight backends called with the 32-byte key buffer computes AES-128 under its first 16 bytes at level 1 and AES-256 under all of it at level 2. |
| Backends.Encrypt | backends/f8/aes256.c:105-109 | On either target, all four backends of a key length compute AES under exactly the key they are given. |
| Backends.FirstHalfOnly | backends/f1/aes128.c:127-133 | At level 1 two key buffers with the same first 16 bytes give the same block. |
| Backends.NamedBackendSelects | src/encrypt02.c:7-16 | A mode that names a backend of a level is installed and selects the client's cipher of that level. |
| Modes.Run | src/server_f.c:30-37 | Both processes end in the mode of the last code sent to their own port. |
| Modes.ModeDecodes | src/server_f.c:81 | After any run each port's mode decodes to its own level, and to the index and the function last sent to it or, if none was, index 2 and encryption. |
| Modes.ModeIsLast | src/server_f.c:30-37 | The mode is the last code sent to the port, whatever was sent to other ports, or the initial one. |
| Modes.CodeDecodes | src/synthesize.c:179-181 | The code is not 0 and decodes to all three of its parts: function, level and index. |
| Modes.ModeNamesBackend | src/encrypt02.c:7-16 | If the backends named in a run exist, the mode after it always names one of the port's level. |
| Modes.ChoiceDecodes | src/synthesize.c:179-181 | The code of the nearest entry, sent to its port after any run, makes that port's mode decode to that entry's function, level and index, and leaves the other port's mode. |
| Modes.ChooseAndSend | src/synthesize.c:151-183 | The whole of synthesize, when it does not divide by 0: the entry it finds is nearest and of the function and level asked for, the process of that level ends in a mode that decodes to them and to the entry's index, and the other process keeps its mode. |
| Energy.Ina260Energy | src/ina260.h:203-218 | The loop computes the clipped sum that the lemmas are about, whatever the order of the samples. |
| Energy.EnergyAdds | src/ina260.h:203-218 | The energy of a window is the sum of the energies of its two parts, at every split point. |
| Energy.EnergyExact | src/ina260.h:203-218 | For affine power and samples that cover the window it is the exact integral. |
| Energy.EnergyBounds | src/ina260.h:195-218 | For samples that cover the window it lies between the least and the greatest power times the window's length. |
| Energy.EnergyOutside | src/ina260.h:208-216 | Windows before the first or after the last sample have no energy, so that with additivity only the covered part of a window counts. |
| Energy.CoversIff | src/ina260.h:195-198 | Ordered samples cover a window iff some are no later than its start and some no earlier than its end. |
| Stats.Ina260.Stats | src/ina260.h:227-271 | Count, extremes, mean, median, robust level and the square of the standard deviation, as the mean square distance from the mean, of the samples in the window, with the empty and the zero-length window apart; blocks counts the slots of time in use, and for every interval [u, v] that meets fewer than half of them, the robust level lies between any bounds on the powers outside of [u, v]. |
| Stats.Ina260.FillBlocks | src/ina260.h:256-263 | Every block's count and sum are those of the samples that fall into it (by Slots.SlotOf, those of its slot of time), and the index stays below nb. |
| Blocks.Conserved | src/ina260.h:256-263 | Counts and sums over the blocks add up to those of the window: each sample is in exactly one block. |
| Slots.SlotOf | src/ina260.h:259-260 | A sample falls into block j iff its time lies in the j-th of nb equal slots of the window, closed below and open above, the last one closed. |
| Slots.QuarterSeconds | src/ina260.h:253-255 | The number of blocks is the number of quarters of a second, unless that is below 3 or above 255. |
| Slots.OneMeanPerSlot | src/ina260.h:264-267 | There is one block mean for every slot that holds a sample. |
| Slots.LevelWithin | src/ina260.h:252-271 | If outside of [u, v] all powers of the window are within bounds, and [u, v] meets fewer than half of the slots in use, the median of the block means is within them. |
| Variances.OnePassVariance | src/ina260.h:246-249 | The one-pass formula is the mean square distance from the mean, which is never negative: the guard replaces nothing but 0. |
| Stats.RobustLevel | src/ina260.h:264-271 | If fewer than half of the non-empty blocks are disturbed, the robust level lies within the range of the others' means. |
| Stats.BurstIgnored | src/ina260.h:252-271 | Samples changed within fewer than half of the blocks leave the robust level within the range of the undisturbed blocks' original means. |
| Medians.RobustWithin | src/ina260.h:268-270 | The median of a sorted sequence lies between any bounds that hold for more than half of it. |
| Medians.MedianNegated | src/ina260.h:246-247 | Negating all values negates the median: for an even number it prefers neither middle. |
| Medians.OrderedUnique | src/ina260.h:245 | Only one ordered sequence has the elements of a given one, so that the result of qsort is determined. |
| Synthesize.Synthesize | src/synthesize.c:151-176 | For every database and query: if some candidate of the level and function is near enough, the first of the nearest candidates; else the first entry of all, as when a division by 0 makes no distance comparable. |
| Synthesize.ChosenIsNearest | src/synthesize.c:161-176 | With preferences 0 to 2 the choice is a nearest candidate iff neither range is empty; otherwise it is entry 0. |
| Synthesize.ChoiceIsNearest | src/synthesize.c:161-176 | In plain terms: with the point asked for and the ranges of the candidates, no entry of the function and level is nearer than the choice in squared distance, times and energies weighed by their ranges, and no earlier one is as near. |
| Synthesize.ChoiceIsIdeal | src/synthesize.c:161-162 | For all nine combinations of preferences: the choice has the least, the middle or the greatest time and energy, as asked for, exactly if some candidate has. |
| Synthesize.ChoiceForGreatest | src/synthesize.c:161-162 | With -t 2 -e 2 no candidate takes more time or more energy than the choice, exactly if that holds for some candidate. |
| Synthesize.ChoiceForMixed | src/synthesize.c:161-162 | With -t 0 -e 2 the choice is fastest and dearest exactly if some candidate is: each preference is about its own quantity. |
| Synthesize.SpreadIff | src/synthesize.c:153-168 | For non-negative measurements, some within the initial minima, the ranges are not empty iff two candidates differ in time and two in energy. |
| Synthesize.LoneCandidate | src/synthesize.c:164-176 | A level with a single backend, which is not chosen. |
| Synthesize.Ranges | src/synthesize.c:153-160 | The loop's four bounds, from their initial values. |
| Synthesize.MeasuredRange | src/synthesize.c:153-160 | For measured entries these bounds are the true least and greatest values of candidates, and the divisors are not 0. |
| Synthesize.DistanceSmall | src/synthesize.c:164-173 | Every candidate's distance is at most 2, so the 10000 of the other entries is never the least. |
| Synthesize.NearestUnique | src/synthesize.c:173-176 | There is only one entry that fits the description of the choice. |
| Synthesize.ChoiceForLeast | src/synthesize.c:161-176 | With -t 0 -e 0 the choice is both fastest and cheapest exactly if some candidate is. |
| Synthesize.FastestNotCheapest | src/synthesize.c:161-176 | Two entries of which none is both: the choice is then only the fastest. |
| Synthesize.ChoiceScales | src/synthesize.c:161-176 | Other units of time or energy do not change the choice, as long as the measurements stay within the initial bounds. |

## Left out

- TLS, sockets, certificates, the export of key and nonce, `fork`, signal delivery, `dlopen` and `dlsym`, printing and transfer rates: key, nonce, records, modes and library are parameters.
- Streams shorter than 16 bytes, short reads in mid-stream on the backend path, a mode of 0 set during a transfer that is still 0 in the end (the OpenSSL branch would then run too), and a mode that the handler changes within one `dec_update`.
- An `ed_init` that fails: the server ignores its result, so the starting mode is required to name an installed function.
- Plaintexts over the limit of section 5.2.1.1 of NIST SP 800-38D, and the wrap-around of `ct` and `kbyte`, which are ints.
- `BIO_write` of 0 bytes, which the client does when the file's length is 1008 modulo 1024, is taken to deliver no record.
- OpenSSL itself: its context is a class whose contract is GCM by section 7 of NIST SP 800-38D.
- The CPU's AES and NEON instructions and shuffles: specification functions with the meaning the vendors document.
- The copies of the S-box: one table stands for each backend's own; the byte-wise backends take it as a parameter.
- The words of the bitsliced code as 64-bit numbers: a word is the sequence of its bits, so shifts by a lane number are indices.
- Where the bitsliced code keeps a group of words in local variables, the model loads and stores them together.
- `aes_ecb_encrypt` with more than one block: its size is always 16.
- Stats.Ina260.Stats: gives the square of the standard deviation, not its root, which reals do not have as a computed value.
- Energy.Ina260Energy: is about real numbers, so rounding is not modelled; the same holds for the statistics and for `synthesize`.
- `qsort` in the statistics: a method that leaves the sorted sequence.
- Synthesize.Synthesize: a quotient with divisor 0, a NaN or an infinity, is one undefined distance, below no number; the result is the same.
- Reading `db.yaml` and the command line, and the plot.
- Modes.ChooseAndSend: requires ranges that are not empty, preferences 0 to 2, level 1 or 2 and entries with index 1 to 15; other codes are outside the protocol of the two ports.
- The order of registration: the library is the one in which f1, f2, f3 and f7 are backends 1 to 4 of level 1 and f4, f5, f6 and f8 those of level 2.
- The sampler thread, hwmon discovery, `register`, `gen`, `reset`, the shell scripts: input and output, or text substitution.
