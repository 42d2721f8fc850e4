# Proofs for the record layer, codecs and ciphers

This project models the parts of a TLS stack whose behaviour is hard to see from reading one function, and proves what
they promise. It follows the code of the repository: a fork of Go's `crypto/tls` with its own software AES and GCM, and
a REALITY server that makes its first encrypted flight look like that of another server.

`dafny verify dfyconfig.toml` checks everything.

## The modules

- **GHASH** (`BitStrings`, `Gf128`, `FieldElements`, `Ghash`): bit-level multiplication in GF(2^128), and the table-driven
  multiplication that works a nibble at a time.
- **GCM** (`Gcm`): counter mode, authentication, sealing and opening over an arbitrary block cipher.
- **AES** (`AesTables`, `Fips197`, `Aes`, `AesVectors`): the cipher of FIPS 197 on bytes, the T-table form with the equivalent
  inverse cipher, and the example vectors of the standard.
- **Nonces** (`Nonces`): sequence numbers, nonce masks and the guards against reuse, over the life of a key.
- **AES-GCM** (`AesGcms`): the two together, over the life of a key and under the record layer.
- **Record layer** (`Padding`, `Records`, `HalfConns`, `Deliveries`): protection of one record, under every kind of cipher,
  and exactly which records are delivered.
- **Connections** (`Writers`, `Readers`, `Streams`, `Arrivals`): fragmenting, the retrying reader, the stream between two
  ends, and what becomes of each record that arrives.
- **REALITY** (`Shaping`, `Targets`): learning record lengths from a target, and sending a flight of those lengths; which
  streams of a target lead to what, told in bytes.
- **Codecs** (`Cryptobyte`, `Vectors`, `ClientHellos`, `HelloRoundTrips`, `HelloBinders`, `HelloWire`, `Ech`, `EchWire`,
  `Sessions`, `SessionWire`): ClientHello, compressed inner ClientHello, session state; round trips, and exactly which byte
  strings are accepted.
- **Long-run state** (`TicketKeys`, `Hpke`): ticket key rotation and HPKE sequence numbers.
- **QUIC** (`Quic`): the rendezvous of the application with the handshake goroutine.

`BigEndian` and `Wrappers` are shared helpers.

Code that updates fields or buffers is modelled by classes and methods over arrays, and each method is proved against a
function of the old state; the lemmas are about those functions. Hash functions, MACs, block ciphers under GCM, the
AEAD of HPKE and the parsing of certificates are parameters: where a result needs a law of theirs it says so (`Lawful`,
`LawfulAead`, `LawfulHpke`, `Unforgeable`, `MacSeparates`), and `Records.GcmIsLawful` shows that the AES-GCM built here
has the law the record layer needs. Random bytes, clock readings and the pieces in which the network delivers its bytes
are arbitrary parameters.

The ciphers and the record layer work on bit-vector bytes (`octet`); the codecs work on integer bytes (`byte`), with every
truncation written out.

## What the code does that its documentation does not say

The model follows the code.

- The message limit of HPKE contexts is documented as 2^95 + 1, by way of the bit length of the sequence number, but `bitLen` adds the
  bit lengths of both words. The limit that results is 2^94 + 2^63 messages (`Hpke.LimitIsLast`); nonces are still
  distinct (`Hpke.NoncesDistinct`).
- Without a cipher the reader counts records and the writer does not; both start from 0 with the first keys, so
  `Records.InSync` relates the numbers only once there is a cipher.
- The ticket-shaped filler record is not a handshake message to its reader: it is empty application data
  (`Records.UnwrapsFiller`), which is then dropped like any other.
- A certificate request has no learned length, so a shaped flight that is not coalesced cannot contain one
  (`Shaping.SendServerCertificate`).
- A ClientHello or session that is not well-formed can be encoded, and its encoding is then not read back as the same value;
  `HelloRoundTrips.RoundTripIff` and `Sessions.RoundTripIff` give the exact condition.
- A CBC record without data is delivered although its padding reaches into its MAC, when the end of the MAC happens to look
  like padding (`Deliveries.PaddingInsideMac`); with data the padding is exactly what `encrypt` writes
  (`Deliveries.CbcDeliversData`).
- The padding of an encoded inner ClientHello allows for the length of the server name, but the allowance is counted and
  not added (`EchWire.PaddingMisses`).
- The versions of an inner ClientHello are searched with GREASE values left out, which never makes a difference
  (`EchWire.GreaseIsAbove`).
- An operation of a QUIC connection can wait for ever when no handshake goroutine was launched (`Quic.CallsForNobody`), for
  instance after a `Start` that returned an error.

`readRecordOrCCS` is documented by what it does during and after the handshake. Its code tests what the caller expects: the
cipher spec changes exactly when that is expected, which all callers do only during a handshake. `Readers.OneThingHappens`
states the condition in this form.

## Model

| member | source | states |
|---|---|---|
| `Gf128.MulIsProduct` | gcm/ghash.go:10-24 | the bit-by-bit multiplication of section 6.3 of NIST SP 800-38D is the polynomial product Σ x_i·(α^i·H), coefficient by coefficient |
| `Gf128.Horner` | gcm/ghash.go:106-138 | prepending coefficients to a multiplier is one step of Horner's rule: the old product is multiplied by the power of α and the new part is added |
| `FieldElements.GhashAddIsXor` | gcm/ghash.go:72-77 | adding two field elements as pairs of words is adding the 128-bit polynomials they stand for |
| `FieldElements.GhashDoubleIsDouble` | gcm/ghash.go:79-101 | the shift with the conditional constant on the two words is multiplication by α in GF(2^128) with the GCM polynomial |
| `FieldElements.ReductionTableFolds` | gcm/ghash.go:103-106 | each of the sixteen 16-bit table entries is what four doublings fold back of the four bits that are shifted out |
| `FieldElements.MulBy16IsFourDoubles` | gcm/ghash.go:109-138 | a four-bit shift plus one reduction-table look-up equals four successive doublings, for every field element |
| `Ghash.ReverseBitsTwice` | gcm/ghash.go:66-72 | reversing four bits is an involution on 0..15, so the table index and the multiplier nibble determine each other |
| `Ghash.BuildProductTable` | gcm/ghash.go:37-62 | for every key block, entry reverseBits(i) of the table built by doubling and adding is the polynomial with the bits of i times H |
| `Ghash.LookUp` | gcm/ghash.go:121-134 | what a nibble of the multiplier looks up in the table is that nibble, read as a polynomial of degree at most 3, times H |
| `Ghash.GhashMul` | gcm/ghash.go:106-138 | for every H and y, the 32-nibble table-driven loop computes exactly the product y•H of section 6.3 of NIST SP 800-38D |
| `Ghash.UpdateBlocks` | gcm/ghash.go:140-150 | the loop over 16-byte blocks leaves in y what absorbing these blocks one by one with (y ⊕ block)•H gives |
| `Ghash.GhashUpdate` | gcm/ghash.go:152-161 | any data is absorbed as if it had been padded with zeros to whole blocks |
| `Ghash.GHASHIsGhashBlocks` | gcm/ghash.go:37-64 | the result is GHASH_H of section 6.4: start from the zero block and absorb block by block with the bit-level multiplication |
| `Ghash.GhashBlocksConcat` | gcm/ghash.go:52-58 | absorbing one string and then another is absorbing their concatenation |
| `Ghash.GhashInputs` | gcm/ghash.go:26-64 | absorbing the inputs separately equals absorbing the concatenation of the zero-padded inputs, for any number of inputs of any lengths |
| `Ghash.BlockBits` | gcm/ghash.go:26-30 | a block is the 128 bits of its bytes, the most significant bit of each byte first, as section 6.4 counts them |
| `Gcm.GcmInc32` | gcm/gcm_generic.go:89-94 | the last 32 bits of the block go up by one modulo 2^32 in place and the first 96 stay |
| `Gcm.GcmCounterCrypt` | gcm/gcm_generic.go:68-86 | for every length, including a last partial block, out receives GCTR of section 6.5 and the counter has advanced past the blocks used |
| `Gcm.GctrInvolution` | gcm/gcm_generic.go:68-86 | counter mode applied twice from the same counter gives the text back |
| `Gcm.KeyStreamByte` | gcm/gcm_generic.go:68-86 | byte i of the output is byte i of the input xored with byte i mod 16 of the encryption of the counter gone up i / 16 times |
| `Gcm.DeriveCounter` | gcm/gcm_generic.go:48-65 | the pre-counter block of section 7.1 for every nonce: the 96-bit nonce followed by 1, or GHASH of the padded nonce and its length |
| `Gcm.GcmAuth` | gcm/gcm_generic.go:96-105 | the tag is GHASH of the zero-padded additional data, zero-padded ciphertext and length block, masked with the encrypted pre-counter block |
| `Gcm.AuthenticatedText` | gcm/gcm_generic.go:96-105 | what is hashed is the additional data and the ciphertext, each padded with zeros to whole blocks, and then the numbers of their bits as two big-endian 64-bit numbers |
| `Gcm.HashedNonce` | gcm/gcm_generic.go:56-64 | a nonce that is not of 96 bits is hashed padded with zeros, followed by 8 zero bytes and the number of its bits as a big-endian 64-bit number |
| `Gcm.SizeInBits` | gcm/gcm_generic.go:101-102 | the eight bytes of a length are the big-endian number of bits modulo 2^64, and below 2^61 bytes exactly 8 times the number of bytes |
| `Gcm.SealGeneric` | gcm/gcm_generic.go:14-25 | writes the authenticated encryption of section 7.1 of NIST SP 800-38D, for every nonce length and tag size |
| `Gcm.OpenGeneric` | gcm/gcm_generic.go:27-48 | accepts exactly when the authenticated decryption of section 7.2 does, and then out holds its plaintext, for every nonce length and tag size |
| `Gcm.OpenIffSealed` | gcm/gcm_generic.go:14-48 | a sealed text opens to p if and only if it is what sealing p gives: both the round trip and that nothing else opens |
| `Gcm.NewGCM` | gcm/gcm.go:31-46 | a GCM is made exactly for positive nonce sizes and tag sizes from 12 to 16, and holds the cipher and both sizes |
| `Gcm.Seal` | gcm/gcm.go:63-89 | appends the sealed text to dst; the wrong nonce length and the message limit (2^32-2 blocks) end in the panics of the original |
| `Gcm.Open` | gcm/gcm.go:93-132 | the outcome for every input, and a cleared destination when authentication fails |
| `Gcm.OpenIffSealReturned` | gcm/gcm.go:63-132 | through the interface, behind any dst: Open returns dst + p exactly for what Seal returns for p |
| `Fips197.SboxIsAffineInverse` | aes/const.go:38-57 | every entry of sbox0 is the affine map of section 5.1.1 of FIPS 197 applied to the inverse in GF(2^8) |
| `Fips197.SboxesInvert` | aes/const.go:38-77 | sbox1 undoes sbox0 on every byte |
| `Aes.PowxMeaning` | aes/const.go:16-36 | powx[i] is x^i in GF(2^8) modulo the AES polynomial |
| `Aes.TeMeaning` | aes/const.go:81-216 | te0[x] is (2·S(x), S(x), S(x), 3·S(x)) and te1..te3 its byte rotations, for all 256 bytes |
| `Aes.TdMeaning` | aes/const.go:221-355 | td0[x] is (14, 9, 13, 11) times the inverse S-box value and td1..td3 its byte rotations, for all 256 bytes |
| `Aes.TableRound` | aes/aes_generic.go:55-68 | four te look-ups and a key word per column equal SubBytes, ShiftRows, MixColumns and AddRoundKey on the whole state |
| `Aes.InverseTableRound` | aes/aes_generic.go:102-115 | a td round under a transformed key equals InvShiftRows, InvSubBytes, AddRoundKey with the untransformed key, and InvMixColumns (section 5.3.5 of FIPS 197) |
| `Fips197.InvMixColumnLinear` | aes/aes_generic.go:167-180 | InvMixColumns is linear, which is what allows a round key to be transformed in advance |
| `Fips197.MixColumnBack` | aes/const.go:81-113 | InvMixColumns undoes MixColumns on every column |
| `Fips197.RoundsBack` | aes/aes_generic.go:89-133 | each inverse round takes back one round of the cipher, for any number of rounds |
| `Fips197.InvCipherUndoesCipher` | aes/aes_generic.go:89-133 | the inverse cipher of section 5.3 undoes the cipher of section 5.1, for every key schedule and block |
| `Aes.KeyCoreWord` | aes/aes_generic.go:148-165 | subw, rotw and powx on a word give SubWord, RotWord and Rcon of section 5.2 |
| `Aes.InvMixWordColumn` | aes/aes_generic.go:167-180 | the td look-ups through sbox0 used for the decryption schedule are InvMixColumns of the key word |
| `Aes.BlockExpanded.ExpandEnc` | aes/aes_generic.go:146-165 | the encryption schedule is the key expansion of section 5.2 for 16, 24 and 32-byte keys |
| `Aes.BlockExpanded.DeriveDec` | aes/aes_generic.go:167-180 | the decryption schedule is the encryption schedule in reverse, its inner round keys under InvMixColumns |
| `Aes.BlockExpanded.ExpandKeyGeneric` | aes/aes_generic.go:146-180 | both schedules together, in one call |
| `Aes.BlockExpanded.EncryptBlockGeneric` | aes/aes_generic.go:42-86 | for every expanded key and block dst receives the FIPS 197 cipher of src, also when dst and src are the same buffer, and only the first 16 bytes of dst change |
| `Aes.BlockExpanded.DecryptBlockGeneric` | aes/aes_generic.go:89-133 | for every expanded key and block dst receives the FIPS 197 inverse cipher of src |
| `Aes.New` | aes/aes.go:64-92 | a key of 16, 24 or 32 bytes is expanded; any other length is refused |
| `Aes.DecryptUndoesEncrypt` | aes/aes_generic.go:42-133 | the block decrypted after being encrypted under the same expanded key is the original block |
| `AesVectors.Aes128Vector` | aes/aes_generic.go:42-165 | the cipher gives the published ciphertext of appendix C.1 of FIPS 197, through all of its rounds |
| `AesVectors.Aes192Expansion` | aes/aes_generic.go:146-165 | the first words that a 24-byte key is expanded by are those of appendix C.2, and there are twelve rounds |
| `AesVectors.Aes256Expansion` | aes/aes_generic.go:146-165 | the first words that a 32-byte key is expanded by, with the extra substitution, are those of appendix C.3, and there are fourteen rounds |
| `Nonces.NumberIncrement` | conn.go:249-262 | incrementing the bytes from the end adds exactly 1 to the big-endian number, and fails only at the largest number |
| `Nonces.IncSeq` | conn.go:247-262 | the in-place loop is that increment; false is the panic at wraparound |
| `Nonces.XorNonceAEAD.Seal` | cipher_suites.go:478-497 | seals under mask ⊕ sequence number and leaves the mask exactly as it was, unless the inner AEAD panics |
| `Nonces.MaskTwice` | cipher_suites.go:487-509 | folding a nonce into the mask twice restores the mask |
| `Nonces.GCMForTLS13.Seal` | gcm/gcm_nonces.go:160-196 | the first nonce fixes the mask, a counter that has gone down or is the last one is refused, and otherwise the guard moves just past it |
| `Nonces.PrefixNonceAEAD.Seal` | cipher_suites.go:456-469 | seals under the fixed prefix and the explicit nonce, and remembers both |
| `Nonces.GCMForTLS12.Seal` | gcm/gcm_nonces.go:117-144 | a counter below the next expected one or the last one is refused, and otherwise the guard moves just past it |
| `Nonces.AdmitInStep` | gcm/gcm_nonces.go:160-196 | behind the xor wrapper the guard sees the bare sequence number: the mask cancels, and only number 2^64-1 is refused |
| `Nonces.OnlyUpwards13` | gcm/gcm_nonces.go:160-196 | whatever nonces a caller tries under a TLS 1.3 key, one is let through exactly when its counter is above all let through before and is not the last number; so no nonce is let through twice |
| `Nonces.RunInStep` | conn.go:247-262 | under one TLS 1.3 key exactly the runs of at most 2^64-1 records succeed, and sequence number and guard stay in step throughout |
| `Nonces.RunInStep12` | gcm/gcm_nonces.go:117-144 | the same for a TLS 1.2 key |
| `Nonces.OnlyUpwards12` | gcm/gcm_nonces.go:117-144 | the same for the explicit nonces of a TLS 1.2 key |
| `Nonces.SealRecord13` | conn.go:511-567 | sealing the next record is the step of the run: it uses the nonce of the current number and then increments it |
| `Nonces.IncrementWord` | gcm/gcm_generic.go:89-94 | the 32-bit counter increment is +1 on the big-endian word, as long as it does not wrap |
| `Nonces.InputBlockValue` | gcm/gcm_generic.go:50-94 | below the message limit the counter never wraps: input block i is the nonce followed by i + 1 |
| `Nonces.SealedBytes` | gcm/gcm_generic.go:14-25 | with a 96-bit nonce, ciphertext byte i is the plaintext byte xored with the encryption of the nonce followed by i / 16 + 2, and the tag is GHASH xored with the encryption of the nonce followed by 1 |
| `Nonces.InputBlocksDistinct` | gcm/gcm_generic.go:50-94 | two AES input blocks are equal only for equal nonces and indices, and none is the zero block that gives H |
| `Nonces.KeyLife13` | gcm/gcm_nonces.go:160-196 | over the whole life of a TLS 1.3 AES-GCM key, whatever the record lengths, all AES input blocks for masks and key streams are pairwise distinct and never zero |
| `Nonces.KeyLife12` | gcm/gcm_nonces.go:117-144 | the same for a TLS 1.2 AES-GCM key |
| `Nonces.SealReads` | gcm/gcm_generic.go:14-25 | sealing depends on the block cipher only at the zero block and at the record's own input blocks: the lists above are complete |
| `AesGcms.EncryptBlockInternal` | aes/aes.go:126-130 | the block cipher that GCM calls is the T-table AES |
| `AesGcms.AesInjective` | aes/aes_generic.go:42-133 | under one key no two blocks have the same encryption |
| `AesGcms.KeyStreamLife13` | gcm/gcm_nonces.go:160-196 | over the whole life of a TLS 1.3 AES-GCM key all tag masks and key stream blocks are pairwise distinct, and none is the hash key |
| `AesGcms.KeyStreamLife12` | gcm/gcm_nonces.go:117-144 | the same for a TLS 1.2 AES-GCM key |
| `AesGcms.AesGcmRoundTrip` | gcm/gcm.go:63-132 | AES-GCM of every size it can be made with opens what it sealed, and opens nothing else to the same text |
| `AesGcms.AesRunRoundTrip` | conn.go:349-599 | every run of records under a TLS 1.3 AES-GCM key of this repository, whatever lengths it has to imitate, is read back, with nothing assumed of the cipher |
| `Padding.ExtractPadding` | conn.go:286-335 | for payloads of 1 to 2^31-1 bytes, the branch-free scan answers 255 exactly when the padding length fits and the last paddingLen+1 bytes all equal it, and says how much to remove; an empty payload gives 0, 0 |
| `Padding.PaddingRecognised` | conn.go:573-587 | the padding that encrypt writes, up to 256 bytes, is always recognised and removed in full |
| `Padding.RoundUpIsLeastMultiple` | conn.go:337-339 | roundUp(a, b) is a multiple of b, and the least one from a on |
| `Records.LengthRoundTrip` | conn.go:594-596 | the two length bytes of a header give the length back, below 2^16 |
| `Records.LengthIsBigEndian` | conn.go:594-596 | the two length bytes are the big-endian 16-bit number |
| `Records.StreamRoundTrip` | conn.go:349-471 | what a stream cipher with a MAC protects is delivered unchanged, and both sides' key streams stay aligned |
| `Records.CbcRoundTrip` | conn.go:489-599 | what CBC with a MAC protects, with explicit or implicit IVs, is delivered unchanged, and the IVs stay aligned |
| `Records.Aead12RoundTrip` | conn.go:489-599 | what a TLS 1.2 AEAD protects is delivered unchanged |
| `Records.Aead13RoundTrip` | conn.go:489-599 | what a TLS 1.3 AEAD protects, with any shaping, is delivered with the type and content that its inner plaintext carries |
| `Records.InnerLength` | conn.go:528-567 | the padding of a shaped handshake record fits the 8192 zeros available, makes the record exactly as long as its stage asks, and uses that length up; without shaping only the type byte is added |
| `Records.UnwrapsFiller` | conn.go:528-567 | a one-byte ticket-shaped filler is read as empty application data; a longer one comes back altered |
| `Records.RecordRoundTrip` | conn.go:349-599 | for every cipher family, version and state: what encrypt sends, a reader in step delivers with the same type and payload and stays in step; which calls panic or fail, and what fillers become |
| `Records.RunRoundTrip` | conn.go:349-599 | over any run of records and key changes, length-shaped or not, the reader delivers exactly the payloads written, in order, with their types; fillers of a shaped flight are read as empty application data, or altered in the one way their disguise alters them |
| `Records.NothingAltered` | conn.go:349-599 | without shaping, or without a written new_session_ticket, everything is read back as it was written |
| `Records.GcmIsLawful` | cipher_suites.go:478-509 | the AEADs built here from GCM and the nonce wrappers satisfy the laws that the record layer results assume |
| `HalfConns.HalfConn.Encrypt` | conn.go:487-599 | the method that changes sequence number, cipher state and learned lengths in place has, for every input, the outcome and final state of the record specification |
| `HalfConns.HalfConn.Decrypt` | conn.go:345-471 | the same for the reading direction: data, type, alert or panic, and the whole new state; what that is is told by the members of Deliveries |
| `HalfConns.HalfConn.VerifyMac` | conn.go:441-467 | agrees with the specified check, which by Deliveries.MacDecides delivers data exactly when the padding was good and the payload is that data, its MAC and the padding, and otherwise answers bad_record_mac |
| `Deliveries.MacDecides` | conn.go:441-467 | good padding and the right MAC over sequence number, header and data are together necessary and sufficient for a payload to be delivered as that data; anything else is bad_record_mac |
| `Deliveries.StreamDelivers` | conn.go:349-467 | under a stream cipher a record is delivered as data if and only if it deciphers, byte by byte, to the data and its MAC; every other record is bad_record_mac |
| `Deliveries.CbcDelivers` | conn.go:394-467 | under CBC a record is delivered if and only if it is whole blocks that decipher to the data, its MAC and good padding, which, when there is no data, may begin inside the MAC; every other record is bad_record_mac |
| `Deliveries.CbcDeliversData` | conn.go:394-467 | when there is data, the padding is exactly what encrypt writes, of 1 to 256 bytes |
| `Deliveries.PaddingInsideMac` | conn.go:441-467 | a record without data whose padding reaches into its MAC, and which is delivered |
| `Deliveries.PlainDelivers` | conn.go:437-471 | before there is a cipher every record is delivered as it is |
| `Deliveries.AeadDelivers12` | conn.go:369-393 | under a TLS 1.2 AEAD a record is delivered if and only if it opens, with the explicit nonce or the sequence number, and the header with the plaintext's length, to the data; every other record is bad_record_mac |
| `Deliveries.AeadDelivers13` | conn.go:354-436 | under a TLS 1.3 AEAD a record is delivered if and only if it is an outer application data record that opens, under its header, to at most 16385 bytes that are the data, its type and zeros; which alert meets every other record, and change_cipher_spec passes as it is |
| `Deliveries.SentBytes` | conn.go:487-599 | the bytes of every unshaped record under each kind of cipher: header with the length of the fragment, nonce or IV, MAC, padding and type byte, under the keys |
| `HalfConns.HalfConn.UnwrapPlaintext` | conn.go:402-423 | the backward scan finds the last non-zero byte as the type; only zeros, or too long a text, are refused |
| `HalfConns.HalfConn.TakeTarget` | conn.go:534-555 | a handshake message takes the learned length of its stage, which can be taken only once, and leaves the others |
| `HalfConns.HalfConn.ShapeRecord` | conn.go:528-561 | the inner plaintext of a TLS 1.3 record, built up in place, is the specified one: type byte, disguise of a ticket, zeros up to the learned length, or the error or panic |
| `HalfConns.HalfConn.ChangeCipherSpec` | conn.go:222-236 | prepared keys are taken once, with the sequence number back at 0; none prepared, or TLS 1.3, is an error that changes nothing |
| `HalfConns.HalfConn.SetTrafficSecret` | conn.go:238-245 | new keys start at sequence number 0 |
| `HalfConns.HalfConn.PrepareCipherSpec` | conn.go:214-220 | prepared keys wait beside the current ones, which stay in use |
| `Writers.SentLength` | conn.go:489-599 | the length of every record that is not shaped, from the cipher and the payload length alone |
| `Writers.WithinCiphertextLimits` | conn.go:705-712 | no payload of at most 16384 bytes makes a record longer than the reader's ciphertext limits |
| `Writers.SegmentPayloadFits` | conn.go:950-970 | the small payload is the largest one whose record fits one estimated TCP segment, and is positive |
| `Writers.Writer.MaxPayloadSizeForWrite` | conn.go:937-982 | always between 1 and 16384: the smaller of 16384 and the segment payload times the number of the packet, or 16384 at once for other types, large amounts sent and fixed sizes |
| `Writers.Writer.WriteRecordLocked` | conn.go:1014-1076 | data is cut into pieces that add up to it, each as large as the growing limit of the moment or what is left allows, each sealed under the next state; on failure exactly the first n bytes have gone out; handshake data up to 16384 bytes stays in one record |
| `Writers.PacedFull` | conn.go:937-1076 | records that carry no application data are as full as can be, all but the last |
| `Writers.Writer.Coalesce` | conn.go:1090-1115 | messages of a coalesced flight other than ServerHello are held back until Finished releases all of them together |
| `Writers.Writer.WriteRecord` | conn.go:1090-1132 | a handshake record goes out alone or is collected, as the shaping buffer says |
| `Writers.Writer.Flush` | conn.go:993-1004 | what was buffered goes out once, in order, is added to the bytes sent, and ends the buffering |
| `Shaping.Learner.Feed` | tls.go:227-307 | for every cut of the target's bytes into reads: the step taken is that which the whole stream so far decides, unless more than 8192 bytes have piled up; a handshake starts with the lengths of the records the stream begins with; Targets.EveryStream says in bytes which step that is |
| `Shaping.OutcomeOfStream` | tls.go:257-304 | records that are already taken do not matter for what is decided next, so the decision depends on the bytes and not on the reads |
| `Shaping.Learner.TryStage` | tls.go:257-304 | what the saved bytes decide at one stage: wait for the rest of a record, give up on one that does not fit, is too long or is refused, start the handshake, or take the record out and go on; Targets.HeaderInBytes says in bytes what fits |
| `Shaping.LayoutSum` | tls.go:270-304 | the learned lengths plus what is left over make up the bytes read |
| `Shaping.LayoutUnique` | tls.go:257-304 | the stream determines the lengths |
| `Shaping.LearnedBounds` | tls.go:270-304 | learned lengths are at most 8192, the second is 6, and coalescing happens exactly when the third exceeds 512 |
| `Shaping.ChunkingIrrelevant` | tls.go:227-307 | two cuts of the same stream that both lead to a handshake learn the same lengths; only whether the seventh record had begun to arrive can differ |
| `Targets.HeaderInBytes` | tls.go:263-290 | the header that fits a stage has type 22, 20 or 23, version 03 03 and a length of at most 8192 with the header, and the first body byte that ServerHello and change_cipher_spec begin with |
| `Targets.EveryStream` | tls.go:227-307 | for every stream: the handshake starts if and only if the bytes are an accepted ServerHello, change_cipher_spec and four encrypted records with nothing or the beginning of a seventh behind them, or the third is longer than 512 bytes; the target is given up if and only if records in order are followed by a wrong one or by a refused ServerHello; and in every other case it waits |
| `Targets.LearnedStarts` | tls.go:270-304 | the lengths learned are those that the bytes say, and the bytes say one thing only |
| `Targets.Learn` | tls.go:227-307 | the whole loop over any reads: no earlier read would have started or given up, and what the last one did, with the bytes that may pile up told from the stream |
| `Targets.TargetStarts` | tls.go:227-307 | any cut of the bytes of a TLS 1.3 target starts the handshake, with exactly the lengths of its records, if no read lets more than 8192 bytes pile up on the way, and otherwise gives the target up |
| `Shaping.ShapedRecord` | conn.go:528-567 | a shaped message goes out in a record of exactly the learned length if it fits, and otherwise nothing goes out |
| `Shaping.ShapedFlow` | conn.go:1014-1076 | fragmenting does not split a shaped message: it is one record of the learned length or none |
| `Shaping.SendShaped` | conn.go:1090-1115 | a message on a shaped connection is held back, sent in a record of its learned length, or refused, and which of these |
| `Shaping.SendServerCertificate` | handshake_server_tls13.go:899-964 | certificate and signature go out in records of the fourth and fifth learned lengths; a certificate request, which has no learned length, is refused unless coalesced |
| `Shaping.SendServerFinished` | handshake_server_tls13.go:966-1015 | Finished releases a coalesced flight or takes the sixth length, and the application keys start at number 0 |
| `Shaping.SendFiller` | handshake_server_tls13.go:145-166 | a filler of the seventh learned length is sent exactly when that length is not zero |
| `Shaping.SendFlight` | handshake_server_tls13.go:145-166 | the server's encrypted flight mirrors the target: after any accepted target stream the flight goes out exactly when every message fits, in records of exactly the learned lengths, one per message or one for all, plus the filler |
| `Shaping.FlightFitsInBytes` | handshake_server_tls13.go:145-166 | the flight fits when no message with header, type byte and overhead is longer than the record it imitates, or all together no longer than the third |
| `Readers.DroppedKeepsCount` | conn.go:829-838 | a dropped record changes nothing but the half connection; it never resets the retry count |
| `Readers.OneThingHappens` | conn.go:632-646 | each call does exactly one of growing hand, switching the cipher (only when expected), setting input (only after the handshake), or failing; a success consumes a non-empty front of the input |
| `Readers.OnlyOneThing` | conn.go:632-646 | the three successes exclude each other |
| `Readers.FailureIsPermanent` | conn.go:646-650 | after an error every later call gives the same error and changes nothing |
| `Readers.PanicsAtTheEndOfNumbers` | conn.go:646-838 | the only panic is that of an exhausted sequence number |
| `Readers.Reader.ReadFromUntil` | conn.go:843-877 | after reading at least n bytes the buffer and the network together hold the same stream, however it arrives in pieces |
| `Readers.Reader.FetchRecord` | conn.go:655-722 | the next whole record is taken off the stream, or the header check or the end of the stream stops it |
| `Readers.Reader.TakeRecord` | conn.go:722-827 | one record is opened and judged as the specification says, with the state updated in place; what becomes of each type of record is told by the members of Arrivals |
| `Readers.Reader.ReadRecordOrCCS` | conn.go:646-838 | with its recursion through retryReadRecord it terminates by 17 - retryCount and agrees with the specification for every stream and every arrival, which Arrivals tells record by record |
| `Arrivals.ArrivesOrFails` | conn.go:646-731 | unless a record arrives and opens, the call fails, and why: an earlier error, input left over, the end of the stream between records or within one, a header of the wrong version or length, or the alert that decrypt gave |
| `Arrivals.AlertArrives` | conn.go:750-780 | close_notify is the end of the stream; user_canceled in TLS 1.3, and warnings before it, are dropped; every other alert is the peer's error, and one of a wrong length or level an unexpected message |
| `Arrivals.DataArrives` | conn.go:805-817 | application data becomes available once the handshake is complete and there are keys, empty records are dropped, and otherwise it is unexpected |
| `Arrivals.HandshakeArrives` | conn.go:819-823 | handshake data joins what has been gathered and resets the retry count; an empty record, or one while a cipher change is expected, is unexpected |
| `Arrivals.ChangeCipherSpecArrives` | conn.go:782-803 | change_cipher_spec is dropped during a TLS 1.3 handshake, takes the prepared keys into use when expected before that, and is an error of three kinds otherwise |
| `Arrivals.OthersArrive` | conn.go:746-748 | a record of any other type is unexpected |
| `Arrivals.SentArrives` | conn.go:646-731 | what a writer in step sends arrives with the type and content it was sent with, at any time in a connection, and both sides stay in step |
| `Arrivals.VersionWritten` | conn.go:1051-1062 | the header of a written record names version 1.0 before one is agreed, 1.2 under TLS 1.3, and otherwise the version agreed |
| `Arrivals.CloseIsRead` | conn.go:757-759 | a close_notify that the peer sends fails the call with the end of the stream, and nothing behind it is ever read |
| `Arrivals.WarningIsRead` | conn.go:760-775 | an alert to be dropped leaves what is read as it would be without it, up to the sixteenth in a row; the next one ends the stream |
| `Arrivals.ErrorIsRead` | conn.go:760-780 | every other alert ends the stream with the peer's code, or as an unexpected message if its level is unknown |
| `Arrivals.WarningsAreRead` | conn.go:760-838 | any run of alerts to be dropped changes nothing of what is read as long as the retry count stays within sixteen, and ends the stream otherwise |
| `Arrivals.ClosedStream` | conn.go:646-838 | a stream that its writer closes is read in full, and nothing that follows the close is |
| `Streams.OneRecordRead` | conn.go:646-838 | one record of application data makes its payload available and leaves both sides in step |
| `Streams.ChunksReadBack` | conn.go:1042-1076 | pieces sent one after the other are read back one after the other, before whatever follows |
| `Streams.StreamIntegrity` | conn.go:1268-1322 | for any sequence of writes that succeeds, reading all records back delivers the bytes written, all of them and in order |
| `Streams.Write` | conn.go:1268-1322 | exactly the first n bytes of b have gone out, all of them on success; under a TLS 1.0 block cipher the first byte goes out in a record by itself, and otherwise nothing is split off |
| `Streams.Read` | conn.go:1443-1484 | what Read hands over followed by what remains is the stream that was there; nothing is skipped, repeated or given beyond the buffer |
| `Streams.RemainingAfter` | conn.go:646-838 | reading one more record does not change the application data still to come, unless it was a handshake message |
| `Hpke.AddOneValue` | hpke/hpye.go:337-344 | the two-word increment with carry is +1 on the 128-bit value, wrapping only at 2^128 |
| `Hpke.LimitIsLast` | hpke/hpye.go:288-295 | the guard as written, on the sum of two bit lengths, first holds at exactly 2^94 + 2^63 |
| `Hpke.BytesOfValue` | hpke/hpye.go:350-354 | the 16 bytes are the big-endian form of the value |
| `Hpke.NonceNumber` | hpke/hpye.go:280-286 | up to the limit, the nonce of message k is the base nonce xored with the big-endian number k in twelve bytes: dropping the top four loses nothing |
| `Hpke.NoncesDistinct` | hpke/hpye.go:280-286 | up to the limit, two messages share a nonce only if they are the same message |
| `Hpke.Context.NextNonce` | hpke/hpye.go:280-286 | the nonce is the base nonce xored with the low 12 bytes of the sequence number |
| `Hpke.Context.IncrementNonce` | hpke/hpye.go:288-295 | counts one message, or panics at the limit |
| `Hpke.Context.Seal` | hpke/hpye.go:297-301 | seals under the nonce of the current number and counts the message |
| `Hpke.Context.Open` | hpke/hpye.go:303-310 | counts the message only if it opens |
| `Hpke.Lockstep` | hpke/hpye.go:288-310 | however many deliveries fail in between, the recipient opens the sender's messages in order and its number counts exactly those, up to the limit, beyond which it panics |
| `TicketKeys.SurvivorsArePrefix` | common.go:1068-1079 | the keys kept are the newest ones, cut off at seven days |
| `TicketKeys.RotationKeeps` | common.go:1036-1090 | a call keeps the keys newest first and at least 24 hours apart, at most seven, with a head under 24 hours old at the check |
| `TicketKeys.RunKeeps` | common.go:1036-1090 | the same after every call of every run with a monotone clock |
| `TicketKeys.HeadKeptSixDays` | common.go:900-908 | the head key of any call is among the keys of every later call that ends within six days |
| `TicketKeys.OpensSealed` | ticket.go:329-403 | a ticket opens under a key list that still holds its key, when no other key verifies its MAC |
| `TicketKeys.TicketsLastSixDays` | ticket.go:320-403 | in every run a ticket stays decryptable, to the same state, for six days |
| `TicketKeys.Config.Replace` | common.go:1058-1083 | a new key is put in front and the expired ones are dropped |
| `TicketKeys.Config.TicketKeys` | common.go:1036-1090 | the double-checked rotation under the lock leaves the specified list, and returns it |
| `TicketKeys.EncryptTicket` | ticket.go:329-359 | IV, encrypted state and MAC over both, under the first key; without a key there is no ticket |
| `TicketKeys.DecryptTicket` | ticket.go:374-403 | gives x exactly when the ticket has at least 48 bytes, some key is the first whose MAC of the front equals the last 32 bytes, and x is the middle under that key; nothing exactly when it is too short or no key matches |
| `Quic.StepKeeps` | quic.go:204-274 | every step of either thread keeps the invariant that relates parked positions, queue, buffers and history |
| `Quic.RunKeeps` | quic.go:204-274 | the invariant holds in every reachable state |
| `Quic.MutualExclusion` | quic.go:346-355 | in every reachable state at most one of the application thread and the handshake goroutine runs; the other is parked, not started, or done with the shared state |
| `Quic.InputDelivered` | quic.go:258-274 | every byte accepted by HandleData enters hand exactly once and in order, by the time the call returns |
| `Quic.EventsDelivered` | quic.go:221-242 | per encryption level, what NextEvent has delivered followed by what is queued is what was written: in order, nothing lost or repeated |
| `Quic.NeverStuck` | quic.go:204-274 | an operation of the application waits for ever if and only if no handshake goroutine was ever launched; otherwise some step is always possible |
| `Quic.CallsForNobody` | quic.go:204-274 | the calls that wait for ever, as told beforehand: while no goroutine was launched, HandleData at the current level, and SetTransportParameters after Start was called (and refused) |
| `Quic.CallsWithoutGoroutine` | quic.go:204-217 | such calls do occur: HandleData before Start, and both after a Start refused for its MinVersion |
| `Quic.DrainedBeforeResuming` | quic.go:418-430 | the handshake goes on after a resumption event only when everything produced before it has been delivered |
| `Quic.PutDataKeeps` | quic.go:403-416 | written data joins the end of what is to be delivered, whether it extends the last event or starts one |
| `Quic.TakeEventKeeps` | quic.go:221-242 | NextEvent hands over the front of what is to be delivered and forgets it |
| `Quic.HistoryOfRun` | quic.go:204-274 | what was given and what was produced in a run is what its calls and steps say, in order: the data of HandleData at the level of the time, and every event and piece of data put into the queue |
| `Quic.NextHandsOver` | quic.go:221-242 | NextEvent hands over the event at the front of the queue, and no other step takes anything out |
| `Quic.NothingUntilDrained` | quic.go:418-430 | after a resumption event the goroutine reads nothing, produces nothing and sets no level until the queue has been drained |
| `Cryptobyte.U64RoundTrip` | handshake_messages.go:35-50 | a 64-bit number written big-endian is read back, whatever follows |
| `Cryptobyte.ListRoundTrip` | handshake_messages.go:24-70 | elements that are read back one by one are read back as a list |
| `Cryptobyte.ListInverse` | handshake_messages.go:24-70 | a list that was read in full is written back to the same bytes |
| `Cryptobyte.WriteAll` | handshake_messages.go:194-200 | the writing loop puts down the elements in order, or fails if any of them fails |
| `Cryptobyte.ReadAll` | handshake_messages.go:513-525 | the reading loop takes up elements until nothing is left, and fails at the first that cannot be read |
| `ClientHellos.MarshalMessage` | handshake_messages.go:104-380 | the extensions the message has are appended in the fixed order behind its head, and any part too long for its length prefix fails the whole |
| `ClientHellos.UnmarshalExtensions` | handshake_messages.go:459-678 | the loop with its set of types seen refuses duplicates and bad or misplaced extensions and assigns the fields of the others |
| `ClientHellos.UnmarshalMessage` | handshake_messages.go:418-680 | the head is read field by field; a hello without extensions is accepted, trailing bytes are not |
| `ClientHellos.ContinueStep` | handshake_messages.go:466-484 | each pass of the loop either settles the outcome or leaves it to what remains |
| `HelloRoundTrips.UnmarshalMarshal` | handshake_messages.go:104-680 | every well-formed ClientHello, over all combinations of the nineteen extensions, is restored from its encoding |
| `HelloRoundTrips.AcceptedIsWellFormed` | handshake_messages.go:418-680 | whatever unmarshal accepts is well-formed |
| `HelloRoundTrips.RoundTripIff` | handshake_messages.go:104-680 | an encoded hello is restored if and only if it is well-formed |
| `HelloWire.UnmarshalIff` | handshake_messages.go:418-680 | the byte strings that are accepted, and what they give: four bytes, the head, and extensions of pairwise different types behind their length, each known one of exactly the bytes that say what the message then holds, pre_shared_key last, unknown ones passed over, nothing behind |
| `HelloWire.EveryKindTaken` | handshake_messages.go:488-676 | what is accepted of an extension of each of the nineteen kinds says in its bytes what its fields then hold, and changes no other field |
| `HelloWire.EveryKindBrought` | handshake_messages.go:488-676 | an extension of any kind that says in its bytes what a message holds is accepted, and brings just that |
| `HelloWire.MarshalWrites` | handshake_messages.go:104-380 | an encoded hello is type 1, its length in three bytes, and the bytes that say what it holds, with its extensions in the order 0, 11, 35, ff01, 23, 18, 42, 57, fe0d, 5, 10, 13, 50, 16, 43, 44, 51, 45, 41 |
| `HelloWire.MarshalIff` | handshake_messages.go:104-380 | a hello is encoded if and only if its random has 32 bytes and every string, list, extension and the extensions together are short enough for their lengths |
| `HelloBinders.AcceptedEndsInBinders` | handshake_messages.go:382-402 | an accepted hello with pre_shared_key is what marshalWithoutBinders gives, followed by exactly the encoded binders |
| `HelloBinders.BindersDoNotMatter` | handshake_messages.go:382-416 | a hello with other binders of the same lengths is encoded whenever it was before, and the part before the binders, with all the lengths in it, stays the same byte for byte |
| `HelloBinders.AcceptedWithOtherBinders` | handshake_messages.go:382-680 | an accepted hello with other binders of the same lengths behind the same front is accepted as the same hello with those binders |
| `HelloBinders.MarshalWithoutBinders` | handshake_messages.go:382-402 | the summed lengths cut off exactly the binders list, of the original bytes or else of the encoding; when encoding fails and when the slice panics, which it does not for an encoded hello with pre_shared_key |
| `HelloBinders.UpdateBinders` | handshake_messages.go:404-416 | new binders are taken exactly when their number and each length are unchanged |
| `Ech.ExpandsInOrder` | ech.go:343-372 | an outer-extensions list expands to outer extensions of those types, in outer order, without going back |
| `Ech.ExpandsToOwn` | ech.go:343-372 | the list that the inner hello writes expands, against an agreeing outer hello, to the inner hello's own extensions |
| `Ech.ExpandOuter` | ech.go:343-372 | the scan with the monotone index ends and gives that expansion, or fails at a type not found or at the ECH extension itself |
| `Ech.RebuildLoop` | ech.go:335-382 | the loop over the encoded extensions copies them or replaces them by what they refer to |
| `Ech.ReconstructsInner` | ech.go:221-390 | when outer and inner agree on the nine compressible extensions, the reconstruction is byte for byte the inner hello with the outer session ID, less the four extensions an encoded inner hello leaves out, for any padding |
| `Ech.ReconstructsTls13` | handshake_client.go:214-221 | an inner hello that has none of these four, as the client makes it, is restored in full |
| `Ech.DecodesInner` | ech.go:286-420 | decoding gives that hello if and only if it is well-formed, fits, is marked as inner and offers TLS 1.3 and nothing older; a well-formed one that is not all of this is refused |
| `Ech.DecodesTls13` | ech.go:286-420 | for a well-formed inner hello for TLS 1.3 that is the hello itself but for its session ID |
| `EchWire.ExpandIff` | ech.go:343-372 | a list of types is expanded if and only if, going through the outer extensions without going back, each type is found and none is fe0d, and then to the first extension found of each |
| `EchWire.ReconstructIff` | ech.go:286-390 | what is reconstructed, for every input: the encoded hello has an empty session ID and only zeros behind its extensions, the outer one can be taken apart, and each fd00 extension is replaced by what its list picks |
| `EchWire.DecodeInnerIff` | ech.go:286-421 | exactly the inner hellos that are decoded, and to what: those that describe a message unmarshal accepts, marked as inner, that offers TLS 1.3 and nothing below it |
| `EchWire.EncodeInnerWrites` | ech.go:221-236 | the encoding has no session ID, writes five kinds and pre_shared_key in full, and refers to the outer hello for the nine between, in one fd00 extension |
| `EchWire.GreaseIsAbove` | ech.go:396-418 | skipping GREASE versions never matters, because all of them lie above TLS 1.3 |
| `EchWire.PaddingMisses` | ech.go:228-236 | the padding makes the encoding and the allowance for the name together a multiple of 32 bytes; the encoding itself is one only if the allowance is |
| `Sessions.CertificateRoundTrip` | handshake_messages.go:1468-1581 | a certificate chain with its OCSP staple and SCTs is read back, whatever follows it |
| `Sessions.AcceptedCertificate` | handshake_messages.go:1523-1581 | an accepted certificate list has staples only beside a leaf, and never empty ones |
| `Sessions.UnmarshalCertificate` | handshake_messages.go:1523-1581 | the loop that fills in the staples while collecting certificates agrees with reading the list and then looking at its leaf |
| `Sessions.MarshalEntries` | handshake_messages.go:1468-1505 | staples are written with the first certificate only |
| `Sessions.LeafPutBack` | ticket.go:252-279 | verified chains, written without their leaf, come back unchanged exactly when each begins with the session's leaf and its certificates parse |
| `Sessions.ChainsRoundTrip` | ticket.go:145-160 | the list of shortened chains is read back, and an empty chain fails the encoding |
| `Sessions.RoundTripIff` | ticket.go:112-297 | for every version, role, early-data flag and chain list, ParseSessionState(s.Bytes() + anything) is s if and only if the session is well-formed |
| `Sessions.ReadVerifiedChains` | ticket.go:252-279 | the nested loops parse each certificate as they go and need a leaf as soon as there is a chain |
| `Sessions.ParseSessionState` | ticket.go:186-297 | the cursor-driven parser accepts exactly the specified encodings and assigns every field |
| `Sessions.MarshalSession` | ticket.go:112-177 | the builder writes all fields in order, or fails where one does not fit |
| `SessionWire.ParseIff` | ticket.go:186-297 | the byte strings that are accepted, and what they give: every field in its place and width, staples of the leaf, chains without their leaves, all certificates parsed, defaults for the fields that version and side do not have, and anything behind |
| `SessionWire.CertificateIff` | handshake_messages.go:1523-1581 | which certificate entries are accepted, and what they say: a later staple replaces an earlier one, timestamps add up, other extensions are passed over |
| `SessionWire.BytesWrites` | ticket.go:112-177 | what is encoded of a well-formed session holds that session |
| `SessionWire.BytesIff` | ticket.go:112-177 | a session is encoded if and only if no verified chain is empty and every string and list is short enough for its length |

## Left out

- Hash functions, HMAC, HKDF, ECDH, ML-KEM, RSA, Ed25519, ChaCha20-Poly1305 and X.509: parameters, or not modelled.
- Constant-time behaviour and the checks for overlapping buffers: they concern timing and memory layout, not values.
- Reuse of the record's buffer for the opened plaintext, and of pooled output buffers: opening and sealing are modelled on values.
- Network errors other than the end of the stream, deadlines, temporary errors and closing: the stream is a byte sequence that ends.
- Sending alerts: that an alert is due is part of a reader's error, the alert record it would write is not modelled.
- Post-handshake messages, key updates on a shaped connection and real session tickets under shaping: the shaping results are about the first flight.
- The checks on the target's ServerHello: `Shaping` takes them as an arbitrary predicate on the first record.
- Key schedule, transcript and contents of handshake messages: the flight's messages are arbitrary byte strings with the right first byte.
- Context cancellation in QUIC, and `Close`: the results are about runs that are not cancelled.
- The legacy single ticket key and per-client configurations: explicitly set keys are returned as they are, and only automatic rotation has a history.
- Writers.Writer.MaxPayloadSizeForWrite: rounds down to whole blocks by remainder, which is what the masking of the original does for block sizes that are powers of two.
- `lruSessionCache`, `cache.go`, key agreement, TLS 1.0 to 1.2 handshakes, certificate verification and suite preferences.
- GCMWithCounterNonce and GCMForSSH in `gcm/gcm_nonces.go`: further guards of the same kind as those for TLS.
- Ech.DecodesInner: holds, as the other results on encoded inner hellos do, for any number of zeros of padding; how many there are is `EchWire.PaddingLength`.
- The recorded `original` and `extensions` of a parsed ClientHello: `Unmarshal` returns the types of the extensions beside the message, and the original is its argument.
- Padding.ExtractPadding: payloads of 2^31 bytes and more are outside the statement, since the arithmetic of the scan is on 32 bits there.
- HalfConns.HalfConn.Decrypt: records of up to 2^31-1 bytes, which is far beyond what the reader lets through, for the same reason.
- Ech.ReconstructsInner: requires that the outer hello was itself encoded from a well-formed message, and that both hellos carry encrypted_client_hello, as they do wherever this is used.
- Streams.StreamIntegrity: is about application data between two key changes; key changes are part of `Records.RunRoundTrip`.
- Targets.EveryStream: assumes that the check of the ServerHello refuses the empty message, as `unmarshal` does.
- AesVectors.Aes256Expansion: for 24 and 32-byte keys the published example is followed through the first words of the key expansion only; for 16-byte keys through the whole cipher.
- Readers.ReadRecord: the peer's bytes are those still to come, so that a peer that stops sending is a stream that ends.
