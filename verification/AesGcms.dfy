/** AES-GCM as a whole: the table-driven cipher of aes/ under the mode of gcm/ and the record layer of conn.go. */
module AesGcms {
  import opened Aes
  import opened BigEndian
  import opened Fips197
  import opened Gcm
  import opened Ghash
  import opened Nonces
  import opened Records
  import opened Wrappers

  /** AES under one key, as the block cipher that GCM takes. */
  function AesCipher(key: aesKey): blockCipher {
    (b: octets16) => StateBytes(Fips197.Cipher(key, StateOf(b)))
  }

  /** EncryptBlockInternal: what GCM calls is that block cipher, computed with the tables. */
  method EncryptBlockInternal(ghost key: aesKey, c: BlockExpanded, dst: array<octet>, src: array<octet>)
    requires c.Expanded(key) && dst.Length >= 16 && src.Length >= 16
    modifies dst
    ensures dst[..] == AesCipher(key)(old(src[..16])) + old(dst[16..])
  {
    hide BlockExpanded.Expanded, Fips197.Cipher, StateOf, StateBytes;
    c.EncryptBlockGeneric(key, dst, src);
  }

  /** Under one key no two blocks are encrypted to the same block, since encryption can be undone. */
  lemma AesInjective(key: aesKey, a: octets16, b: octets16)
    ensures AesCipher(key)(a) == AesCipher(key)(b) <==> a == b
  {
    hide Fips197.Cipher, InvCipher, StateOf, StateBytes;
    DecryptUndoesEncrypt(key, a);
    DecryptUndoesEncrypt(key, b);
  }

  /**
   * So, over the whole life of a TLS 1.3 AES-GCM key, all the tag masks and key stream blocks differ from each other,
   * and from the hash key.
   */
  lemma KeyStreamLife13(key: aesKey, mask: octets12, lengths: seq<nat>, k: nat, i: nat, k': nat, i': nat)
    requires |lengths| <= MAX_UINT64 && forall j :: 0 <= j < |lengths| ==> lengths[j] <= Gcm.MAX_PLAINTEXT
    requires k < |lengths| && i <= Blocks(lengths[k]) && k' < |lengths| && i' <= Blocks(lengths[k'])
    ensures After13(mask, k).Some? && After13(mask, k').Some?
    ensures var E := AesCipher(key);
            && (E(InputBlock(NonceOfRecord13(mask, k), i)) == E(InputBlock(NonceOfRecord13(mask, k'), i')) <==> (k, i) == (k', i'))
            && E(InputBlock(NonceOfRecord13(mask, k), i)) != HashKey(E)
  {
    hide AesCipher, InputBlock, NonceOfRecord13, After13;
    KeyLife13(mask, lengths, k, i, k', i');
    AesInjective(key, InputBlock(NonceOfRecord13(mask, k), i), InputBlock(NonceOfRecord13(mask, k'), i'));
    AesInjective(key, InputBlock(NonceOfRecord13(mask, k), i), Nulls(16));
  }

  /** The same for a TLS 1.2 key. */
  lemma KeyStreamLife12(key: aesKey, prefix: seq<octet>, lengths: seq<nat>, k: nat, i: nat, k': nat, i': nat)
    requires |prefix| == 4 && |lengths| <= MAX_UINT64 && forall j :: 0 <= j < |lengths| ==> lengths[j] <= Gcm.MAX_PLAINTEXT
    requires k < |lengths| && i <= Blocks(lengths[k]) && k' < |lengths| && i' <= Blocks(lengths[k'])
    ensures After12(prefix, k).Some? && After12(prefix, k').Some?
    ensures var E := AesCipher(key);
            && (E(InputBlock(NonceOfRecord12(prefix, k), i)) == E(InputBlock(NonceOfRecord12(prefix, k'), i'))
                <==> (k, i) == (k', i'))
            && E(InputBlock(NonceOfRecord12(prefix, k), i)) != HashKey(E)
  {
    hide AesCipher, InputBlock, NonceOfRecord12, After12;
    KeyLife12(prefix, lengths, k, i, k', i');
    AesInjective(key, InputBlock(NonceOfRecord12(prefix, k), i), InputBlock(NonceOfRecord12(prefix, k'), i'));
    AesInjective(key, InputBlock(NonceOfRecord12(prefix, k), i), Nulls(16));
  }

  /** AES-GCM through its interface, for all the sizes it is made with: what Seal returns, and only that, opens to p. */
  lemma AesGcmRoundTrip(key: aesKey, nonceSize: nat, tagSize: nat, dst: seq<octet>, nonce: seq<octet>, sealed: seq<octet>,
                        data: seq<octet>, p: seq<octet>)
    requires NewGCM(AesCipher(key), nonceSize, tagSize).Some? && |nonce| == nonceSize && |p| <= Gcm.MAX_PLAINTEXT
    ensures var g := NewGCM(AesCipher(key), nonceSize, tagSize).value; var s := SealOutcome(g, [], nonce, p, data);
            && s.Returned? && OpenOutcome(g, dst, nonce, s.bytes, data) == Returned(dst + p)
            && (OpenOutcome(g, dst, nonce, sealed, data) == Returned(dst + p) ==> sealed == s.bytes)
  {
    hide AesCipher, AuthenticatedEncryption, AuthenticatedDecryption;
    var g := NewGCM(AesCipher(key), nonceSize, tagSize).value;
    OpenIffSealReturned(g, dst, nonce, SealOutcome(g, [], nonce, p, data).bytes, data, p);
    OpenIffSealReturned(g, dst, nonce, sealed, data, p);
  }

  /** A direction of a TLS 1.3 connection under a new AES-GCM traffic key, with the lengths it has to imitate. */
  ghost function UnderAes13(key: aesKey, mask: octets12, shape: seq<nat>): Half {
    Half(VERSION_TLS13, Aead(MaskedGcm(AesCipher(key), mask)), NoMac, Nulls(8), shape)
  }

  /** With AES-GCM nothing needs to be assumed of the cipher: every run under such a key is read back in full. */
  lemma AesRunRoundTrip(key: aesKey, mask: octets12, shape: seq<nat>, events: seq<Event>)
    requires |events| <= MAX_UINT64 && |shape| == 7 && forall i :: 0 <= i < 7 ==> shape[i] <= EMPTY_SIZE
    ensures UnderAes13(key, mask, shape).Lawful()
    ensures var w := UnderAes13(key, mask, shape);
            WriteRun(w, events).Some? ==> ReadRun(w, WriteRun(w, events).value) == Some(ContentsRead(w, events))
  {
    hide AesCipher, MaskedGcm, LawfulAead, WriteRun, ReadRun, ContentsRead, Number;
    GcmIsLawful(AesCipher(key), mask, Nulls(4));
    MaskedGcmSizes(AesCipher(key), mask);
    NumberOfNulls(8);
    RunRoundTrip(UnderAes13(key, mask, shape), UnderAes13(key, mask, shape), events);
  }

  lemma MaskedGcmSizes(E: blockCipher, mask: octets12)
    ensures MaskedGcm(E, mask).explicitNonceLen == 0 && MaskedGcm(E, mask).overhead == 16
  {
  }
}
