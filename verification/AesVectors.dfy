/** Example vectors of FIPS 197, appendix C: AES-128 from end to end, and the key expansions of the two other sizes. */
module AesVectors {
  import opened AesTables
  import opened BigEndian
  import opened Fips197

  /** The keys of the appendix count up from zero. */
  predicate Counting(key: aesKey) {
    forall i :: 0 <= i < |key| ==> key[i] == i as octet
  }

  // ---------- AES-128, appendix C.1 ----------

  const PLAIN := State(Column(0x00, 0x11, 0x22, 0x33), Column(0x44, 0x55, 0x66, 0x77),
    Column(0x88, 0x99, 0xaa, 0xbb), Column(0xcc, 0xdd, 0xee, 0xff))

  const CIPHERED := State(Column(0x69, 0xc4, 0xe0, 0xd8), Column(0x6a, 0x7b, 0x04, 0x30),
    Column(0xd8, 0xcd, 0xb7, 0x80), Column(0x70, 0xb4, 0xc5, 0x5a))

  // The key of each round, and the state each round begins with.

  const K0 := State(Column(0x00, 0x01, 0x02, 0x03), Column(0x04, 0x05, 0x06, 0x07),
    Column(0x08, 0x09, 0x0a, 0x0b), Column(0x0c, 0x0d, 0x0e, 0x0f))
  const K1 := State(Column(0xd6, 0xaa, 0x74, 0xfd), Column(0xd2, 0xaf, 0x72, 0xfa),
    Column(0xda, 0xa6, 0x78, 0xf1), Column(0xd6, 0xab, 0x76, 0xfe))
  const K2 := State(Column(0xb6, 0x92, 0xcf, 0x0b), Column(0x64, 0x3d, 0xbd, 0xf1),
    Column(0xbe, 0x9b, 0xc5, 0x00), Column(0x68, 0x30, 0xb3, 0xfe))
  const K3 := State(Column(0xb6, 0xff, 0x74, 0x4e), Column(0xd2, 0xc2, 0xc9, 0xbf),
    Column(0x6c, 0x59, 0x0c, 0xbf), Column(0x04, 0x69, 0xbf, 0x41))
  const K4 := State(Column(0x47, 0xf7, 0xf7, 0xbc), Column(0x95, 0x35, 0x3e, 0x03),
    Column(0xf9, 0x6c, 0x32, 0xbc), Column(0xfd, 0x05, 0x8d, 0xfd))
  const K5 := State(Column(0x3c, 0xaa, 0xa3, 0xe8), Column(0xa9, 0x9f, 0x9d, 0xeb),
    Column(0x50, 0xf3, 0xaf, 0x57), Column(0xad, 0xf6, 0x22, 0xaa))
  const K6 := State(Column(0x5e, 0x39, 0x0f, 0x7d), Column(0xf7, 0xa6, 0x92, 0x96),
    Column(0xa7, 0x55, 0x3d, 0xc1), Column(0x0a, 0xa3, 0x1f, 0x6b))
  const K7 := State(Column(0x14, 0xf9, 0x70, 0x1a), Column(0xe3, 0x5f, 0xe2, 0x8c),
    Column(0x44, 0x0a, 0xdf, 0x4d), Column(0x4e, 0xa9, 0xc0, 0x26))
  const K8 := State(Column(0x47, 0x43, 0x87, 0x35), Column(0xa4, 0x1c, 0x65, 0xb9),
    Column(0xe0, 0x16, 0xba, 0xf4), Column(0xae, 0xbf, 0x7a, 0xd2))
  const K9 := State(Column(0x54, 0x99, 0x32, 0xd1), Column(0xf0, 0x85, 0x57, 0x68),
    Column(0x10, 0x93, 0xed, 0x9c), Column(0xbe, 0x2c, 0x97, 0x4e))
  const K10 := State(Column(0x13, 0x11, 0x1d, 0x7f), Column(0xe3, 0x94, 0x4a, 0x17),
    Column(0xf3, 0x07, 0xa7, 0x8b), Column(0x4d, 0x2b, 0x30, 0xc5))

  const S0 := State(Column(0x00, 0x10, 0x20, 0x30), Column(0x40, 0x50, 0x60, 0x70),
    Column(0x80, 0x90, 0xa0, 0xb0), Column(0xc0, 0xd0, 0xe0, 0xf0))
  const S1 := State(Column(0x89, 0xd8, 0x10, 0xe8), Column(0x85, 0x5a, 0xce, 0x68),
    Column(0x2d, 0x18, 0x43, 0xd8), Column(0xcb, 0x12, 0x8f, 0xe4))
  const S2 := State(Column(0x49, 0x15, 0x59, 0x8f), Column(0x55, 0xe5, 0xd7, 0xa0),
    Column(0xda, 0xca, 0x94, 0xfa), Column(0x1f, 0x0a, 0x63, 0xf7))
  const S3 := State(Column(0xfa, 0x63, 0x6a, 0x28), Column(0x25, 0xb3, 0x39, 0xc9),
    Column(0x40, 0x66, 0x8a, 0x31), Column(0x57, 0x24, 0x4d, 0x17))
  const S4 := State(Column(0x24, 0x72, 0x40, 0x23), Column(0x69, 0x66, 0xb3, 0xfa),
    Column(0x6e, 0xd2, 0x75, 0x32), Column(0x88, 0x42, 0x5b, 0x6c))
  const S5 := State(Column(0xc8, 0x16, 0x77, 0xbc), Column(0x9b, 0x7a, 0xc9, 0x3b),
    Column(0x25, 0x02, 0x79, 0x92), Column(0xb0, 0x26, 0x19, 0x96))
  const S6 := State(Column(0xc6, 0x2f, 0xe1, 0x09), Column(0xf7, 0x5e, 0xed, 0xc3),
    Column(0xcc, 0x79, 0x39, 0x5d), Column(0x84, 0xf9, 0xcf, 0x5d))
  const S7 := State(Column(0xd1, 0x87, 0x6c, 0x0f), Column(0x79, 0xc4, 0x30, 0x0a),
    Column(0xb4, 0x55, 0x94, 0xad), Column(0xd6, 0x6f, 0xf4, 0x1f))
  const S8 := State(Column(0xfd, 0xe3, 0xba, 0xd2), Column(0x05, 0xe5, 0xd0, 0xd7),
    Column(0x35, 0x47, 0x96, 0x4e), Column(0xf1, 0xfe, 0x37, 0xf1))
  const S9 := State(Column(0xbd, 0x6e, 0x7c, 0x3d), Column(0xf2, 0xb5, 0x77, 0x9e),
    Column(0x0b, 0x61, 0x21, 0x6e), Column(0x8b, 0x10, 0xb6, 0x89))

  lemma NextWord(key: aesKey, i: nat, a: Column, b: Column, c: Column)
    requires i >= |key| / 4 && KeyWord(key, i - |key| / 4) == a && KeyWord(key, i - 1) == b
    requires c == XorColumn(a, KeyCore(|key| / 4, i, b))
    ensures KeyWord(key, i) == c
  {
    hide XorColumn, KeyCore;
  }

  function SubRot(c: Column, n: nat): Column {
    XorColumn(SubColumn(RotColumn(c)), Column(XPower(n), 0, 0, 0))
  }

  /** One round key from the one before. */
  lemma NextKey(key: aesKey, r: nat, k: State, next: State)
    requires |key| == 16 && r > 0 && RoundKey(key, r - 1) == k
    requires next.c0 == XorColumn(k.c0, SubRot(k.c3, r - 1)) && next.c1 == XorColumn(k.c1, next.c0)
    requires next.c2 == XorColumn(k.c2, next.c1) && next.c3 == XorColumn(k.c3, next.c2)
    ensures RoundKey(key, r) == next
  {
    hide XorColumn, SubColumn, RotColumn, XPower, KeyWord;
    var i := 4 * r;
    assert i % 4 == 0 && (i + 1) % 4 == 1 && (i + 2) % 4 == 2 && (i + 3) % 4 == 3 && i / 4 == r;
    NextWord(key, i, k.c0, k.c3, next.c0);
    NextWord(key, i + 1, k.c1, next.c0, next.c1);
    NextWord(key, i + 2, k.c2, next.c1, next.c2);
    NextWord(key, i + 3, k.c3, next.c2, next.c3);
  }

  lemma FirstKey(key: aesKey)
    requires |key| == 16 && Counting(key)
    ensures RoundKey(key, 0) == K0
  {
  }

  lemma Keys1To5(key: aesKey)
    requires |key| == 16 && Counting(key)
    ensures RoundKey(key, 1) == K1 && RoundKey(key, 2) == K2 && RoundKey(key, 3) == K3
    ensures RoundKey(key, 4) == K4 && RoundKey(key, 5) == K5
  {
    hide RoundKey, Counting;
    FirstKey(key);
    NextKey(key, 1, K0, K1);
    NextKey(key, 2, K1, K2);
    NextKey(key, 3, K2, K3);
    NextKey(key, 4, K3, K4);
    NextKey(key, 5, K4, K5);
  }

  lemma Keys6To10(key: aesKey)
    requires |key| == 16 && Counting(key)
    ensures RoundKey(key, 6) == K6 && RoundKey(key, 7) == K7 && RoundKey(key, 8) == K8
    ensures RoundKey(key, 9) == K9 && RoundKey(key, 10) == K10
  {
    hide RoundKey, Counting;
    Keys1To5(key);
    NextKey(key, 6, K5, K6);
    NextKey(key, 7, K6, K7);
    NextKey(key, 8, K7, K8);
    NextKey(key, 9, K8, K9);
    NextKey(key, 10, K9, K10);
  }

  /** One round with the round key k. */
  function Rounded(s: State, k: State): State {
    AddRoundKey(MixColumns(ShiftSub(s)), k)
  }

  lemma NextRound(key: aesKey, s: State, r: nat)
    requires r > 0
    ensures AfterRounds(key, s, r) == Rounded(AfterRounds(key, s, r - 1), RoundKey(key, r))
  {
    hide AddRoundKey, MixColumns, ShiftSub, RoundKey;
  }

  lemma Round0(key: aesKey)
    requires |key| == 16 && Counting(key)
    ensures AfterRounds(key, PLAIN, 0) == S0
  {
    hide RoundKey, Counting;
    FirstKey(key);
  }

  lemma Substitutions1()
    ensures Sbox0(0x00) == 0x63 && Sbox0(0x10) == 0xca && Sbox0(0x20) == 0xb7 && Sbox0(0x30) == 0x04
    ensures Sbox0(0x40) == 0x09 && Sbox0(0x50) == 0x53 && Sbox0(0x60) == 0xd0 && Sbox0(0x70) == 0x51
    ensures Sbox0(0x80) == 0xcd && Sbox0(0x90) == 0x60 && Sbox0(0xa0) == 0xe0 && Sbox0(0xb0) == 0xe7
    ensures Sbox0(0xc0) == 0xba && Sbox0(0xd0) == 0x70 && Sbox0(0xe0) == 0xe1 && Sbox0(0xf0) == 0x8c
  {
  }

  lemma Round1()
    ensures Rounded(S0, K1) == S1
  {
    hide Sbox0;
    Substitutions1();
  }

  lemma Substitutions2()
    ensures Sbox0(0x89) == 0xa7 && Sbox0(0xd8) == 0x61 && Sbox0(0x10) == 0xca && Sbox0(0xe8) == 0x9b
    ensures Sbox0(0x85) == 0x97 && Sbox0(0x5a) == 0xbe && Sbox0(0xce) == 0x8b && Sbox0(0x68) == 0x45
    ensures Sbox0(0x2d) == 0xd8 && Sbox0(0x18) == 0xad && Sbox0(0x43) == 0x1a && Sbox0(0xd8) == 0x61
    ensures Sbox0(0xcb) == 0x1f && Sbox0(0x12) == 0xc9 && Sbox0(0x8f) == 0x73 && Sbox0(0xe4) == 0x69
  {
  }

  lemma Round2()
    ensures Rounded(S1, K2) == S2
  {
    hide Sbox0;
    Substitutions2();
  }

  lemma Substitutions3()
    ensures Sbox0(0x49) == 0x3b && Sbox0(0x15) == 0x59 && Sbox0(0x59) == 0xcb && Sbox0(0x8f) == 0x73
    ensures Sbox0(0x55) == 0xfc && Sbox0(0xe5) == 0xd9 && Sbox0(0xd7) == 0x0e && Sbox0(0xa0) == 0xe0
    ensures Sbox0(0xda) == 0x57 && Sbox0(0xca) == 0x74 && Sbox0(0x94) == 0x22 && Sbox0(0xfa) == 0x2d
    ensures Sbox0(0x1f) == 0xc0 && Sbox0(0x0a) == 0x67 && Sbox0(0x63) == 0xfb && Sbox0(0xf7) == 0x68
  {
  }

  lemma Round3()
    ensures Rounded(S2, K3) == S3
  {
    hide Sbox0;
    Substitutions3();
  }

  lemma Substitutions4()
    ensures Sbox0(0xfa) == 0x2d && Sbox0(0x63) == 0xfb && Sbox0(0x6a) == 0x02 && Sbox0(0x28) == 0x34
    ensures Sbox0(0x25) == 0x3f && Sbox0(0xb3) == 0x6d && Sbox0(0x39) == 0x12 && Sbox0(0xc9) == 0xdd
    ensures Sbox0(0x40) == 0x09 && Sbox0(0x66) == 0x33 && Sbox0(0x8a) == 0x7e && Sbox0(0x31) == 0xc7
    ensures Sbox0(0x57) == 0x5b && Sbox0(0x24) == 0x36 && Sbox0(0x4d) == 0xe3 && Sbox0(0x17) == 0xf0
  {
  }

  lemma Round4()
    ensures Rounded(S3, K4) == S4
  {
    hide Sbox0;
    Substitutions4();
  }

  lemma Substitutions5()
    ensures Sbox0(0x24) == 0x36 && Sbox0(0x72) == 0x40 && Sbox0(0x40) == 0x09 && Sbox0(0x23) == 0x26
    ensures Sbox0(0x69) == 0xf9 && Sbox0(0x66) == 0x33 && Sbox0(0xb3) == 0x6d && Sbox0(0xfa) == 0x2d
    ensures Sbox0(0x6e) == 0x9f && Sbox0(0xd2) == 0xb5 && Sbox0(0x75) == 0x9d && Sbox0(0x32) == 0x23
    ensures Sbox0(0x88) == 0xc4 && Sbox0(0x42) == 0x2c && Sbox0(0x5b) == 0x39 && Sbox0(0x6c) == 0x50
  {
  }

  lemma Round5()
    ensures Rounded(S4, K5) == S5
  {
    hide Sbox0;
    Substitutions5();
  }

  lemma Substitutions6()
    ensures Sbox0(0xc8) == 0xe8 && Sbox0(0x16) == 0x47 && Sbox0(0x77) == 0xf5 && Sbox0(0xbc) == 0x65
    ensures Sbox0(0x9b) == 0x14 && Sbox0(0x7a) == 0xda && Sbox0(0xc9) == 0xdd && Sbox0(0x3b) == 0xe2
    ensures Sbox0(0x25) == 0x3f && Sbox0(0x02) == 0x77 && Sbox0(0x79) == 0xb6 && Sbox0(0x92) == 0x4f
    ensures Sbox0(0xb0) == 0xe7 && Sbox0(0x26) == 0xf7 && Sbox0(0x19) == 0xd4 && Sbox0(0x96) == 0x90
  {
  }

  lemma Round6()
    ensures Rounded(S5, K6) == S6
  {
    hide Sbox0;
    Substitutions6();
  }

  lemma Substitutions7()
    ensures Sbox0(0xc6) == 0xb4 && Sbox0(0x2f) == 0x15 && Sbox0(0xe1) == 0xf8 && Sbox0(0x09) == 0x01
    ensures Sbox0(0xf7) == 0x68 && Sbox0(0x5e) == 0x58 && Sbox0(0xed) == 0x55 && Sbox0(0xc3) == 0x2e
    ensures Sbox0(0xcc) == 0x4b && Sbox0(0x79) == 0xb6 && Sbox0(0x39) == 0x12 && Sbox0(0x5d) == 0x4c
    ensures Sbox0(0x84) == 0x5f && Sbox0(0xf9) == 0x99 && Sbox0(0xcf) == 0x8a && Sbox0(0x5d) == 0x4c
  {
  }

  lemma Round7()
    ensures Rounded(S6, K7) == S7
  {
    hide Sbox0;
    Substitutions7();
  }

  lemma Substitutions8()
    ensures Sbox0(0xd1) == 0x3e && Sbox0(0x87) == 0x17 && Sbox0(0x6c) == 0x50 && Sbox0(0x0f) == 0x76
    ensures Sbox0(0x79) == 0xb6 && Sbox0(0xc4) == 0x1c && Sbox0(0x30) == 0x04 && Sbox0(0x0a) == 0x67
    ensures Sbox0(0xb4) == 0x8d && Sbox0(0x55) == 0xfc && Sbox0(0x94) == 0x22 && Sbox0(0xad) == 0x95
    ensures Sbox0(0xd6) == 0xf6 && Sbox0(0x6f) == 0xa8 && Sbox0(0xf4) == 0xbf && Sbox0(0x1f) == 0xc0
  {
  }

  lemma Round8()
    ensures Rounded(S7, K8) == S8
  {
    hide Sbox0;
    Substitutions8();
  }

  lemma Substitutions9()
    ensures Sbox0(0xfd) == 0x54 && Sbox0(0xe3) == 0x11 && Sbox0(0xba) == 0xf4 && Sbox0(0xd2) == 0xb5
    ensures Sbox0(0x05) == 0x6b && Sbox0(0xe5) == 0xd9 && Sbox0(0xd0) == 0x70 && Sbox0(0xd7) == 0x0e
    ensures Sbox0(0x35) == 0x96 && Sbox0(0x47) == 0xa0 && Sbox0(0x96) == 0x90 && Sbox0(0x4e) == 0x2f
    ensures Sbox0(0xf1) == 0xa1 && Sbox0(0xfe) == 0xbb && Sbox0(0x37) == 0x9a && Sbox0(0xf1) == 0xa1
  {
  }

  lemma Round9()
    ensures Rounded(S8, K9) == S9
  {
    hide Sbox0;
    Substitutions9();
  }

  lemma Substitutions10()
    ensures Sbox0(0xbd) == 0x7a && Sbox0(0x6e) == 0x9f && Sbox0(0x7c) == 0x10 && Sbox0(0x3d) == 0x27
    ensures Sbox0(0xf2) == 0x89 && Sbox0(0xb5) == 0xd5 && Sbox0(0x77) == 0xf5 && Sbox0(0x9e) == 0x0b
    ensures Sbox0(0x0b) == 0x2b && Sbox0(0x61) == 0xef && Sbox0(0x21) == 0xfd && Sbox0(0x6e) == 0x9f
    ensures Sbox0(0x8b) == 0x3d && Sbox0(0x10) == 0xca && Sbox0(0xb6) == 0x4e && Sbox0(0x89) == 0xa7
  {
  }

  lemma Round10()
    ensures AddRoundKey(ShiftSub(S9), K10) == CIPHERED
  {
    hide Sbox0;
    Substitutions10();
  }

  /** The published ciphertext of AES-128. */
  lemma Aes128Vector(key: aesKey)
    requires |key| == 16 && Counting(key)
    ensures Cipher(key, PLAIN) == CIPHERED
  {
    hide AfterRounds, RoundKey, Counting, Rounded, AddRoundKey, ShiftSub;
    Keys1To5(key);
    Keys6To10(key);
    Round0(key);
    Round1();
    NextRound(key, PLAIN, 1);
    Round2();
    NextRound(key, PLAIN, 2);
    Round3();
    NextRound(key, PLAIN, 3);
    Round4();
    NextRound(key, PLAIN, 4);
    Round5();
    NextRound(key, PLAIN, 5);
    Round6();
    NextRound(key, PLAIN, 6);
    Round7();
    NextRound(key, PLAIN, 7);
    Round8();
    NextRound(key, PLAIN, 8);
    Round9();
    NextRound(key, PLAIN, 9);
    Round10();
  }

  // ---------- The other key sizes, appendices C.2 and C.3 ----------

  lemma FirstWords192(key: aesKey)
    requires |key| == 24 && Counting(key)
    ensures KeyWord(key, 0) == Column(0x00, 0x01, 0x02, 0x03)
    ensures KeyWord(key, 1) == Column(0x04, 0x05, 0x06, 0x07)
    ensures KeyWord(key, 2) == Column(0x08, 0x09, 0x0a, 0x0b)
    ensures KeyWord(key, 3) == Column(0x0c, 0x0d, 0x0e, 0x0f)
    ensures KeyWord(key, 4) == Column(0x10, 0x11, 0x12, 0x13)
    ensures KeyWord(key, 5) == Column(0x14, 0x15, 0x16, 0x17)
  {
  }

  /** The first words that AES-192 expands its key by; it has twelve rounds. */
  lemma Aes192Expansion(key: aesKey)
    requires |key| == 24 && Counting(key)
    ensures Rounds(key) == 12
    ensures KeyWord(key, 6) == Column(0x58, 0x46, 0xf2, 0xf9)
    ensures KeyWord(key, 7) == Column(0x5c, 0x43, 0xf4, 0xfe)
    ensures KeyWord(key, 8) == Column(0x54, 0x4a, 0xfe, 0xf5)
    ensures KeyWord(key, 9) == Column(0x58, 0x47, 0xf0, 0xfa)
    ensures KeyWord(key, 10) == Column(0x48, 0x56, 0xe2, 0xe9)
    ensures KeyWord(key, 11) == Column(0x5c, 0x43, 0xf4, 0xfe)
  {
    hide KeyWord, Counting;
    FirstWords192(key);
    NextWord(key, 6, Column(0x00, 0x01, 0x02, 0x03), Column(0x14, 0x15, 0x16, 0x17),
             Column(0x58, 0x46, 0xf2, 0xf9));
    NextWord(key, 7, Column(0x04, 0x05, 0x06, 0x07), Column(0x58, 0x46, 0xf2, 0xf9),
             Column(0x5c, 0x43, 0xf4, 0xfe));
    NextWord(key, 8, Column(0x08, 0x09, 0x0a, 0x0b), Column(0x5c, 0x43, 0xf4, 0xfe),
             Column(0x54, 0x4a, 0xfe, 0xf5));
    NextWord(key, 9, Column(0x0c, 0x0d, 0x0e, 0x0f), Column(0x54, 0x4a, 0xfe, 0xf5),
             Column(0x58, 0x47, 0xf0, 0xfa));
    NextWord(key, 10, Column(0x10, 0x11, 0x12, 0x13), Column(0x58, 0x47, 0xf0, 0xfa),
             Column(0x48, 0x56, 0xe2, 0xe9));
    NextWord(key, 11, Column(0x14, 0x15, 0x16, 0x17), Column(0x48, 0x56, 0xe2, 0xe9),
             Column(0x5c, 0x43, 0xf4, 0xfe));
  }

  lemma FirstWords256(key: aesKey)
    requires |key| == 32 && Counting(key)
    ensures KeyWord(key, 0) == Column(0x00, 0x01, 0x02, 0x03)
    ensures KeyWord(key, 1) == Column(0x04, 0x05, 0x06, 0x07)
    ensures KeyWord(key, 2) == Column(0x08, 0x09, 0x0a, 0x0b)
    ensures KeyWord(key, 3) == Column(0x0c, 0x0d, 0x0e, 0x0f)
    ensures KeyWord(key, 4) == Column(0x10, 0x11, 0x12, 0x13)
    ensures KeyWord(key, 5) == Column(0x14, 0x15, 0x16, 0x17)
    ensures KeyWord(key, 6) == Column(0x18, 0x19, 0x1a, 0x1b)
    ensures KeyWord(key, 7) == Column(0x1c, 0x1d, 0x1e, 0x1f)
  {
  }

  /** And those of AES-256, which has fourteen, and substitutes in the middle of every eight words too. */
  lemma Aes256Expansion(key: aesKey)
    requires |key| == 32 && Counting(key)
    ensures Rounds(key) == 14
    ensures KeyWord(key, 8) == Column(0xa5, 0x73, 0xc2, 0x9f)
    ensures KeyWord(key, 9) == Column(0xa1, 0x76, 0xc4, 0x98)
    ensures KeyWord(key, 10) == Column(0xa9, 0x7f, 0xce, 0x93)
    ensures KeyWord(key, 11) == Column(0xa5, 0x72, 0xc0, 0x9c)
    ensures KeyWord(key, 12) == Column(0x16, 0x51, 0xa8, 0xcd)
    ensures KeyWord(key, 13) == Column(0x02, 0x44, 0xbe, 0xda)
    ensures KeyWord(key, 14) == Column(0x1a, 0x5d, 0xa4, 0xc1)
    ensures KeyWord(key, 15) == Column(0x06, 0x40, 0xba, 0xde)
  {
    hide KeyWord, Counting;
    FirstWords256(key);
    NextWord(key, 8, Column(0x00, 0x01, 0x02, 0x03), Column(0x1c, 0x1d, 0x1e, 0x1f),
             Column(0xa5, 0x73, 0xc2, 0x9f));
    NextWord(key, 9, Column(0x04, 0x05, 0x06, 0x07), Column(0xa5, 0x73, 0xc2, 0x9f),
             Column(0xa1, 0x76, 0xc4, 0x98));
    NextWord(key, 10, Column(0x08, 0x09, 0x0a, 0x0b), Column(0xa1, 0x76, 0xc4, 0x98),
             Column(0xa9, 0x7f, 0xce, 0x93));
    NextWord(key, 11, Column(0x0c, 0x0d, 0x0e, 0x0f), Column(0xa9, 0x7f, 0xce, 0x93),
             Column(0xa5, 0x72, 0xc0, 0x9c));
    NextWord(key, 12, Column(0x10, 0x11, 0x12, 0x13), Column(0xa5, 0x72, 0xc0, 0x9c),
             Column(0x16, 0x51, 0xa8, 0xcd));
    NextWord(key, 13, Column(0x14, 0x15, 0x16, 0x17), Column(0x16, 0x51, 0xa8, 0xcd),
             Column(0x02, 0x44, 0xbe, 0xda));
    NextWord(key, 14, Column(0x18, 0x19, 0x1a, 0x1b), Column(0x02, 0x44, 0xbe, 0xda),
             Column(0x1a, 0x5d, 0xa4, 0xc1));
    NextWord(key, 15, Column(0x1c, 0x1d, 0x1e, 0x1f), Column(0x1a, 0x5d, 0xa4, 0xc1),
             Column(0x06, 0x40, 0xba, 0xde));
  }
}
