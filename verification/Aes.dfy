/**
 * The table-driven AES of aes/aes_generic.go: T-tables for the rounds, and the equivalent inverse cipher
 * with its own key schedule for decryption.
 */
module Aes {
  import opened AesTables
  import opened BigEndian
  import opened Fips197
  import opened Wrappers

  // ---------- Columns in words ----------

  function Pack(a: octet, b: octet, c: octet, d: octet): word {
    (a as word << 24) | (b as word << 16) | (c as word << 8) | d as word
  }

  function ColumnWord(c: Column): word { Pack(c.b0, c.b1, c.b2, c.b3) }

  function Byte0(w: word): octet { (w >> 24) as octet }

  function Byte1(w: word): octet { ((w >> 16) & 0xFF) as octet }

  function Byte2(w: word): octet { ((w >> 8) & 0xFF) as octet }

  function Byte3(w: word): octet { (w & 0xFF) as octet }

  function XorWord(a: word, b: word): word { a ^ b }

  function RotateRight(w: word): word { (w >> 8) | (w << 24) }

  lemma PackBytes(a: octet, b: octet, c: octet, d: octet)
    ensures var w := Pack(a, b, c, d); Byte0(w) == a && Byte1(w) == b && Byte2(w) == c && Byte3(w) == d
  {
  }

  lemma ColumnWordBytes(c: Column)
    ensures var w := ColumnWord(c); c == Column(Byte0(w), Byte1(w), Byte2(w), Byte3(w))
  {
    hide Pack, Byte0, Byte1, Byte2, Byte3;
    PackBytes(c.b0, c.b1, c.b2, c.b3);
  }

  lemma XorPacks(a: octet, b: octet, c: octet, d: octet, a': octet, b': octet, c': octet, d': octet)
    ensures ((a as word << 24) | (b as word << 16) | (c as word << 8) | d as word)
            ^ ((a' as word << 24) | (b' as word << 16) | (c' as word << 8) | d' as word)
         == (((a ^ a') as word << 24) | ((b ^ b') as word << 16) | ((c ^ c') as word << 8) | (d ^ d') as word)
  {
  }

  lemma XorColumnWord(a: Column, b: Column)
    ensures XorWord(ColumnWord(a), ColumnWord(b)) == ColumnWord(XorColumn(a, b))
  {
    XorPacks(a.b0, a.b1, a.b2, a.b3, b.b0, b.b1, b.b2, b.b3);
  }

  lemma RotatePack(a: octet, b: octet, c: octet, d: octet)
    ensures RotateRight(Pack(a, b, c, d)) == Pack(d, a, b, c)
  {
  }

  // ---------- What the tables hold ----------

  lemma Te0Quarter0(x: octet)
    requires InQuarter(x, 0)
    ensures Te0(x) == Pack(Times(Sbox0(x), 2), Sbox0(x), Sbox0(x), Times(Sbox0(x), 3))
  {
  }

  lemma Te0Quarter1(x: octet)
    requires InQuarter(x, 0x40)
    ensures Te0(x) == Pack(Times(Sbox0(x), 2), Sbox0(x), Sbox0(x), Times(Sbox0(x), 3))
  {
  }

  lemma Te0Quarter2(x: octet)
    requires InQuarter(x, 0x80)
    ensures Te0(x) == Pack(Times(Sbox0(x), 2), Sbox0(x), Sbox0(x), Times(Sbox0(x), 3))
  {
  }

  lemma Te0Quarter3(x: octet)
    requires InQuarter(x, 0xC0)
    ensures Te0(x) == Pack(Times(Sbox0(x), 2), Sbox0(x), Sbox0(x), Times(Sbox0(x), 3))
  {
  }

  lemma Td0Quarter0(x: octet)
    requires InQuarter(x, 0)
    ensures Td0(x) == Pack(Times(Sbox1(x), 14), Times(Sbox1(x), 9), Times(Sbox1(x), 13), Times(Sbox1(x), 11))
  {
  }

  lemma Td0Quarter1(x: octet)
    requires InQuarter(x, 0x40)
    ensures Td0(x) == Pack(Times(Sbox1(x), 14), Times(Sbox1(x), 9), Times(Sbox1(x), 13), Times(Sbox1(x), 11))
  {
  }

  lemma Td0Quarter2(x: octet)
    requires InQuarter(x, 0x80)
    ensures Td0(x) == Pack(Times(Sbox1(x), 14), Times(Sbox1(x), 9), Times(Sbox1(x), 13), Times(Sbox1(x), 11))
  {
  }

  lemma Td0Quarter3(x: octet)
    requires InQuarter(x, 0xC0)
    ensures Td0(x) == Pack(Times(Sbox1(x), 14), Times(Sbox1(x), 9), Times(Sbox1(x), 13), Times(Sbox1(x), 11))
  {
  }

  lemma Te1Rotates(x: octet)
    ensures Te1(x) == RotateRight(Te0(x))
  {
  }

  lemma Te2Rotates(x: octet)
    ensures Te2(x) == RotateRight(Te1(x))
  {
  }

  lemma Te3Rotates(x: octet)
    ensures Te3(x) == RotateRight(Te2(x))
  {
  }

  lemma Td1Rotates(x: octet)
    ensures Td1(x) == RotateRight(Td0(x))
  {
  }

  lemma Td2Rotates(x: octet)
    ensures Td2(x) == RotateRight(Td1(x))
  {
  }

  lemma Td3Rotates(x: octet)
    ensures Td3(x) == RotateRight(Td2(x))
  {
  }

  /** te0 to te3: the S-box value times the four columns of the MixColumns matrix. */
  lemma TeMeaning(x: octet)
    ensures var a := Sbox0(x);
            && Te0(x) == Pack(Times(a, 2), a, a, Times(a, 3))
            && Te1(x) == Pack(Times(a, 3), Times(a, 2), a, a)
            && Te2(x) == Pack(a, Times(a, 3), Times(a, 2), a)
            && Te3(x) == Pack(a, a, Times(a, 3), Times(a, 2))
  {
    hide *;
    Quarters(x);
    if InQuarter(x, 0) {
      Te0Quarter0(x);
    } else if InQuarter(x, 0x40) {
      Te0Quarter1(x);
    } else if InQuarter(x, 0x80) {
      Te0Quarter2(x);
    } else {
      Te0Quarter3(x);
    }
    var a := Sbox0(x);
    Te1Rotates(x);
    Te2Rotates(x);
    Te3Rotates(x);
    RotatePack(Times(a, 2), a, a, Times(a, 3));
    RotatePack(Times(a, 3), Times(a, 2), a, a);
    RotatePack(a, Times(a, 3), Times(a, 2), a);
  }

  /** td0 to td3: the inverse S-box value times the columns of the inverse matrix. */
  lemma TdMeaning(x: octet)
    ensures var a := Sbox1(x);
            && Td0(x) == Pack(Times(a, 14), Times(a, 9), Times(a, 13), Times(a, 11))
            && Td1(x) == Pack(Times(a, 11), Times(a, 14), Times(a, 9), Times(a, 13))
            && Td2(x) == Pack(Times(a, 13), Times(a, 11), Times(a, 14), Times(a, 9))
            && Td3(x) == Pack(Times(a, 9), Times(a, 13), Times(a, 11), Times(a, 14))
  {
    hide *;
    Quarters(x);
    if InQuarter(x, 0) {
      Td0Quarter0(x);
    } else if InQuarter(x, 0x40) {
      Td0Quarter1(x);
    } else if InQuarter(x, 0x80) {
      Td0Quarter2(x);
    } else {
      Td0Quarter3(x);
    }
    var a := Sbox1(x);
    Td1Rotates(x);
    Td2Rotates(x);
    Td3Rotates(x);
    RotatePack(Times(a, 14), Times(a, 9), Times(a, 13), Times(a, 11));
    RotatePack(Times(a, 11), Times(a, 14), Times(a, 9), Times(a, 13));
    RotatePack(Times(a, 13), Times(a, 11), Times(a, 14), Times(a, 9));
  }

  /** powx holds the powers of x. */
  lemma PowxMeaning(n: nat)
    requires n < 16
    ensures Powx(n as octet) == XPower(n)
  {
  }

  // ---------- One column of a round ----------

  /** xk ^ te0[a>>24] ^ te1[b>>16] ^ te2[c>>8] ^ te3[d]. */
  function TeWord(xk: word, a: word, b: word, c: word, d: word): word {
    XorWord(XorWord(XorWord(XorWord(xk, Te0(Byte0(a))), Te1(Byte1(b))), Te2(Byte2(c))), Te3(Byte3(d)))
  }

  function TdWord(xk: word, a: word, b: word, c: word, d: word): word {
    XorWord(XorWord(XorWord(XorWord(xk, Td0(Byte0(a))), Td1(Byte1(b))), Td2(Byte2(c))), Td3(Byte3(d)))
  }

  /** The substituted bytes of the last round, one from each word. */
  function Sbox0Word(a: word, b: word, c: word, d: word): word {
    Pack(Sbox0(Byte0(a)), Sbox0(Byte1(b)), Sbox0(Byte2(c)), Sbox0(Byte3(d)))
  }

  function Sbox1Word(a: word, b: word, c: word, d: word): word {
    Pack(Sbox1(Byte0(a)), Sbox1(Byte1(b)), Sbox1(Byte2(c)), Sbox1(Byte3(d)))
  }

  /** A byte of each of four columns. */
  function Diagonal(a: Column, b: Column, c: Column, d: Column): Column { Column(a.b0, b.b1, c.b2, d.b3) }

  lemma KeyLast(k: octet, a: octet, b: octet, c: octet, d: octet)
    ensures XorOctet(XorOctet(XorOctet(XorOctet(k, a), b), c), d) == XorOctet(Sum4(a, b, c, d), k)
  {
    hide XorOctet;
    XorOctetComm(k, Sum4(a, b, c, d));
    XorOctetAssoc(k, XorOctet(XorOctet(a, b), c), d);
    XorOctetAssoc(k, XorOctet(a, b), c);
    XorOctetAssoc(k, a, b);
  }

  lemma XorFiveColumns(k: Column, a: Column, b: Column, c: Column, d: Column)
    ensures XorWord(XorWord(XorWord(XorWord(ColumnWord(k), ColumnWord(a)), ColumnWord(b)), ColumnWord(c)), ColumnWord(d))
         == ColumnWord(XorColumn(SumColumns(a, b, c, d), k))
  {
    hide XorOctet, Sum4, XorWord, ColumnWord;
    var ka := XorColumn(k, a);
    var kb := XorColumn(ka, b);
    var kc := XorColumn(kb, c);
    XorColumnWord(k, a);
    XorColumnWord(ka, b);
    XorColumnWord(kb, c);
    XorColumnWord(kc, d);
    KeyLast(k.b0, a.b0, b.b0, c.b0, d.b0);
    KeyLast(k.b1, a.b1, b.b1, c.b1, d.b1);
    KeyLast(k.b2, a.b2, b.b2, c.b2, d.b2);
    KeyLast(k.b3, a.b3, b.b3, c.b3, d.b3);
  }

  function SumColumns(a: Column, b: Column, c: Column, d: Column): Column {
    Column(Sum4(a.b0, b.b0, c.b0, d.b0), Sum4(a.b1, b.b1, c.b1, d.b1),
           Sum4(a.b2, b.b2, c.b2, d.b2), Sum4(a.b3, b.b3, c.b3, d.b3))
  }

  lemma TeColumn(k: Column, a: Column, b: Column, c: Column, d: Column)
    ensures TeWord(ColumnWord(k), ColumnWord(a), ColumnWord(b), ColumnWord(c), ColumnWord(d))
         == ColumnWord(XorColumn(MixColumn(SubColumn(Diagonal(a, b, c, d))), k))
  {
    hide XorWord, Pack, Byte0, Byte1, Byte2, Byte3, Times, Sum4, XorOctet, Te0, Te1, Te2, Te3, Sbox0;
    ColumnWordBytes(a);
    ColumnWordBytes(b);
    ColumnWordBytes(c);
    ColumnWordBytes(d);
    TeMeaning(a.b0);
    TeMeaning(b.b1);
    TeMeaning(c.b2);
    TeMeaning(d.b3);
    var x, y, z, w := Sbox0(a.b0), Sbox0(b.b1), Sbox0(c.b2), Sbox0(d.b3);
    XorFiveColumns(k,
      Column(Times(x, 2), x, x, Times(x, 3)),
      Column(Times(y, 3), Times(y, 2), y, y),
      Column(z, Times(z, 3), Times(z, 2), z),
      Column(w, w, Times(w, 3), Times(w, 2)));
  }

  lemma TdColumn(k: Column, a: Column, b: Column, c: Column, d: Column)
    ensures TdWord(ColumnWord(k), ColumnWord(a), ColumnWord(b), ColumnWord(c), ColumnWord(d))
         == ColumnWord(XorColumn(InvMixColumn(InvSubColumn(Diagonal(a, b, c, d))), k))
  {
    hide XorWord, Pack, Byte0, Byte1, Byte2, Byte3, Times, Sum4, XorOctet, Td0, Td1, Td2, Td3, Sbox1;
    ColumnWordBytes(a);
    ColumnWordBytes(b);
    ColumnWordBytes(c);
    ColumnWordBytes(d);
    TdMeaning(a.b0);
    TdMeaning(b.b1);
    TdMeaning(c.b2);
    TdMeaning(d.b3);
    var x, y, z, w := Sbox1(a.b0), Sbox1(b.b1), Sbox1(c.b2), Sbox1(d.b3);
    XorFiveColumns(k,
      Column(Times(x, 14), Times(x, 9), Times(x, 13), Times(x, 11)),
      Column(Times(y, 11), Times(y, 14), Times(y, 9), Times(y, 13)),
      Column(Times(z, 13), Times(z, 11), Times(z, 14), Times(z, 9)),
      Column(Times(w, 9), Times(w, 13), Times(w, 11), Times(w, 14)));
  }

  lemma LastColumn(a: Column, b: Column, c: Column, d: Column)
    ensures Sbox0Word(ColumnWord(a), ColumnWord(b), ColumnWord(c), ColumnWord(d)) == ColumnWord(SubColumn(Diagonal(a, b, c, d)))
    ensures Sbox1Word(ColumnWord(a), ColumnWord(b), ColumnWord(c), ColumnWord(d))
         == ColumnWord(InvSubColumn(Diagonal(a, b, c, d)))
  {
    hide Pack, Byte0, Byte1, Byte2, Byte3, Sbox0, Sbox1;
    ColumnWordBytes(a);
    ColumnWordBytes(b);
    ColumnWordBytes(c);
    ColumnWordBytes(d);
  }

  // ---------- A whole round ----------

  /** Four words hold a state. */
  predicate Holds(s0: word, s1: word, s2: word, s3: word, s: State) {
    s0 == ColumnWord(s.c0) && s1 == ColumnWord(s.c1) && s2 == ColumnWord(s.c2) && s3 == ColumnWord(s.c3)
  }

  lemma HoldsXor(s0: word, s1: word, s2: word, s3: word, s: State, k0: word, k1: word, k2: word, k3: word, k: State)
    requires Holds(s0, s1, s2, s3, s) && Holds(k0, k1, k2, k3, k)
    ensures Holds(XorWord(s0, k0), XorWord(s1, k1), XorWord(s2, k2), XorWord(s3, k3), AddRoundKey(s, k))
  {
    hide ColumnWord, XorWord, XorColumn;
    XorColumnWord(s.c0, k.c0);
    XorColumnWord(s.c1, k.c1);
    XorColumnWord(s.c2, k.c2);
    XorColumnWord(s.c3, k.c3);
  }

  lemma TableRound(s0: word, s1: word, s2: word, s3: word, s: State, k0: word, k1: word, k2: word, k3: word, k: State)
    requires Holds(s0, s1, s2, s3, s) && Holds(k0, k1, k2, k3, k)
    ensures Holds(TeWord(k0, s0, s1, s2, s3), TeWord(k1, s1, s2, s3, s0), TeWord(k2, s2, s3, s0, s1),
                  TeWord(k3, s3, s0, s1, s2), AddRoundKey(MixColumns(ShiftSub(s)), k))
  {
    hide ColumnWord, TeWord, XorColumn, MixColumn, Sbox0;
    TeColumn(k.c0, s.c0, s.c1, s.c2, s.c3);
    TeColumn(k.c1, s.c1, s.c2, s.c3, s.c0);
    TeColumn(k.c2, s.c2, s.c3, s.c0, s.c1);
    TeColumn(k.c3, s.c3, s.c0, s.c1, s.c2);
  }

  lemma LastRound(s0: word, s1: word, s2: word, s3: word, s: State)
    requires Holds(s0, s1, s2, s3, s)
    ensures Holds(Sbox0Word(s0, s1, s2, s3), Sbox0Word(s1, s2, s3, s0), Sbox0Word(s2, s3, s0, s1),
                  Sbox0Word(s3, s0, s1, s2), ShiftSub(s))
    ensures Holds(Sbox1Word(s0, s3, s2, s1), Sbox1Word(s1, s0, s3, s2), Sbox1Word(s2, s1, s0, s3),
                  Sbox1Word(s3, s2, s1, s0), InvShiftSub(s))
  {
    hide ColumnWord, Sbox0Word, Sbox1Word, Sbox0, Sbox1;
    LastColumn(s.c0, s.c1, s.c2, s.c3);
    LastColumn(s.c1, s.c2, s.c3, s.c0);
    LastColumn(s.c2, s.c3, s.c0, s.c1);
    LastColumn(s.c3, s.c0, s.c1, s.c2);
    LastColumn(s.c0, s.c3, s.c2, s.c1);
    LastColumn(s.c1, s.c0, s.c3, s.c2);
    LastColumn(s.c2, s.c1, s.c0, s.c3);
    LastColumn(s.c3, s.c2, s.c1, s.c0);
  }

  /** The td round adds an already transformed key after InvMixColumns: the equivalent inverse cipher. */
  lemma InverseTableRound(s0: word, s1: word, s2: word, s3: word, s: State,
                          k0: word, k1: word, k2: word, k3: word, k: State)
    requires Holds(s0, s1, s2, s3, s) && Holds(k0, k1, k2, k3, InvMixColumns(k))
    ensures Holds(TdWord(k0, s0, s3, s2, s1), TdWord(k1, s1, s0, s3, s2), TdWord(k2, s2, s1, s0, s3),
                  TdWord(k3, s3, s2, s1, s0), InvMixColumns(AddRoundKey(InvShiftSub(s), k)))
  {
    hide ColumnWord, TdWord, XorColumn, InvMixColumn, Sbox1;
    TdColumn(InvMixColumn(k.c0), s.c0, s.c3, s.c2, s.c1);
    TdColumn(InvMixColumn(k.c1), s.c1, s.c0, s.c3, s.c2);
    TdColumn(InvMixColumn(k.c2), s.c2, s.c1, s.c0, s.c3);
    TdColumn(InvMixColumn(k.c3), s.c3, s.c2, s.c1, s.c0);
    var t := InvShiftSub(s);
    InvMixColumnLinear(t.c0, k.c0);
    InvMixColumnLinear(t.c1, k.c1);
    InvMixColumnLinear(t.c2, k.c2);
    InvMixColumnLinear(t.c3, k.c3);
  }

  lemma BlockHolds(b: seq<octet>)
    requires |b| == 16
    ensures Holds(Uint32(b[0..4]), Uint32(b[4..8]), Uint32(b[8..12]), Uint32(b[12..16]), StateOf(b))
  {
  }

  lemma PutColumn(c: Column)
    ensures PutUint32(ColumnWord(c)) == ColumnBytes(c)
  {
    PackBytes(c.b0, c.b1, c.b2, c.b3);
  }

  lemma PutHolds(s0: word, s1: word, s2: word, s3: word, s: State)
    requires Holds(s0, s1, s2, s3, s)
    ensures PutUint32(s0) + PutUint32(s1) + PutUint32(s2) + PutUint32(s3) == StateBytes(s)
  {
    hide PutUint32, ColumnWord, ColumnBytes;
    PutColumn(s.c0);
    PutColumn(s.c1);
    PutColumn(s.c2);
    PutColumn(s.c3);
  }

  method LoadWords(src: array<octet>) returns (s0: word, s1: word, s2: word, s3: word)
    requires src.Length >= 16
    ensures Holds(s0, s1, s2, s3, StateOf(src[..16]))
  {
    hide Uint32, Holds, StateOf;
    s0, s1, s2, s3 := Uint32(src[0..4]), Uint32(src[4..8]), Uint32(src[8..12]), Uint32(src[12..16]);
    BlockHolds(src[..16]);
    assert src[..16][0..4] == src[0..4] && src[..16][4..8] == src[4..8];
    assert src[..16][8..12] == src[8..12] && src[..16][12..16] == src[12..16];
  }

  method PutWord(dst: array<octet>, at: nat, w: word)
    requires at + 4 <= dst.Length
    modifies dst
    ensures dst[..at + 4] == old(dst[..at]) + PutUint32(w) && dst[at + 4..] == old(dst[at + 4..])
  {
    hide PutUint32;
    var b := PutUint32(w);
    dst[at], dst[at + 1], dst[at + 2], dst[at + 3] := b[0], b[1], b[2], b[3];
    assert b == [b[0], b[1], b[2], b[3]];
  }

  lemma DropMore(s: seq<octet>, t: seq<octet>, n: nat)
    requires n + 4 <= |s| == |t| && n + 4 <= 16 <= |s| && s[n + 4..] == t[n + 4..]
    ensures s[16..] == t[16..]
  {
    assert s[n + 4..][12 - n..] == s[16..] && t[n + 4..][12 - n..] == t[16..];
  }

  lemma WordsBefore(s: seq<octet>, a: seq<octet>, b: seq<octet>, c: seq<octet>, d: seq<octet>, rest: seq<octet>)
    requires |s| >= 16 && s[..16] == a + b + c + d && s[16..] == rest
    ensures s == a + b + c + d + rest
  {
    assert s == s[..16] + s[16..];
  }

  method PutWords(dst: array<octet>, s0: word, s1: word, s2: word, s3: word, ghost s: State)
    requires dst.Length >= 16 && Holds(s0, s1, s2, s3, s)
    modifies dst
    ensures dst[..] == StateBytes(s) + old(dst[16..])
  {
    hide PutUint32, StateBytes, Holds;
    ghost var d0 := dst[..];
    PutWord(dst, 0, s0);
    ghost var d1 := dst[..];
    assert d1[..4] == [] + PutUint32(s0) == PutUint32(s0);
    DropMore(d0, d1, 0);
    PutWord(dst, 4, s1);
    ghost var d2 := dst[..];
    assert d2[..8] == d1[..4] + PutUint32(s1);
    DropMore(d1, d2, 4);
    PutWord(dst, 8, s2);
    ghost var d3 := dst[..];
    assert d3[..12] == d2[..8] + PutUint32(s2);
    DropMore(d2, d3, 8);
    PutWord(dst, 12, s3);
    assert dst[..][..16] == d3[..12] + PutUint32(s3);
    WordsBefore(dst[..], PutUint32(s0), PutUint32(s1), PutUint32(s2), PutUint32(s3), d0[16..]);
    PutHolds(s0, s1, s2, s3, s);
  }

  lemma CipherEnds(key: aesKey, s: State)
    ensures Cipher(key, s) == AddRoundKey(ShiftSub(AfterRounds(key, s, Rounds(key) - 1)), RoundKey(key, Rounds(key)))
  {
  }

  lemma InvRoundStep(key: aesKey, s: State, r: nat)
    requires r < Rounds(key)
    ensures AfterInvRounds(key, s, r + 1)
         == InvMixColumns(AddRoundKey(InvShiftSub(AfterInvRounds(key, s, r)), RoundKey(key, Rounds(key) - (r + 1))))
  {
    hide InvMixColumns, AddRoundKey, InvShiftSub, RoundKey, Rounds;
  }

  lemma InvRoundSteps(key: aesKey, s: State)
    ensures AfterInvRounds(key, s, 0) == AddRoundKey(s, RoundKey(key, Rounds(key)))
    ensures InvCipher(key, s) == AddRoundKey(InvShiftSub(AfterInvRounds(key, s, Rounds(key) - 1)), RoundKey(key, 0))
  {
    hide AddRoundKey, InvShiftSub, RoundKey;
  }

  // ---------- Key expansion ----------

  /** Apply sbox0 to each byte of w. */
  function Subw(w: word): word { Sbox0Word(w, w, w, w) }

  function Rotw(w: word): word { (w << 8) | (w >> 24) }

  function RconWord(n: nat): word
    requires n < 16
  {
    (Powx(n as octet) as word) << 24
  }

  /** InvMixColumns of a word: the td tables with the inverse S-box taken off again. */
  function InvMixWord(x: word): word {
    XorWord(XorWord(XorWord(Td0(Sbox0(Byte0(x))), Td1(Sbox0(Byte1(x)))), Td2(Sbox0(Byte2(x)))), Td3(Sbox0(Byte3(x))))
  }

  lemma RotwColumn(c: Column)
    ensures Rotw(ColumnWord(c)) == ColumnWord(RotColumn(c))
  {
  }

  lemma SubwColumn(c: Column)
    ensures Subw(ColumnWord(c)) == ColumnWord(SubColumn(c))
  {
    hide ColumnWord, Sbox0Word, Sbox0;
    LastColumn(c, c, c, c);
  }

  lemma PackFirst(a: octet)
    ensures (a as word) << 24 == Pack(a, 0, 0, 0)
  {
  }

  lemma RconColumn(n: nat)
    requires n < 16
    ensures RconWord(n) == ColumnWord(Column(XPower(n), 0, 0, 0))
  {
    hide Pack, Powx, XPower;
    PowxMeaning(n);
    PackFirst(Powx(n as octet));
  }

  lemma InvMixWordColumn(c: Column)
    ensures InvMixWord(ColumnWord(c)) == ColumnWord(InvMixColumn(c))
  {
    hide XorWord, Pack, Byte0, Byte1, Byte2, Byte3, Times, XorOctet, Td0, Td1, Td2, Td3, Sbox0, Sbox1;
    ColumnWordBytes(c);
    SboxesInvert(c.b0);
    SboxesInvert(c.b1);
    SboxesInvert(c.b2);
    SboxesInvert(c.b3);
    TdMeaning(Sbox0(c.b0));
    TdMeaning(Sbox0(c.b1));
    TdMeaning(Sbox0(c.b2));
    TdMeaning(Sbox0(c.b3));
    SumFourColumns(
      Column(Times(c.b0, 14), Times(c.b0, 9), Times(c.b0, 13), Times(c.b0, 11)),
      Column(Times(c.b1, 11), Times(c.b1, 14), Times(c.b1, 9), Times(c.b1, 13)),
      Column(Times(c.b2, 13), Times(c.b2, 11), Times(c.b2, 14), Times(c.b2, 9)),
      Column(Times(c.b3, 9), Times(c.b3, 13), Times(c.b3, 11), Times(c.b3, 14)));
  }

  lemma SumFourColumns(a: Column, b: Column, c: Column, d: Column)
    ensures XorWord(XorWord(XorWord(ColumnWord(a), ColumnWord(b)), ColumnWord(c)), ColumnWord(d))
         == ColumnWord(SumColumns(a, b, c, d))
  {
    hide XorOctet, XorWord, ColumnWord;
    XorColumnWord(a, b);
    XorColumnWord(XorColumn(a, b), c);
    XorColumnWord(XorColumn(XorColumn(a, b), c), d);
  }

  lemma KeyCoreWord(nk: nat, i: nat, previous: Column)
    requires nk >= 4 && nk <= i < 60
    ensures i % nk == 0 ==> i / nk - 1 < 16 && XorWord(Subw(Rotw(ColumnWord(previous))), RconWord(i / nk - 1))
                            == ColumnWord(KeyCore(nk, i, previous))
    ensures i % nk != 0 && nk > 6 && i % nk == 4 ==> Subw(ColumnWord(previous)) == ColumnWord(KeyCore(nk, i, previous))
    ensures i % nk != 0 && !(nk > 6 && i % nk == 4) ==> KeyCore(nk, i, previous) == previous
  {
    hide XorWord, Subw, Rotw, RconWord, ColumnWord, SubColumn, RotColumn, XorColumn, XPower;
    SubwColumn(previous);
    assert 1 <= i / nk < 16;
    if i % nk == 0 {
      var turned := RotColumn(previous);
      RotwColumn(previous);
      SubwColumn(turned);
      RconColumn(i / nk - 1);
      XorColumnWord(SubColumn(turned), Column(XPower(i / nk - 1), 0, 0, 0));
    }
  }

  lemma FirstKeyWords(key: aesKey, i: nat)
    requires i < |key| / 4
    ensures Uint32(key[4 * i..4 * i + 4]) == ColumnWord(KeyWord(key, i))
  {
    var b := key[4 * i..4 * i + 4];
    assert b[0] == key[4 * i] && b[1] == key[4 * i + 1] && b[2] == key[4 * i + 2] && b[3] == key[4 * i + 3];
  }

  lemma NextKeyWord(key: aesKey, i: nat)
    requires |key| / 4 <= i
    ensures var nk := |key| / 4;
            XorWord(ColumnWord(KeyWord(key, i - nk)), ColumnWord(KeyCore(nk, i, KeyWord(key, i - 1))))
            == ColumnWord(KeyWord(key, i))
  {
    hide XorWord, ColumnWord, XorColumn, KeyCore;
    var nk := |key| / 4;
    XorColumnWord(KeyWord(key, i - nk), KeyCore(nk, i, KeyWord(key, i - 1)));
  }

  /** Column j of round key r of the equivalent inverse cipher. */
  function DecColumn(key: aesKey, r: nat, j: nat): Column
    requires r <= Rounds(key) && j < 4
  {
    var c := KeyWord(key, 4 * (Rounds(key) - r) + j);
    if 0 < r < Rounds(key) then InvMixColumn(c) else c
  }

  /** An AES block with its expanded keys; only the first 4 * (rounds + 1) words of each array are used. */
  class BlockExpanded {
    var rounds: nat
    const enc: array<word>
    const dec: array<word>

    ghost predicate Sized() {
      enc.Length == 60 == dec.Length && enc != dec
    }

    function RoundKeysSize(): nat
      reads this
    {
      (rounds + 1) * 4
    }

    /** Both schedules are those of the key. */
    ghost predicate Expanded(key: aesKey)
      reads this, enc, dec
    {
      && Sized()
      && rounds == Rounds(key)
      && (forall i: nat :: i < 4 * (rounds + 1) ==> enc[i] == ColumnWord(KeyWord(key, i)))
      && (forall r: nat, j: nat :: r <= rounds && j < 4 ==> dec[4 * r + j] == ColumnWord(DecColumn(key, r, j)))
    }

    constructor ()
      ensures Sized() && fresh(enc) && fresh(dec)
    {
      rounds := 0;
      enc := new word[60];
      dec := new word[60];
    }

    method ExpandEnc(key: aesKey)
      requires Sized() && rounds == Rounds(key)
      modifies enc
      ensures forall i: nat :: i < 4 * (rounds + 1) ==> enc[i] == ColumnWord(KeyWord(key, i))
    {
      hide Uint32, ColumnWord, KeyWord, KeyCore, Subw, Rotw, XorWord, RconWord;
      var nk := |key| / 4;
      var i := 0;
      while i < nk
        invariant i <= nk
        invariant forall j: nat :: j < i ==> enc[j] == ColumnWord(KeyWord(key, j))
      {
        enc[i] := Uint32(key[4 * i..4 * i + 4]);
        FirstKeyWords(key, i);
        i := i + 1;
      }
      while i < RoundKeysSize()
        invariant nk <= i <= RoundKeysSize() <= 60
        invariant forall j: nat :: j < i ==> enc[j] == ColumnWord(KeyWord(key, j))
      {
        var t := enc[i - 1];
        KeyCoreWord(nk, i, KeyWord(key, i - 1));
        NextKeyWord(key, i);
        if i % nk == 0 {
          t := XorWord(Subw(Rotw(t)), RconWord(i / nk - 1));
        } else if nk > 6 && i % nk == 4 {
          t := Subw(t);
        }
        enc[i] := XorWord(enc[i - nk], t);
        i := i + 1;
      }
    }

    /** Derive the decryption key: the round keys in reverse, all but the first and last transformed. */
    method DeriveDec(key: aesKey)
      requires Sized() && rounds == Rounds(key)
      requires forall i: nat :: i < 4 * (rounds + 1) ==> enc[i] == ColumnWord(KeyWord(key, i))
      modifies dec
      ensures Expanded(key)
    {
      hide ColumnWord, KeyWord, InvMixColumn, InvMixWord;
      var n := RoundKeysSize();
      var i := 0;
      ghost var done := 0;
      while i < n
        invariant i == 4 * done && done <= rounds + 1
        invariant forall r: nat, j: nat :: r < done && j < 4 ==> dec[4 * r + j] == ColumnWord(DecColumn(key, r, j))
      {
        var ei := n - i - 4;
        for j := 0 to 4
          invariant forall r: nat, j: nat :: r < done && j < 4 ==> dec[4 * r + j] == ColumnWord(DecColumn(key, r, j))
          invariant forall m: nat :: m < j ==> dec[4 * done + m] == ColumnWord(DecColumn(key, done, m))
        {
          var x := enc[ei + j];
          InvMixWordColumn(KeyWord(key, ei + j));
          if i > 0 && i + 4 < n {
            x := InvMixWord(x);
          }
          dec[i + j] := x;
        }
        i := i + 4;
        done := done + 1;
      }
    }

    method ExpandKeyGeneric(key: aesKey)
      requires Sized() && rounds == Rounds(key)
      modifies enc, dec
      ensures Expanded(key)
    {
      ExpandEnc(key);
      DeriveDec(key);
    }

    lemma Sizes(key: aesKey)
      requires Expanded(key)
      ensures enc.Length == 60 == dec.Length && rounds == Rounds(key) && 10 <= rounds <= 14
    {
    }

    lemma EncHolds(key: aesKey, r: nat)
      requires Expanded(key) && r <= rounds
      ensures Holds(enc[4 * r], enc[4 * r + 1], enc[4 * r + 2], enc[4 * r + 3], RoundKey(key, r))
    {
      hide ColumnWord, KeyWord;
    }

    lemma DecHolds(key: aesKey, r: nat)
      requires Expanded(key) && r <= rounds
      ensures var k := RoundKey(key, rounds - r);
              Holds(dec[4 * r], dec[4 * r + 1], dec[4 * r + 2], dec[4 * r + 3],
                    if 0 < r < rounds then InvMixColumns(k) else k)
    {
      hide ColumnWord, KeyWord, InvMixColumn;
      assert dec[4 * r + 0] == ColumnWord(DecColumn(key, r, 0));
      assert dec[4 * r + 1] == ColumnWord(DecColumn(key, r, 1));
      assert dec[4 * r + 2] == ColumnWord(DecColumn(key, r, 2));
      assert dec[4 * r + 3] == ColumnWord(DecColumn(key, r, 3));
    }

    lemma EncRound(key: aesKey, input: State, r: nat, s0: word, s1: word, s2: word, s3: word)
      requires Expanded(key) && r + 1 < rounds && Holds(s0, s1, s2, s3, AfterRounds(key, input, r))
      ensures enc.Length == 60 && 4 * r + 8 <= 60
      ensures var k := 4 * r + 4;
              Holds(TeWord(enc[k], s0, s1, s2, s3), TeWord(enc[k + 1], s1, s2, s3, s0),
                    TeWord(enc[k + 2], s2, s3, s0, s1), TeWord(enc[k + 3], s3, s0, s1, s2),
                    AfterRounds(key, input, r + 1))
    {
      hide Expanded, Rounds, Holds, TeWord, MixColumns, AddRoundKey, ShiftSub, RoundKey;
      Sizes(key);
      EncHolds(key, r + 1);
      var k := 4 * r + 4;
      TableRound(s0, s1, s2, s3, AfterRounds(key, input, r), enc[k], enc[k + 1], enc[k + 2], enc[k + 3], RoundKey(key, r + 1));
    }

    lemma DecRound(key: aesKey, input: State, r: nat, s0: word, s1: word, s2: word, s3: word)
      requires Expanded(key) && r + 1 < rounds <= Rounds(key) && Holds(s0, s1, s2, s3, AfterInvRounds(key, input, r))
      ensures dec.Length == 60 && 4 * r + 8 <= 60
      ensures var k := 4 * r + 4;
              Holds(TdWord(dec[k], s0, s3, s2, s1), TdWord(dec[k + 1], s1, s0, s3, s2),
                    TdWord(dec[k + 2], s2, s1, s0, s3), TdWord(dec[k + 3], s3, s2, s1, s0),
                    AfterInvRounds(key, input, r + 1))
    {
      hide Expanded, Rounds, Holds, TdWord, InvMixColumns, AddRoundKey, InvShiftSub, RoundKey, AfterInvRounds;
      Sizes(key);
      InvRoundStep(key, input, r);
      DecHolds(key, r + 1);
      var k := 4 * r + 4;
      InverseTableRound(s0, s1, s2, s3, AfterInvRounds(key, input, r),
                        dec[k], dec[k + 1], dec[k + 2], dec[k + 3], RoundKey(key, rounds - (r + 1)));
    }

    lemma EncLast(key: aesKey, input: State, t0: word, t1: word, t2: word, t3: word)
      requires Expanded(key) && 0 < rounds <= Rounds(key) && Holds(t0, t1, t2, t3, AfterRounds(key, input, rounds - 1))
      ensures enc.Length == 60 && 4 * rounds + 4 <= 60
      ensures var k := 4 * rounds;
              Holds(XorWord(Sbox0Word(t0, t1, t2, t3), enc[k]),
                    XorWord(Sbox0Word(t1, t2, t3, t0), enc[k + 1]),
                    XorWord(Sbox0Word(t2, t3, t0, t1), enc[k + 2]),
                    XorWord(Sbox0Word(t3, t0, t1, t2), enc[k + 3]),
                    Cipher(key, input))
    {
      hide *;
      Sizes(key);
      CipherEnds(key, input);
      LastRound(t0, t1, t2, t3, AfterRounds(key, input, rounds - 1));
      EncHolds(key, rounds);
      var k := 4 * rounds;
      HoldsXor(Sbox0Word(t0, t1, t2, t3),
               Sbox0Word(t1, t2, t3, t0),
               Sbox0Word(t2, t3, t0, t1),
               Sbox0Word(t3, t0, t1, t2), ShiftSub(AfterRounds(key, input, rounds - 1)),
               enc[k], enc[k + 1], enc[k + 2], enc[k + 3], RoundKey(key, rounds));
    }

    lemma DecLast(key: aesKey, input: State, t0: word, t1: word, t2: word, t3: word)
      requires Expanded(key) && 0 < rounds <= Rounds(key) && Holds(t0, t1, t2, t3, AfterInvRounds(key, input, rounds - 1))
      ensures dec.Length == 60 && 4 * rounds + 4 <= 60
      ensures var k := 4 * rounds;
              Holds(XorWord(Sbox1Word(t0, t3, t2, t1), dec[k]),
                    XorWord(Sbox1Word(t1, t0, t3, t2), dec[k + 1]),
                    XorWord(Sbox1Word(t2, t1, t0, t3), dec[k + 2]),
                    XorWord(Sbox1Word(t3, t2, t1, t0), dec[k + 3]),
                    InvCipher(key, input))
    {
      hide *;
      Sizes(key);
      InvRoundSteps(key, input);
      LastRound(t0, t1, t2, t3, AfterInvRounds(key, input, rounds - 1));
      var k := 4 * rounds;
      DecHolds(key, rounds);
      assert Holds(dec[k], dec[k + 1], dec[k + 2], dec[k + 3], RoundKey(key, 0));
      HoldsXor(Sbox1Word(t0, t3, t2, t1),
               Sbox1Word(t1, t0, t3, t2),
               Sbox1Word(t2, t1, t0, t3),
               Sbox1Word(t3, t2, t1, t0), InvShiftSub(AfterInvRounds(key, input, rounds - 1)),
               dec[k], dec[k + 1], dec[k + 2], dec[k + 3], RoundKey(key, 0));
    }

    /** Encrypts one block; dst and src may be the same buffer. */
    method EncryptBlockGeneric(ghost key: aesKey, dst: array<octet>, src: array<octet>)
      requires Expanded(key) && dst.Length >= 16 && src.Length >= 16
      modifies dst
      ensures dst[..] == StateBytes(Cipher(key, StateOf(old(src[..16])))) + old(dst[16..])
    {
      hide Expanded, Rounds, Uint32, Holds, StateOf, StateBytes, ColumnWord, KeyWord, RoundKey, XorWord, TeWord, Sbox0Word,
           AddRoundKey, MixColumns, ShiftSub;
      ghost var input := StateOf(src[..16]);
      Sizes(key);
      var s0, s1, s2, s3 := LoadWords(src);

      EncHolds(key, 0);
      HoldsXor(s0, s1, s2, s3, input, enc[0], enc[1], enc[2], enc[3], RoundKey(key, 0));
      s0, s1, s2, s3 := XorWord(s0, enc[0]), XorWord(s1, enc[1]), XorWord(s2, enc[2]), XorWord(s3, enc[3]);

      var k := 4;
      var t0, t1, t2, t3 := 0, 0, 0, 0;
      for r := 0 to rounds - 1
        modifies {}
        invariant k == 4 * r + 4
        invariant Holds(s0, s1, s2, s3, AfterRounds(key, input, r))
        invariant r > 0 ==> t0 == s0 && t1 == s1 && t2 == s2 && t3 == s3
      {
        EncRound(key, input, r, s0, s1, s2, s3);
        t0 := TeWord(enc[k], s0, s1, s2, s3);
        t1 := TeWord(enc[k + 1], s1, s2, s3, s0);
        t2 := TeWord(enc[k + 2], s2, s3, s0, s1);
        t3 := TeWord(enc[k + 3], s3, s0, s1, s2);
        k := k + 4;
        s0, s1, s2, s3 := t0, t1, t2, t3;
      }

      EncLast(key, input, t0, t1, t2, t3);
      s0 := Sbox0Word(t0, t1, t2, t3);
      s1 := Sbox0Word(t1, t2, t3, t0);
      s2 := Sbox0Word(t2, t3, t0, t1);
      s3 := Sbox0Word(t3, t0, t1, t2);

      s0, s1, s2, s3 := XorWord(s0, enc[k]), XorWord(s1, enc[k + 1]), XorWord(s2, enc[k + 2]), XorWord(s3, enc[k + 3]);
      PutWords(dst, s0, s1, s2, s3, Cipher(key, input));
    }

    /** Decrypts one block by the equivalent inverse cipher. */
    method DecryptBlockGeneric(ghost key: aesKey, dst: array<octet>, src: array<octet>)
      requires Expanded(key) && dst.Length >= 16 && src.Length >= 16
      modifies dst
      ensures dst[..] == StateBytes(InvCipher(key, StateOf(old(src[..16])))) + old(dst[16..])
    {
      hide Expanded, Rounds, Uint32, Holds, StateOf, StateBytes, ColumnWord, KeyWord, RoundKey, XorWord, TdWord, Sbox1Word,
           AddRoundKey, InvMixColumns, InvShiftSub, AfterInvRounds, InvCipher;
      ghost var input := StateOf(src[..16]);
      Sizes(key);
      var s0, s1, s2, s3 := LoadWords(src);

      InvRoundSteps(key, input);
      DecHolds(key, 0);
      HoldsXor(s0, s1, s2, s3, input, dec[0], dec[1], dec[2], dec[3], RoundKey(key, rounds));
      s0, s1, s2, s3 := XorWord(s0, dec[0]), XorWord(s1, dec[1]), XorWord(s2, dec[2]), XorWord(s3, dec[3]);

      var k := 4;
      var t0, t1, t2, t3 := 0, 0, 0, 0;
      for r := 0 to rounds - 1
        modifies {}
        invariant k == 4 * r + 4
        invariant Holds(s0, s1, s2, s3, AfterInvRounds(key, input, r))
        invariant r > 0 ==> t0 == s0 && t1 == s1 && t2 == s2 && t3 == s3
      {
        DecRound(key, input, r, s0, s1, s2, s3);
        t0 := TdWord(dec[k], s0, s3, s2, s1);
        t1 := TdWord(dec[k + 1], s1, s0, s3, s2);
        t2 := TdWord(dec[k + 2], s2, s1, s0, s3);
        t3 := TdWord(dec[k + 3], s3, s2, s1, s0);
        k := k + 4;
        s0, s1, s2, s3 := t0, t1, t2, t3;
      }

      DecLast(key, input, t0, t1, t2, t3);
      s0 := Sbox1Word(t0, t3, t2, t1);
      s1 := Sbox1Word(t1, t0, t3, t2);
      s2 := Sbox1Word(t2, t1, t0, t3);
      s3 := Sbox1Word(t3, t2, t1, t0);

      s0, s1, s2, s3 := XorWord(s0, dec[k]), XorWord(s1, dec[k + 1]), XorWord(s2, dec[k + 2]), XorWord(s3, dec[k + 3]);
      PutWords(dst, s0, s1, s2, s3, InvCipher(key, input));
    }
  }

  /** New: an expanded block for a key of 16, 24 or 32 bytes, and an error for any other length. */
  method New(key: seq<octet>) returns (b: Option<BlockExpanded>)
    ensures b.Some? <==> IsKey(key)
    ensures b.Some? ==> fresh(b.value) && fresh(b.value.enc) && fresh(b.value.dec) && b.value.Expanded(key)
  {
    if |key| != 16 && |key| != 24 && |key| != 32 {
      return None;
    }
    var c := new BlockExpanded();
    c.rounds := if |key| == 16 then 10 else if |key| == 24 then 12 else 14;
    c.ExpandKeyGeneric(key);
    b := Some(c);
  }

  /** A block encrypted and then decrypted under the same key comes back. */
  lemma DecryptUndoesEncrypt(key: aesKey, b: seq<octet>)
    requires |b| == 16
    ensures StateBytes(InvCipher(key, StateOf(StateBytes(Cipher(key, StateOf(b)))))) == b
  {
    hide *;
    StateBytesRoundTrip(Cipher(key, StateOf(b)), b);
    InvCipherUndoesCipher(key, StateOf(b));
  }
}
