/** The cipher of FIPS 197, as section 5.1 has it, and what the key scramble has to do with it. */
module Cipher {
  import opened Octets
  import opened Ec2b
  import Ec2bTables

  // ---------- the S-box ----------

  /** The product of two bytes in GF(2^8): the sum of the multiples of x by the powers of 2 in y. */
  function Times(x: octet, y: octet): octet {
    var x1 := Ec2bTables.Mul2(x);
    var x2 := Ec2bTables.Mul2(x1);
    var x3 := Ec2bTables.Mul2(x2);
    var x4 := Ec2bTables.Mul2(x3);
    var x5 := Ec2bTables.Mul2(x4);
    var x6 := Ec2bTables.Mul2(x5);
    var x7 := Ec2bTables.Mul2(x6);
    (if y & 0x01 == 0 then 0 else x) ^ (if y & 0x02 == 0 then 0 else x1)
    ^ (if y & 0x04 == 0 then 0 else x2) ^ (if y & 0x08 == 0 then 0 else x3)
    ^ (if y & 0x10 == 0 then 0 else x4) ^ (if y & 0x20 == 0 then 0 else x5)
    ^ (if y & 0x40 == 0 then 0 else x6) ^ (if y & 0x80 == 0 then 0 else x7)
  }

  function Turned(x: octet, n: nat): octet
    requires n <= 8
  { x.RotateLeft(n) }

  /** The affine map of section 5.1.1: bit i is the sum of bits i, i + 4, i + 5, i + 6 and i + 7, and of 0x63. */
  function Affine(x: octet): octet { x ^ Turned(x, 1) ^ Turned(x, 2) ^ Turned(x, 3) ^ Turned(x, 4) ^ 0x63 }

  function Unaffine(x: octet): octet { Turned(x, 1) ^ Turned(x, 3) ^ Turned(x, 6) ^ 0x05 }

  /** The S-box of section 5.1.1: the affine map of the inverse, 0 counting as its own. */
  lemma SboxIs(x: octet) returns (y: octet)
    ensures Ec2bTables.Sbox(x) == Affine(y) && if x == 0 then y == 0 else Times(x, y) == 1
  {
    y := Unaffine(Ec2bTables.Sbox(x));
    AffineBack(Ec2bTables.Sbox(x));
    if x & 0x80 == 0 {
      InvertsLow(x);
    } else if x & 0xE0 == 0x80 {
      InvertsFrom80(x);
    } else if x & 0xE0 == 0xA0 {
      InvertsFromA0(x);
    } else if x & 0xE0 == 0xC0 {
      InvertsFromC0(x);
    } else {
      InvertsFromE0(x);
    }
  }

  lemma AffineBack(x: octet)
    ensures Affine(Unaffine(x)) == x
  {}

  lemma InvertsLow(x: octet)
    requires x & 0x80 == 0
    ensures var y := Unaffine(Ec2bTables.Sbox(x)); if x == 0 then y == 0 else Times(x, y) == 1
  {}

  lemma InvertsFrom80(x: octet)
    requires x & 0xE0 == 0x80
    ensures var y := Unaffine(Ec2bTables.Sbox(x)); if x == 0 then y == 0 else Times(x, y) == 1
  {}

  lemma InvertsFromA0(x: octet)
    requires x & 0xE0 == 0xA0
    ensures var y := Unaffine(Ec2bTables.Sbox(x)); if x == 0 then y == 0 else Times(x, y) == 1
  {}

  lemma InvertsFromC0(x: octet)
    requires x & 0xE0 == 0xC0
    ensures var y := Unaffine(Ec2bTables.Sbox(x)); if x == 0 then y == 0 else Times(x, y) == 1
  {}

  lemma InvertsFromE0(x: octet)
    requires x & 0xE0 == 0xE0
    ensures var y := Unaffine(Ec2bTables.Sbox(x)); if x == 0 then y == 0 else Times(x, y) == 1
  {}

  // ---------- the cipher ----------

  /** Row r of the state moves r columns to the left: bytes 4 * c + r of the state make up row r. */
  function ShiftRows(s: State): State { seq(16, i requires 0 <= i < 16 => s[4 * ((i / 4 + i % 4) % 4) + i % 4]) }

  function SubBytes(s: State): State { Sub(Ec2bTables.Sbox, s) }

  function MixColumns(s: State): State { Mix(MixColumnForward, s) }

  /** A column of the example in appendix B of FIPS 197. */
  lemma MixColumnExample()
    ensures MixColumnForward(Column(0xd4, 0xbf, 0x5d, 0x30)) == Column(0x04, 0x66, 0x81, 0xe5)
  {}

  /** A round of the cipher; the last one does not mix columns. */
  function EncipherRound(s: State, k: State, last: bool): State {
    var t := ShiftRows(SubBytes(s));
    AddKey(if last then t else MixColumns(t), k)
  }

  /** The cipher after n of its ten rounds. */
  function Enciphered(s: State, w: seq<State>, n: nat): State
    requires n < |w|
  { if n == 0 then AddKey(s, w[0]) else EncipherRound(Enciphered(s, w, n - 1), w[n], n == 10) }

  function Encipher(s: State, w: seq<State>): State
    requires |w| == 11
  { Enciphered(s, w, 10) }

  // ---------- the scramble is its inverse ----------

  /** The keys of the cipher the scramble undoes (section 5.3.5): those of the scramble backwards, and, but for
      the first and the last, mixed. */
  function CipherKeys(keys: seq<State>): (w: seq<State>)
    requires |keys| == 11
    ensures |w| == 11
  { seq(11, r requires 0 <= r < 11 => if r == 0 || r == 10 then keys[10-r] else MixColumns(keys[10-r])) }

  lemma ShiftIsShift(s: State)
    ensures ShiftRows(s) == Permute(SHIFT, s)
  {
    forall i | 0 <= i < 16 ensures SHIFT[i] == 4 * ((i / 4 + i % 4) % 4) + i % 4 { TableShifts(i); }
  }

  lemma TableShifts(i: nat)
    requires i < 16
    ensures SHIFT[i] == 4 * ((i / 4 + i % 4) % 4) + i % 4
  {}

  lemma SubShift(f: octet -> octet, s: State)
    ensures Sub(f, Permute(SHIFT, s)) == Permute(SHIFT, Sub(f, s))
  {}

  /** Shifting and substituting undo what a round of the scramble starts with. */
  lemma RoundStarts(s: State)
    ensures ShiftRows(SubBytes(Permute(SHIFT_INV, Sub(Ec2bTables.SboxInv, s)))) == s
  {
    var u := Permute(SHIFT_INV, Sub(Ec2bTables.SboxInv, s));
    ShiftIsShift(SubBytes(u));
    SubShift(Ec2bTables.Sbox, u);
    ShiftUndone(Sub(Ec2bTables.SboxInv, s));
    forall x ensures Ec2bTables.Sbox(Ec2bTables.SboxInv(x)) == x { Ec2bTables.SboxesInverse(x); }
    SubUndone(Ec2bTables.SboxInv, Ec2bTables.Sbox, s);
  }

  // ---------- mixing columns distributes over sums ----------

  function AddColumn(c: Column, d: Column): Column {
    Column(XorByte(c.a, d.a), XorByte(c.b, d.b), XorByte(c.c, d.c), XorByte(c.d, d.d))
  }

  lemma ForwardOfSum(a: octet, b: octet, c: octet, d: octet, e: octet, f: octet, g: octet, h: octet)
    ensures Ec2bTables.Forward(XorByte(a, e), XorByte(b, f), XorByte(c, g), XorByte(d, h))
         == XorByte(Ec2bTables.Forward(a, b, c, d), Ec2bTables.Forward(e, f, g, h))
  {
    Ec2bTables.Mul2Xor(a, e);
    Ec2bTables.Mul2Xor(b, f);
    Ec2bTables.Swap(Ec2bTables.Mul2(b), Ec2bTables.Mul2(f), b, f);
    Ec2bTables.AddSums(Ec2bTables.Mul2(a), Ec2bTables.Mul3(b), c, d, Ec2bTables.Mul2(e), Ec2bTables.Mul3(f), g, h);
  }

  lemma MixOfSum(c: Column, d: Column)
    ensures MixColumnForward(AddColumn(c, d)) == AddColumn(MixColumnForward(c), MixColumnForward(d))
  {
    ForwardOfSum(c.a, c.b, c.c, c.d, d.a, d.b, d.c, d.d);
    ForwardOfSum(c.b, c.c, c.d, c.a, d.b, d.c, d.d, d.a);
    ForwardOfSum(c.c, c.d, c.a, c.b, d.c, d.d, d.a, d.b);
    ForwardOfSum(c.d, c.a, c.b, c.c, d.d, d.a, d.b, d.c);
  }

  lemma KeyColumn(s: State, k: State, j: nat)
    requires j < 4
    ensures ColumnAt(AddKey(s, k), j) == AddColumn(ColumnAt(s, j), ColumnAt(k, j))
  {}

  lemma MixesKey(s: State, k: State)
    ensures MixColumns(AddKey(s, k)) == AddKey(MixColumns(s), MixColumns(k))
  {
    var t, u := MixColumns(AddKey(s, k)), AddKey(MixColumns(s), MixColumns(k));
    forall j | 0 <= j < 4 ensures ColumnAt(t, j) == ColumnAt(u, j) { MixedColumns(s, k, j); }
    SameColumns(t, u);
  }

  lemma MixedColumns(s: State, k: State, j: nat)
    requires j < 4
    ensures ColumnAt(MixColumns(AddKey(s, k)), j) == ColumnAt(AddKey(MixColumns(s), MixColumns(k)), j)
  {
    MixColumn(MixColumnForward, AddKey(s, k), j);
    MixColumn(MixColumnForward, s, j);
    MixColumn(MixColumnForward, k, j);
    KeyColumn(s, k, j);
    KeyColumn(MixColumns(s), MixColumns(k), j);
    MixOfSum(ColumnAt(s, j), ColumnAt(k, j));
  }

  // ---------- round by round ----------

  /** The state in the middle of the n-th round of the scramble. */
  function Midway(s: State, keys: seq<State>, n: nat): State
    requires 0 < n < |keys|
  { Permute(SHIFT_INV, Sub(Ec2bTables.SboxInv, Rounds(Aes(), s, keys, n - 1))) }

  ghost predicate IsMidway(s: State, keys: seq<State>, n: nat, t: State) {
    0 < n < |keys| && forall i: nat {:trigger Midway(s, keys, i)} :: i == n ==> t == Midway(s, keys, i)
  }

  /** w are the keys of the cipher, which is at the middle of the scramble's last round when it has added the
      first. */
  ghost predicate Backwards(s: State, keys: seq<State>, c: State, w: seq<State>) {
    && |keys| == |w| == 11 && IsMidway(s, keys, 10, AddKey(c, w[0])) && w[10] == keys[0]
    && forall r {:trigger w[r]} :: 0 < r < 10 ==> w[r] == MixColumns(keys[10-r])
  }

  /** The cipher's round number i leads to the middle of round 10 - i of the scramble. */
  lemma {:induction false} Retraces(s: State, keys: seq<State>, c: State, w: seq<State>, i: nat)
    requires Backwards(s, keys, c, w) && i < 10
    ensures IsMidway(s, keys, 10 - i, Enciphered(c, w, i))
    decreases i
  {
    if i > 0 {
      Retraces(s, keys, c, w, i - 1);
      Retrace(s, keys, c, w, i, Enciphered(c, w, i - 1), Enciphered(c, w, i));
    }
  }

  lemma Retrace(s: State, keys: seq<State>, c: State, w: seq<State>, i: nat, t: State, u: State)
    requires Backwards(s, keys, c, w) && 0 < i < 10 && IsMidway(s, keys, 11 - i, t)
    requires u == EncipherRound(t, w[i], false)
    ensures IsMidway(s, keys, 10 - i, u)
  {
    assert t == Midway(s, keys, 11 - i);
    RetraceAt(s, keys, 10 - i, t);
    assert w[i] == MixColumns(keys[10-i]);
  }

  lemma RetraceAt(s: State, keys: seq<State>, n: nat, t: State)
    requires |keys| == 11 && 0 < n < 10 && t == Midway(s, keys, n + 1)
    ensures AddKey(MixColumns(ShiftRows(SubBytes(t))), MixColumns(keys[n])) == Midway(s, keys, n)
  {
    var before := Rounds(Aes(), s, keys, n);
    var mid := Midway(s, keys, n);
    RoundStarts(before);
    assert before == AddKey(Mix(MixColumnInv, mid), keys[n]);
    MixesKey(Mix(MixColumnInv, mid), keys[n]);
    forall c ensures MixColumnForward(MixColumnInv(c)) == c { MixInvUndone(c); }
    MixUndone(MixColumnInv, MixColumnForward, mid);
    AddKeyUndone(mid, MixColumns(keys[n]));
  }

  /** The scramble, its mask taken off, is the inverse of the cipher: enciphering gives the key back. */
  lemma ScrambleIsInverseCipher(s: State, keys: seq<State>, mask: State)
    requires |keys| == 11
    ensures Encipher(AddKey(Scramble(Aes(), s, keys, mask), mask), CipherKeys(keys)) == s
  {
    var c, w := Rounds(Aes(), s, keys, 10), CipherKeys(keys);
    AddKeyUndone(c, mask);
    EndsUndone(s, keys, c, w);
    Retraces(s, keys, c, w, 9);
    LastRound(s, keys, Enciphered(c, w, 9), w[10]);
  }

  lemma EndsUndone(s: State, keys: seq<State>, c: State, w: seq<State>)
    requires |keys| == 11 && c == Rounds(Aes(), s, keys, 10) && w == CipherKeys(keys)
    ensures Backwards(s, keys, c, w)
  {
    AddKeyUndone(Midway(s, keys, 10), keys[10]);
  }

  lemma LastRound(s: State, keys: seq<State>, t: State, k: State)
    requires |keys| == 11 && IsMidway(s, keys, 1, t) && k == keys[0]
    ensures EncipherRound(t, k, true) == s
  {
    assert t == Midway(s, keys, 1);
    RoundStarts(Rounds(Aes(), s, keys, 0));
    AddKeyUndone(s, keys[0]);
  }
}
