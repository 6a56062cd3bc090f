/** The Ec2b key: its file form, the scramble of its 16 bytes (the equivalent inverse cipher of
    section 5.3.5 of FIPS 197), the seed made from it, and the keystream made from the seed. */
module Ec2b {
  import opened Mt19937
  import opened Octets
  import Ec2bTables

  // ---------- the scramble on values ----------

  datatype Column = Column(a: octet, b: octet, c: octet, d: octet)

  /** What the scramble is made of, each part with its inverse; the state is filled column by column. */
  datatype Parts = Parts(sub: octet -> octet, subInv: octet -> octet, mix: Column -> Column, mixInv: Column -> Column)

  ghost predicate Inverse(p: Parts) {
    && (forall x :: p.sub(p.subInv(x)) == x) && (forall x :: p.subInv(p.sub(x)) == x)
    && (forall c :: p.mix(p.mixInv(c)) == c) && (forall c :: p.mixInv(p.mix(c)) == c)
  }

  type State = s: seq<octet> | |s| == 16 witness [0, 0, 0, 0, 0, 0, 0, 0, 0, 0, 0, 0, 0, 0, 0, 0]

  function Sub(f: octet -> octet, s: State): State { seq(16, i requires 0 <= i < 16 => f(s[i])) }

  const SHIFT: seq<nat> := [0, 5, 10, 15, 4, 9, 14, 3, 8, 13, 2, 7, 12, 1, 6, 11]
  const SHIFT_INV: seq<nat> := [0, 13, 10, 7, 4, 1, 14, 11, 8, 5, 2, 15, 12, 9, 6, 3]

  predicate Places(p: seq<nat>) { |p| == 16 && forall i :: 0 <= i < 16 ==> p[i] < 16 }

  function Permute(p: seq<nat>, s: State): State
    requires Places(p)
  { seq(16, i requires 0 <= i < 16 => s[p[i]]) }

  /** Inverse row shifting (section 5.3.1): byte r of column c comes from row r, r columns to the left; it is
      byte 4 * c + r of the state. */
  predicate ShiftsBack(s: State, t: State) {
    forall i :: 0 <= i < 16 ==> t[i] == s[4 * ((i / 4 + 4 - i % 4) % 4) + i % 4]
  }

  lemma TableShiftsBack(i: nat)
    requires i < 16
    ensures SHIFT_INV[i] == 4 * ((i / 4 + 4 - i % 4) % 4) + i % 4
  {}

  lemma RowsShiftBack(s: State)
    ensures ShiftsBack(s, Permute(SHIFT_INV, s))
  {
    forall i | 0 <= i < 16 ensures SHIFT_INV[i] == 4 * ((i / 4 + 4 - i % 4) % 4) + i % 4 { TableShiftsBack(i); }
  }

  function ColumnAt(s: State, k: nat): Column
    requires k < 4
  { Column(s[4*k], s[4*k+1], s[4*k+2], s[4*k+3]) }

  function ByteAt(c: Column, j: nat): octet {
    if j == 0 then c.a else if j == 1 then c.b else if j == 2 then c.c else c.d
  }

  function Mix(f: Column -> Column, s: State): State {
    seq(16, i requires 0 <= i < 16 => ByteAt(f(ColumnAt(s, i / 4)), i % 4))
  }

  function AddKey(s: State, k: State): State { seq(16, i requires 0 <= i < 16 => XorByte(s[i], k[i])) }

  /** The round with key number r; the last one does not mix columns. */
  function Round(p: Parts, s: State, k: State, last: bool): State {
    var t := Permute(SHIFT_INV, Sub(p.subInv, s));
    AddKey(if last then t else Mix(p.mixInv, t), k)
  }

  function Unround(p: Parts, s: State, k: State, last: bool): State {
    var t := AddKey(s, k);
    Sub(p.sub, Permute(SHIFT, if last then t else Mix(p.mix, t)))
  }

  /** Rounds 1 to n, after the first key. */
  function Rounds(p: Parts, s: State, keys: seq<State>, n: nat): State
    requires n < |keys|
    decreases n
  {
    if n == 0 then AddKey(s, keys[0]) else Round(p, Rounds(p, s, keys, n - 1), keys[n], n == 10)
  }

  function Unrounds(p: Parts, s: State, keys: seq<State>, n: nat): State
    requires n < |keys|
    decreases n
  {
    if n == 0 then AddKey(s, keys[0]) else Unrounds(p, Unround(p, s, keys[n], n == 10), keys, n - 1)
  }

  /** keys: the eleven round keys; mask: added at the end. */
  function Scramble(p: Parts, s: State, keys: seq<State>, mask: State): State
    requires |keys| == 11
  { AddKey(Rounds(p, s, keys, 10), mask) }

  function Unscramble(p: Parts, s: State, keys: seq<State>, mask: State): State
    requires |keys| == 11
  { Unrounds(p, AddKey(s, mask), keys, 10) }

  // ---------- each part is undone ----------

  lemma SubUndone(f: octet -> octet, g: octet -> octet, s: State)
    requires forall x :: g(f(x)) == x
    ensures Sub(g, Sub(f, s)) == s
  {
    forall i | 0 <= i < 16 ensures Sub(g, Sub(f, s))[i] == s[i] { assert Sub(f, s)[i] == f(s[i]); }
  }

  lemma ShiftUndone(s: State)
    ensures Permute(SHIFT, Permute(SHIFT_INV, s)) == s && Permute(SHIFT_INV, Permute(SHIFT, s)) == s
  {
    forall i | 0 <= i < 16
      ensures Permute(SHIFT, Permute(SHIFT_INV, s))[i] == s[i] && Permute(SHIFT_INV, Permute(SHIFT, s))[i] == s[i]
    {
      assert SHIFT_INV[SHIFT[i]] == i && SHIFT[SHIFT_INV[i]] == i;
    }
  }

  lemma MixColumn(f: Column -> Column, s: State, k: nat)
    requires k < 4
    ensures ColumnAt(Mix(f, s), k) == f(ColumnAt(s, k))
  {
    var m, c := Mix(f, s), f(ColumnAt(s, k));
    Quarter(k, 0);
    Quarter(k, 1);
    Quarter(k, 2);
    Quarter(k, 3);
    assert m[4*k] == ByteAt(c, 0) && m[4*k+1] == ByteAt(c, 1) && m[4*k+2] == ByteAt(c, 2) && m[4*k+3] == ByteAt(c, 3);
  }

  lemma Quarter(k: nat, j: nat)
    requires j < 4
    ensures (4*k + j) / 4 == k && (4*k + j) % 4 == j
  {}

  lemma SameColumns(s: State, t: State)
    requires forall k :: 0 <= k < 4 ==> ColumnAt(s, k) == ColumnAt(t, k)
    ensures s == t
  {
    forall i | 0 <= i < 16 ensures s[i] == t[i] {
      var k := i / 4;
      assert ColumnAt(s, k) == ColumnAt(t, k);
      assert i == 4*k || i == 4*k+1 || i == 4*k+2 || i == 4*k+3;
    }
  }

  lemma MixUndone(f: Column -> Column, g: Column -> Column, s: State)
    requires forall c :: g(f(c)) == c
    ensures Mix(g, Mix(f, s)) == s
  {
    forall k | 0 <= k < 4 ensures ColumnAt(Mix(g, Mix(f, s)), k) == ColumnAt(s, k) {
      MixColumn(g, Mix(f, s), k);
      MixColumn(f, s, k);
    }
    SameColumns(Mix(g, Mix(f, s)), s);
  }

  lemma AddKeyUndone(s: State, k: State)
    ensures AddKey(AddKey(s, k), k) == s
  {
    forall i | 0 <= i < 16 ensures AddKey(AddKey(s, k), k)[i] == s[i] { XorTwice(s[i], k[i]); }
  }

  lemma RoundThenBack(p: Parts, s: State, k: State, last: bool)
    requires Inverse(p)
    ensures Unround(p, Round(p, s, k, last), k, last) == s
  {
    var t := Permute(SHIFT_INV, Sub(p.subInv, s));
    AddKeyUndone(if last then t else Mix(p.mixInv, t), k);
    MixUndone(p.mixInv, p.mix, t);
    ShiftUndone(Sub(p.subInv, s));
    SubUndone(p.subInv, p.sub, s);
  }

  lemma BackThenRound(p: Parts, s: State, k: State, last: bool)
    requires Inverse(p)
    ensures Round(p, Unround(p, s, k, last), k, last) == s
  {
    var t := AddKey(s, k);
    var u := if last then t else Mix(p.mix, t);
    SubUndone(p.sub, p.subInv, Permute(SHIFT, u));
    ShiftUndone(u);
    MixUndone(p.mix, p.mixInv, t);
    AddKeyUndone(s, k);
  }

  lemma {:induction false} RoundsThenBack(p: Parts, s: State, keys: seq<State>, n: nat)
    requires Inverse(p) && n < |keys|
    ensures Unrounds(p, Rounds(p, s, keys, n), keys, n) == s
    decreases n
  {
    if n == 0 {
      AddKeyUndone(s, keys[0]);
    } else {
      var t := Rounds(p, s, keys, n - 1);
      assert Unround(p, Round(p, t, keys[n], n == 10), keys[n], n == 10) == t by {
        RoundThenBack(p, t, keys[n], n == 10);
      }
      RoundsThenBack(p, s, keys, n - 1);
    }
  }

  lemma {:induction false} BackThenRounds(p: Parts, s: State, keys: seq<State>, n: nat)
    requires Inverse(p) && n < |keys|
    ensures Rounds(p, Unrounds(p, s, keys, n), keys, n) == s
    decreases n
  {
    if n == 0 {
      AddKeyUndone(s, keys[0]);
    } else {
      var t := Unround(p, s, keys[n], n == 10);
      BackThenRounds(p, t, keys, n - 1);
      assert Round(p, t, keys[n], n == 10) == s by { BackThenRound(p, s, keys[n], n == 10); }
    }
  }

  /** The scramble is a bijection on 16-byte keys, whatever the round keys. */
  lemma ScrambleUndone(p: Parts, s: State, keys: seq<State>, mask: State)
    requires Inverse(p) && |keys| == 11
    ensures Unscramble(p, Scramble(p, s, keys, mask), keys, mask) == s
    ensures Scramble(p, Unscramble(p, s, keys, mask), keys, mask) == s
  {
    AddKeyUndone(Rounds(p, s, keys, 10), mask);
    RoundsThenBack(p, s, keys, 10);
    BackThenRounds(p, AddKey(s, mask), keys, 10);
    AddKeyUndone(s, mask);
  }

  // ---------- the parts the program uses ----------

  function MixColumnForward(c: Column): Column {
    Column(Ec2bTables.Forward(c.a, c.b, c.c, c.d), Ec2bTables.Forward(c.b, c.c, c.d, c.a),
           Ec2bTables.Forward(c.c, c.d, c.a, c.b), Ec2bTables.Forward(c.d, c.a, c.b, c.c))
  }

  function MixColumnInv(c: Column): Column {
    Column(Ec2bTables.Backward(c.a, c.b, c.c, c.d), Ec2bTables.Backward(c.b, c.c, c.d, c.a),
           Ec2bTables.Backward(c.c, c.d, c.a, c.b), Ec2bTables.Backward(c.d, c.a, c.b, c.c))
  }

  /** S-boxes, MixColumns and InvMixColumns of FIPS 197. */
  function Aes(): Parts { Parts(Ec2bTables.Sbox, Ec2bTables.SboxInv, MixColumnForward, MixColumnInv) }

  lemma AesInverse()
    ensures Inverse(Aes())
  {
    forall x ensures Aes().sub(Aes().subInv(x)) == x && Aes().subInv(Aes().sub(x)) == x { Ec2bTables.SboxesInverse(x); }
    forall c ensures Aes().mix(Aes().mixInv(c)) == c { MixInvUndone(c); }
    forall c ensures Aes().mixInv(Aes().mix(c)) == c { MixForwardUndone(c); }
  }

  lemma MixInvUndone(c: Column)
    ensures MixColumnForward(MixColumnInv(c)) == c
  {
    Ec2bTables.ForwardBackward(c.a, c.b, c.c, c.d);
    Ec2bTables.ForwardBackward(c.b, c.c, c.d, c.a);
    Ec2bTables.ForwardBackward(c.c, c.d, c.a, c.b);
    Ec2bTables.ForwardBackward(c.d, c.a, c.b, c.c);
  }

  lemma MixForwardUndone(c: Column)
    ensures MixColumnInv(MixColumnForward(c)) == c
  {
    Ec2bTables.BackwardForward(c.a, c.b, c.c, c.d);
    Ec2bTables.BackwardForward(c.b, c.c, c.d, c.a);
    Ec2bTables.BackwardForward(c.c, c.d, c.a, c.b);
    Ec2bTables.BackwardForward(c.d, c.a, c.b, c.c);
  }

  /** So is the program's key scramble. */
  lemma KeyScrambleIsBijective(s: State, keys: seq<State>, mask: State)
    requires |keys| == 11
    ensures Unscramble(Aes(), Scramble(Aes(), s, keys, mask), keys, mask) == s
    ensures Scramble(Aes(), Unscramble(Aes(), s, keys, mask), keys, mask) == s
  {
    AesInverse();
    ScrambleUndone(Aes(), s, keys, mask);
  }

  // ---------- the scramble in place ----------

  method XorRoundKey(key: array<octet>, k: State)
    requires key.Length == 16
    modifies key
    ensures key[..] == AddKey(old(key[..]), k)
  {
    for i := 0 to 16
      invariant forall j :: 0 <= j < i ==> key[j] == XorByte(old(key[j]), k[j])
      invariant forall j :: i <= j < 16 ==> key[j] == old(key[j])
    {
      key[i] := XorByte(key[i], k[i]);
    }
  }

  method Substitute(key: array<octet>, f: octet -> octet)
    requires key.Length == 16
    modifies key
    ensures key[..] == Sub(f, old(key[..]))
  {
    for i := 0 to 16
      invariant forall j :: 0 <= j < i ==> key[j] == f(old(key[j]))
      invariant forall j :: i <= j < 16 ==> key[j] == old(key[j])
    {
      key[i] := f(key[i]);
    }
  }

  method ShiftRowsInv(key: array<octet>)
    requires key.Length == 16
    modifies key
    ensures key[..] == Permute(SHIFT_INV, old(key[..])) && ShiftsBack(old(key[..]), key[..])
  {
    var temp := key[..];
    for i := 0 to 16
      invariant forall j :: 0 <= j < i ==> key[j] == temp[SHIFT_INV[j]]
    {
      key[i] := temp[SHIFT_INV[i]];
    }
    RowsShiftBack(temp);
  }

  method Unmixed(c: Column) returns (r: Column)
    ensures r == MixColumnInv(c)
  {
    Ec2bTables.LookupIs(c.a, c.b, c.c, c.d);
    Ec2bTables.LookupIs(c.b, c.c, c.d, c.a);
    Ec2bTables.LookupIs(c.c, c.d, c.a, c.b);
    Ec2bTables.LookupIs(c.d, c.a, c.b, c.c);
    r := Column(Ec2bTables.Lookup(c.a, c.b, c.c, c.d), Ec2bTables.Lookup(c.b, c.c, c.d, c.a),
                Ec2bTables.Lookup(c.c, c.d, c.a, c.b), Ec2bTables.Lookup(c.d, c.a, c.b, c.c));
  }

  /** Mixes the column at position at. */
  method MixColInv(key: array<octet>, at: nat)
    requires at + 4 <= key.Length
    modifies key
    ensures Column(key[at], key[at+1], key[at+2], key[at+3])
         == MixColumnInv(Column(old(key[at]), old(key[at+1]), old(key[at+2]), old(key[at+3])))
    ensures key[..at] == old(key[..at]) && key[at+4..] == old(key[at+4..])
  {
    var r := Unmixed(Column(key[at], key[at+1], key[at+2], key[at+3]));
    key[at], key[at+1], key[at+2], key[at+3] := r.a, r.b, r.c, r.d;
  }

  method MixColsInv(key: array<octet>)
    requires key.Length == 16
    modifies key
    ensures key[..] == Mix(MixColumnInv, old(key[..]))
  {
    ghost var was := key[..];
    for k := 0 to 4
      invariant forall j :: 0 <= j < k ==> ColumnAt(key[..], j) == MixColumnInv(ColumnAt(was, j))
      invariant forall j :: k <= j < 4 ==> ColumnAt(key[..], j) == ColumnAt(was, j)
    {
      MixOne(key, was, k);
    }
    forall k | 0 <= k < 4 ensures ColumnAt(key[..], k) == ColumnAt(Mix(MixColumnInv, was), k) {
      MixColumn(MixColumnInv, was, k);
    }
    SameColumns(key[..], Mix(MixColumnInv, was));
  }

  method MixOne(key: array<octet>, ghost was: State, k: nat)
    requires key.Length == 16 && k < 4
    requires forall j :: k <= j < 4 ==> ColumnAt(key[..], j) == ColumnAt(was, j)
    modifies key
    ensures forall j :: 0 <= j < 4 && j != k ==> ColumnAt(key[..], j) == ColumnAt(old(key[..]), j)
    ensures ColumnAt(key[..], k) == MixColumnInv(ColumnAt(was, k))
  {
    assert ColumnAt(key[..], k) == ColumnAt(was, k);
    ghost var s := key[..];
    MixColInv(key, 4 * k);
    forall j | 0 <= j < 4 && j != k ensures ColumnAt(key[..], j) == ColumnAt(s, j) {
      if j < k {
        assert key[..4*k] == s[..4*k];
        OtherColumn(key[..], s, k, j);
      } else {
        assert key[4*k+4..] == s[4*k+4..];
        OtherColumn(key[..], s, k, j);
      }
    }
  }

  lemma OtherColumn(s: State, t: State, k: nat, j: nat)
    requires k < 4 && j < 4 && j != k
    requires j < k ==> s[..4*k] == t[..4*k]
    requires j > k ==> s[4*k+4..] == t[4*k+4..]
    ensures ColumnAt(s, j) == ColumnAt(t, j)
  {
    forall i | 4*j <= i < 4*j + 4 ensures s[i] == t[i] {
      if j < k {
        assert s[..4*k][i] == t[..4*k][i];
      } else {
        assert s[4*k+4..][i-4*k-4] == t[4*k+4..][i-4*k-4];
      }
    }
  }

  method ScrambleRound(key: array<octet>, k: State, last: bool)
    requires key.Length == 16
    modifies key
    ensures key[..] == Round(Aes(), old(key[..]), k, last)
  {
    Substitute(key, Ec2bTables.SboxInv);
    ShiftRowsInv(key);
    if !last { MixColsInv(key); }
    XorRoundKey(key, k);
  }

  method ScrambleRounds(key: array<octet>, keys: seq<State>, mask: State)
    requires key.Length == 16 && |keys| == 11
    modifies key
    ensures key[..] == Scramble(Aes(), old(key[..]), keys, mask)
  {
    ghost var was := key[..];
    XorRoundKey(key, keys[0]);
    var r := 1;
    while r < 11
      invariant 1 <= r <= 11 && key[..] == Rounds(Aes(), was, keys, r - 1)
    {
      ScrambleRound(key, keys[r], r == 10);
      r := r + 1;
    }
    XorRoundKey(key, mask);
  }

  // ---------- the round keys ----------

  const TABLE := 2816

  /** The sum of the first n pairs of a row of 16. */
  function RowSum(t0: seq<octet>, t1: seq<octet>, row: nat, n: nat): octet
    requires |t0| == |t1| == TABLE && row < 176 && n <= 16
  {
    if n == 0 then 0
    else RowSum(t0, t1, row, n - 1) ^ (t1[16 * row + n - 1] ^ t0[16 * row + n - 1])
  }

  function RoundKey(t0: seq<octet>, t1: seq<octet>, r: nat): State
    requires |t0| == |t1| == TABLE && r < 11
  { seq(16, i requires 0 <= i < 16 => RowSum(t0, t1, 16 * r + i, 16)) }

  function RoundKeys(t0: seq<octet>, t1: seq<octet>): (s: seq<State>)
    requires |t0| == |t1| == TABLE
    ensures |s| == 11
  { seq(11, r requires 0 <= r < 11 => RoundKey(t0, t1, r)) }

  /** The sum of some bytes. */
  function Total(s: seq<octet>): octet { if s == [] then 0 else XorByte(s[0], Total(s[1..])) }

  lemma {:induction false} TotalSnoc(s: seq<octet>, x: octet)
    ensures Total(s + [x]) == XorByte(Total(s), x)
  {
    var all := s + [x];
    if s == [] {
      assert all[1..] == [];
      XorCommutes(x, 0);
    } else {
      TotalSnoc(s[1..], x);
      assert all[1..] == s[1..] + [x];
      XorAssociates(s[0], Total(s[1..]), x);
    }
  }

  lemma {:induction false} RowSumIs(t0: seq<octet>, t1: seq<octet>, row: nat, n: nat)
    requires |t0| == |t1| == TABLE && row < 176 && n <= 16
    ensures var at := 16 * row; RowSum(t0, t1, row, n) == XorByte(Total(t0[at..at + n]), Total(t1[at..at + n]))
  {
    var at := 16 * row;
    if n > 0 {
      RowSumIs(t0, t1, row, n - 1);
      assert t0[at..at + n] == t0[at..at + n - 1] + [t0[at + n - 1]];
      assert t1[at..at + n] == t1[at..at + n - 1] + [t1[at + n - 1]];
      TotalSnoc(t0[at..at + n - 1], t0[at + n - 1]);
      TotalSnoc(t1[at..at + n - 1], t1[at + n - 1]);
      Exchange(Total(t0[at..at + n - 1]), Total(t1[at..at + n - 1]), t0[at + n - 1], t1[at + n - 1]);
    }
  }

  lemma Exchange(a: octet, b: octet, c: octet, d: octet)
    ensures XorByte(a, b) ^ (d ^ c) == XorByte(XorByte(a, c), XorByte(b, d))
  {}

  /** Byte i of round key r is the sum of 16 bytes of each table, from position 256 * r + 16 * i on. */
  lemma RoundKeyIsSum(t0: seq<octet>, t1: seq<octet>, r: nat, i: nat)
    requires |t0| == |t1| == TABLE && r < 11 && i < 16
    ensures var at := 256 * r + 16 * i;
            RoundKeys(t0, t1)[r][i] == XorByte(Total(t0[at..at + 16]), Total(t1[at..at + 16]))
  {
    RowSumIs(t0, t1, 16 * r + i, 16);
  }

  method RoundKeyByte(t0: seq<octet>, t1: seq<octet>, row: nat) returns (b: octet)
    requires |t0| == |t1| == TABLE && row < 176
    ensures b == RowSum(t0, t1, row, 16)
  {
    b := 0;
    for j := 0 to 16
      invariant b == RowSum(t0, t1, row, j)
    {
      b := b ^ (t1[16 * row + j] ^ t0[16 * row + j]);
    }
  }

  method MakeRoundKey(t0: seq<octet>, t1: seq<octet>, r: nat) returns (k: State)
    requires |t0| == |t1| == TABLE && r < 11
    ensures k == RoundKey(t0, t1, r)
  {
    var bytes: seq<octet> := [];
    for i := 0 to 16
      invariant |bytes| == i && forall j :: 0 <= j < i ==> bytes[j] == RowSum(t0, t1, 16 * r + j, 16)
    {
      var b := RoundKeyByte(t0, t1, 16 * r + i);
      bytes := bytes + [b];
    }
    k := bytes;
  }

  /** The whole scramble; the contents of the two tables and the mask are given. */
  method KeyScramble(key: array<octet>, t0: seq<octet>, t1: seq<octet>, mask: State)
    requires key.Length == 16 && |t0| == |t1| == TABLE
    modifies key
    ensures key[..] == Scramble(Aes(), old(key[..]), RoundKeys(t0, t1), mask)
  {
    var keys: seq<State> := [];
    for r := 0 to 11
      invariant |keys| == r && (forall j :: 0 <= j < r ==> keys[j] == RoundKey(t0, t1, j))
      invariant key[..] == old(key[..])
    {
      var k := MakeRoundKey(t0, t1, r);
      keys := keys + [k];
    }
    assert keys == RoundKeys(t0, t1);
    ScrambleRounds(key, keys, mask);
  }
}
