/** The Ec2b key as the program keeps it: loaded from its file form, turned into a seed, and the seed
    into a keystream. */
module Ec2bKeys {
  import opened Mt19937
  import opened Ec2b
  import opened Octets

  // ---------- the file form ----------

  const KEY_SIZE := 16
  const DATA_SIZE := 2048
  const FILE_SIZE := 2076

  datatype KeyFile = KeyFile(key: seq<octet>, data: seq<octet>) {
    predicate Sized() { |key| == KEY_SIZE && |data| == DATA_SIZE }
  }

  datatype Option<T> = None | Some(value: T)

  const TAG: seq<octet> := [0x45, 0x63, 0x32, 0x62]

  function Length32(s: seq<octet>, i: nat): nat
    requires i + 4 <= |s|
  { s[i] as nat + 0x100 * (s[i+1] as nat) + 0x1_0000 * (s[i+2] as nat) + 0x100_0000 * (s[i+3] as nat) }

  function LoadKey(b: seq<octet>): Option<KeyFile> {
    if |b| < FILE_SIZE || b[..4] != TAG || Length32(b, 4) != KEY_SIZE || Length32(b, 24) != DATA_SIZE then None
    else Some(KeyFile(b[8..24], b[28..FILE_SIZE]))
  }

  function FileForm(k: KeyFile): seq<octet> { TAG + ([16, 0, 0, 0] + (k.key + ([0, 8, 0, 0] + k.data))) }

  lemma NatIs(x: octet, y: octet)
    requires x as nat == y as nat
    ensures x == y
  {
    assert (x as nat) as bv8 == x;
  }

  lemma Length32Is(s: seq<octet>, i: nat, t: seq<octet>)
    requires i + 4 <= |s| && |t| == 4
    ensures Length32(s, i) == Length32(t, 0) <==> s[i..i+4] == t
  {
    if Length32(s, i) == Length32(t, 0) {
      FourDigits(s[i] as nat, s[i+1] as nat, s[i+2] as nat, s[i+3] as nat, t[0] as nat, t[1] as nat, t[2] as nat,
          t[3] as nat);
      NatIs(s[i], t[0]);
      NatIs(s[i+1], t[1]);
      NatIs(s[i+2], t[2]);
      NatIs(s[i+3], t[3]);
    }
  }

  lemma FourDigits(a: nat, b: nat, c: nat, d: nat, e: nat, f: nat, g: nat, h: nat)
    requires a < 256 && b < 256 && c < 256 && d < 256 && e < 256 && f < 256 && g < 256 && h < 256
    requires a + 0x100 * b + 0x1_0000 * c + 0x100_0000 * d == e + 0x100 * f + 0x1_0000 * g + 0x100_0000 * h
    ensures a == e && b == f && c == g && d == h
  {
    OneDigit(a, b + 0x100 * (c + 0x100 * d), e, f + 0x100 * (g + 0x100 * h));
    OneDigit(b, c + 0x100 * d, f, g + 0x100 * h);
    OneDigit(c, d, g, h);
  }

  lemma OneDigit(a: nat, b: nat, c: nat, d: nat)
    requires a < 0x100 && c < 0x100 && a + 0x100 * b == c + 0x100 * d
    ensures a == c && b == d
  {}

  lemma Lengths()
    ensures Length32([16, 0, 0, 0], 0) == KEY_SIZE && Length32([0, 8, 0, 0], 0) == DATA_SIZE
  {}

  lemma FileParts(b: seq<octet>, k: KeyFile)
    requires |b| >= FILE_SIZE && k.Sized()
    ensures b[..FILE_SIZE] == FileForm(k) <==>
            b[..4] == TAG && b[4..8] == [16, 0, 0, 0] && b[8..24] == k.key && b[24..28] == [0, 8, 0, 0]
            && b[28..FILE_SIZE] == k.data
  {
    var c := b[..FILE_SIZE];
    assert c == c[..4] + (c[4..8] + (c[8..24] + (c[24..28] + c[28..])));
    assert c[..4] == b[..4] && c[4..8] == b[4..8] && c[8..24] == b[8..24] && c[24..28] == b[24..28]
           && c[28..] == b[28..FILE_SIZE];
    var f := FileForm(k);
    assert f[..4] == TAG && f[4..8] == [16, 0, 0, 0] && f[8..24] == k.key && f[24..28] == [0, 8, 0, 0]
           && f[28..] == k.data;
  }

  /** The layout of the file: the tag, the length of the key and the key, the length of the data and the data. */
  lemma FormLayout(k: KeyFile)
    requires k.Sized()
    ensures var f := FileForm(k);
            && |f| == 2076 && f[..4] == [0x45, 0x63, 0x32, 0x62] && f[4..8] == [16, 0, 0, 0] && f[8..24] == k.key
            && f[24..28] == [0, 8, 0, 0] && f[28..] == k.data
  {}

  /** Loading and printing are inverse: bytes load to a key exactly when they start with its file form. */
  lemma LoadsItsForm(b: seq<octet>, k: KeyFile)
    ensures LoadKey(b) == Some(k) <==> k.Sized() && |b| >= FILE_SIZE && b[..FILE_SIZE] == FileForm(k)
  {
    if |b| >= FILE_SIZE {
      Length32Is(b, 4, [16, 0, 0, 0]);
      Length32Is(b, 24, [0, 8, 0, 0]);
      Lengths();
      if k.Sized() { FileParts(b, k); }
    }
  }

  // ---------- the seed ----------

  /** Eight bytes as a word, least significant first. */
  function WordAt(s: seq<octet>, i: nat): bv64
    requires i + 8 <= |s|
  {
    (s[i] as bv64) | ((s[i+1] as bv64) << 8) | ((s[i+2] as bv64) << 16) | ((s[i+3] as bv64) << 24)
    | ((s[i+4] as bv64) << 32) | ((s[i+5] as bv64) << 40) | ((s[i+6] as bv64) << 48) | ((s[i+7] as bv64) << 56)
  }

  /** The sum of the first n words. */
  function WordSum(v: bv64, data: seq<octet>, n: nat): bv64
    requires 8 * n <= |data|
  { if n == 0 then v else Xor(WordSum(v, data, n - 1), WordAt(data, 8 * (n - 1))) }

  function SeedOf(key: seq<octet>, data: seq<octet>): bv64
    requires |key| == KEY_SIZE
  {
    var v: bv64 := 0x3153C4A57987C853; // the complement of 0xCEAC3B5A867837AC
    WordSum(Xor(Xor(v, WordAt(key, 0)), WordAt(key, 8)), data, |data| / 8)
  }

  // Byte by byte, the seed is a sum of bytes eight places apart.

  /** The bytes at position j of every eight; what is left over does not count. */
  function Every(s: seq<octet>, j: nat): (r: seq<octet>)
    requires j < 8
    ensures |r| == |s| / 8
  { seq(|s| / 8, i requires 0 <= i < |s| / 8 => s[8 * i + j]) }

  /** The complement of the constant, least significant byte first. */
  const START: seq<octet> := [0x53, 0xC8, 0x87, 0x79, 0xA5, 0xC4, 0x53, 0x31]

  function SeedBytes(key: seq<octet>, data: seq<octet>): (r: seq<octet>)
    requires |key| == KEY_SIZE
    ensures |r| == 8
  { Added(Plus(Plus(START, key[..8]), key[8..]), data) }

  function Plus(s: seq<octet>, t: seq<octet>): (r: seq<octet>)
    requires |s| == |t| == 8
    ensures |r| == 8
  { seq(8, j requires 0 <= j < 8 => XorByte(s[j], t[j])) }

  function Added(s: seq<octet>, data: seq<octet>): (r: seq<octet>)
    requires |s| == 8
    ensures |r| == 8
  { seq(8, j requires 0 <= j < 8 => XorByte(s[j], Total(Every(data, j)))) }

  /** Reading a word and writing it give back its eight bytes. */
  lemma WordReadsBack(s: seq<octet>, i: nat)
    requires i + 8 <= |s|
    ensures LittleEndian(WordAt(s, i)) == s[i..i+8]
  {}

  lemma WordOfSum(s: seq<octet>, t: seq<octet>, u: seq<octet>)
    requires |s| == |t| == |u| == 8 && forall i :: 0 <= i < 8 ==> u[i] == XorByte(s[i], t[i])
    ensures Xor(WordAt(s, 0), WordAt(t, 0)) == WordAt(u, 0)
  {}

  lemma WordThere(s: seq<octet>, i: nat)
    requires i + 8 <= |s|
    ensures WordAt(s, i) == WordAt(s[i..i+8], 0)
  {}

  /** Adding the n-th eight bytes after those before. */
  lemma AddedMore(s: seq<octet>, data: seq<octet>, n: nat, j: nat)
    requires |s| == 8 && 0 < n && 8 * n <= |data| && j < 8
    ensures Added(s, data[..8*n])[j] == XorByte(Added(s, data[..8*(n-1)])[j], data[8 * (n - 1) + j])
  {
    var before, x := Every(data[..8*(n-1)], j), data[8 * (n - 1) + j];
    assert Every(data[..8*n], j) == before + [x];
    TotalSnoc(before, x);
    XorAssociates(s[j], Total(before), x);
  }

  lemma {:induction false} WordsAdded(v: bv64, s: seq<octet>, data: seq<octet>, n: nat)
    requires |s| == 8 && v == WordAt(s, 0) && 8 * n <= |data|
    ensures WordSum(v, data, n) == WordAt(Added(s, data[..8*n]), 0)
  {
    if n == 0 {
      assert Added(s, data[..0]) == s by { NothingAdded(s, data[..0]); }
    } else {
      var at := 8 * (n - 1);
      WordsAdded(v, s, data, n - 1);
      WordThere(data, at);
      forall j | 0 <= j < 8 ensures Added(s, data[..8*n])[j] == XorByte(Added(s, data[..at])[j], data[at..at+8][j]) {
        AddedMore(s, data, n, j);
      }
      WordOfSum(Added(s, data[..at]), data[at..at+8], Added(s, data[..8*n]));
    }
  }

  lemma NothingAdded(s: seq<octet>, data: seq<octet>)
    requires |s| == 8 && data == []
    ensures Added(s, data) == s
  {
    forall j | 0 <= j < 8 ensures Added(s, data)[j] == s[j] { assert Total(Every(data, j)) == 0; }
  }

  lemma StartWord()
    ensures WordAt(START, 0) == 0x3153C4A57987C853
  {}

  /** Byte j of the seed is the sum of byte j of the constant and of the bytes at position j of every eight, of
      the key and of the data. */
  lemma SeedIs(key: seq<octet>, data: seq<octet>)
    requires |key| == KEY_SIZE
    ensures LittleEndian(SeedOf(key, data)) == SeedBytes(key, data)
  {
    var n := |data| / 8;
    var s := Plus(START, key[..8]);
    StartWord();
    WordThere(key, 0);
    WordThere(key, 8);
    assert key[0..8] == key[..8] && key[8..16] == key[8..];
    WordOfSum(START, key[..8], s);
    WordOfSum(s, key[8..], Plus(s, key[8..]));
    WordsAdded(WordAt(Plus(s, key[8..]), 0), Plus(s, key[8..]), data, n);
    WordReadsBack(Added(Plus(s, key[8..]), data[..8*n]), 0);
    WholeEights(Plus(s, key[8..]), data);
  }

  lemma WholeEights(s: seq<octet>, data: seq<octet>)
    requires |s| == 8
    ensures Added(s, data[..8 * (|data| / 8)]) == Added(s, data)
  {
    forall j | 0 <= j < 8 ensures Every(data[..8 * (|data| / 8)], j) == Every(data, j) {}
  }

  method GetSeed(key: seq<octet>, data: seq<octet>) returns (v: bv64)
    requires |key| == KEY_SIZE
    ensures v == SeedOf(key, data)
  {
    v := 0x3153C4A57987C853;
    v := Xor(v, WordAt(key, 0));
    v := Xor(v, WordAt(key, 8));
    ghost var start := v;
    for i := 0 to |data| / 8
      invariant v == WordSum(start, data, i)
    {
      v := Xor(v, WordAt(data, 8 * i));
    }
  }

  /** v is the seed of a key file. */
  ghost predicate IsSeedOf(file: KeyFile, keys: seq<State>, mask: State, v: bv64) {
    && file.Sized() && |keys| == 11
    && forall k: KeyFile {:trigger SeedOf(Scramble(Aes(), k.key, keys, mask), k.data)} ::
         k == file ==> v == SeedOf(Scramble(Aes(), k.key, keys, mask), k.data)
  }

  method FileSeed(file: KeyFile, t0: seq<octet>, t1: seq<octet>, mask: State) returns (v: bv64)
    requires file.Sized() && |t0| == |t1| == TABLE
    ensures IsSeedOf(file, RoundKeys(t0, t1), mask, v)
  {
    var k := new octet[16](i requires 0 <= i < 16 => file.key[i]);
    assert k[..] == file.key;
    KeyScramble(k, t0, t1, mask);
    v := GetSeed(k[..], file.data);
  }

  // ---------- the keystream ----------

  /** Word number i of a keystream is output number i for its seed. */
  lemma KeystreamBytes(seed: bv64, s: seq<octet>, i: nat) returns (w: bv64)
    requires IsOutputs(Little, seed, N, BLOCK / 8, s) && i < 512
    ensures |s| == 4096 && IsOutput(seed, 312 + i, w) && s[8*i..8*i+8] == LittleEndian(w)
  {
    w := OutputWord(seed, N + i);
    OutputsAt(Little, seed, N, BLOCK / 8, s, i, w);
  }

  class Key {
    const temp: array<octet>
    var seed: bv64

    ghost predicate Valid()
      reads this, temp
    { temp.Length == BLOCK && IsOutputs(Little, seed, N, BLOCK / 8, temp[..]) }

    /** The keystream of a seed. */
    constructor (s: bv64)
      ensures Valid() && seed == s && fresh(temp)
    {
      seed := s;
      temp := new octet[BLOCK];
      new;
      Fill(s, temp);
    }

    /** The key of a key file; the contents of the scramble's tables are given. */
    constructor OfFile(file: KeyFile, t0: seq<octet>, t1: seq<octet>, mask: State)
      requires |t0| == |t1| == TABLE && file.Sized()
      ensures Valid() && fresh(temp) && IsSeedOf(file, RoundKeys(t0, t1), mask, seed)
    {
      temp := new octet[BLOCK];
      new;
      seed := FileSeed(file, t0, t1, mask);
      Fill(seed, temp);
    }

    /** The key in a file, or nothing if the bytes are not those of a key file. */
    static method Load(b: seq<octet>, t0: seq<octet>, t1: seq<octet>, mask: State) returns (key: Option<Key>)
      requires |t0| == |t1| == TABLE
      ensures key.Some? <==> LoadKey(b).Some?
      ensures key.Some? ==>
                fresh(key.value) && fresh(key.value.temp) && key.value.Valid()
                && IsSeedOf(LoadKey(b).value, RoundKeys(t0, t1), mask, key.value.seed)
    {
      var file := LoadKey(b);
      if file.None? { return None; }
      var k := new Key.OfFile(file.value, t0, t1, mask);
      return Some(k);
    }

    static method Fill(s: bv64, temp: array<octet>)
      requires temp.Length == BLOCK
      modifies temp
      ensures IsOutputs(Little, s, N, BLOCK / 8, temp[..])
    {
      var r := new Source();
      r.Seed(s);
      FillBlock(Little, r, temp);
    }

    /** The first n bytes of p have been encrypted. */
    twostate predicate Added(p: array<octet>, n: nat)
      requires temp.Length == BLOCK
      reads p, temp
    {
      forall k :: 0 <= k < p.Length ==> p[k] == if k < n then XorByte(old(p[k]), temp[k % BLOCK]) else old(p[k])
    }

    /** In place, block by block; the last block may be short. */
    method Xor(p: array<octet>)
      requires temp.Length == BLOCK && p != temp
      modifies p
      ensures p[..] == Xored(old(p[..]), temp[..])
    {
      ghost var key := temp[..];
      var at := 0;
      while true
        invariant at <= p.Length && at % BLOCK == 0 && Added(p, at)
        decreases p.Length - at
      {
        XorBytes(p, at);
        if p.Length - at <= BLOCK { break; }
        at := at + BLOCK;
      }
      ghost var r := p[..];
      assert forall k :: 0 <= k < |r| ==> r[k] == XorByte(old(p[..])[k], key[k % BLOCK]);
      XoredIs(old(p[..]), key, r);
    }

    /** Adds the keystream to what starts at position at, as far as both reach. */
    method XorBytes(p: array<octet>, at: nat)
      requires temp.Length == BLOCK && p != temp && at <= p.Length && at % BLOCK == 0
      modifies p
      ensures forall k :: 0 <= k < p.Length ==>
                p[k] == if at <= k < at + BLOCK then XorByte(old(p[k]), temp[k % BLOCK]) else old(p[k])
    {
      var n := if p.Length - at < BLOCK then p.Length - at else BLOCK;
      for i := 0 to n
        invariant forall k :: 0 <= k < p.Length ==>
                    p[k] == if at <= k < at + i then XorByte(old(p[k]), temp[k % BLOCK]) else old(p[k])
      {
        assert (at + i) % BLOCK == i;
        p[at + i] := XorByte(p[at + i], temp[i]);
      }
    }
  }
}
