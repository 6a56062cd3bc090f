/** The 64-bit Mersenne Twister: an in-place block refill against the infinite recurrence it computes,
    its tempering, and the key blocks filled from it. */
module Mt19937 {
  import opened Octets

  const N := 312
  const M := 156
  const DEFAULT_SEED: bv64 := 5489
  const MATRIX_A: bv64 := 0xB5026F5AA96619E9
  const UPPER_MASK: bv64 := 0xFFFFFFFF80000000
  const LOWER_MASK: bv64 := 0x7FFFFFFF

  function Xor(x: bv64, y: bv64): bv64 { x ^ y }

  // ---------- the recurrence ----------

  /** The i-th word of the initial state, from the one before it. */
  function Init(x: bv64, i: nat): bv64
    requires i < N
  { 0x5851F42D4C957F2D * (x ^ (x >> 62)) + i as bv64 }

  function Twist(x: bv64, y: bv64): bv64 {
    var z := (x & UPPER_MASK) | (y & LOWER_MASK);
    (z >> 1) ^ (if z & 1 == 0 then 0 else MATRIX_A)
  }

  /** The sequence: 312 words from the seed, and every further word from three before it. */
  function X(seed: bv64, n: nat): bv64 {
    if n == 0 then seed
    else if n < N then Init(X(seed, n - 1), n)
    else Xor(X(seed, n - N + M), Twist(X(seed, n - N), X(seed, n - N + 1)))
  }

  // The predicates below say "w is F(n)" in a form the verifier looks into only where F(n) is
  // mentioned: loops that move words about need not know what a word is.

  /** w is the n-th word of the sequence. */
  ghost predicate IsWord(seed: bv64, n: nat, w: bv64) {
    forall i: nat {:trigger X(seed, i)} :: i == n ==> w == X(seed, i)
  }

  /** r is the output made from the n-th word. */
  ghost predicate IsOutput(seed: bv64, n: nat, r: bv64) {
    forall i: nat {:trigger X(seed, i)} :: i == n ==> r == Temper(X(seed, i))
  }

  // ---------- tempering ----------

  function Shift29(x: bv64): bv64 { (x >> 29) & 0x5555555555555555 }

  function Shift17(x: bv64): bv64 { (x << 17) & 0x71D67FFFEDA60000 }

  function Shift37(x: bv64): bv64 { (x << 37) & 0xFFF7EEE000000000 }

  function Step29(x: bv64): bv64 { Xor(x, Shift29(x)) }

  function Step17(x: bv64): bv64 { Xor(x, Shift17(x)) }

  function Step37(x: bv64): bv64 { Xor(x, Shift37(x)) }

  function Step43(x: bv64): bv64 { Xor(x, x >> 43) }

  function Temper(x: bv64): bv64 { Step43(Step37(Step17(Step29(x)))) }

  // A step is undone by repeating it until the shift has moved every bit out of the word.

  function Undo29(y: bv64): bv64 { Xor(y, Shift29(Xor(y, Shift29(y)))) }

  function Undo17(y: bv64): bv64 { Xor(y, Shift17(Xor(y, Shift17(Xor(y, Shift17(y)))))) }

  function Untemper(y: bv64): bv64 { Undo29(Undo17(Step37(Step43(y)))) }

  lemma Linear29(x: bv64, y: bv64)
    ensures Shift29(Xor(x, y)) == Xor(Shift29(x), Shift29(y))
  {}

  lemma Linear17(x: bv64, y: bv64)
    ensures Shift17(Xor(x, y)) == Xor(Shift17(x), Shift17(y))
  {}

  lemma Vanish29(x: bv64)
    ensures Shift29(Shift29(Shift29(x))) == 0
  {}

  lemma Vanish17(x: bv64)
    ensures Shift17(Shift17(Shift17(Shift17(x)))) == 0
  {}

  lemma CancelTwice(x: bv64, a: bv64)
    ensures Xor(Xor(x, a), a) == x && Xor(x, 0) == x
  {}

  lemma CancelMiddle(x: bv64, a: bv64, b: bv64)
    ensures Xor(Xor(x, a), Xor(a, b)) == Xor(x, b)
  {}

  lemma Undone29(x: bv64)
    ensures Undo29(Step29(x)) == x
  {
    var a := Shift29(x);
    var b := Shift29(a);
    assert Shift29(Xor(x, a)) == Xor(a, b) by { Linear29(x, a); }
    assert Shift29(Xor(x, b)) == a by { Linear29(x, b); Vanish29(x); CancelTwice(a, 0); }
    CancelMiddle(x, a, b);
    CancelTwice(x, a);
  }

  lemma Shifted29(y: bv64)
    ensures var ab := Xor(Shift29(y), Shift29(Shift29(y))); Undo29(y) == Xor(y, ab)
  {
    Linear29(y, Shift29(y));
  }

  lemma Fixed29(y: bv64)
    ensures var ab := Xor(Shift29(y), Shift29(Shift29(y))); Shift29(Xor(y, ab)) == ab
  {
    var a := Shift29(y);
    var b := Shift29(a);
    assert Shift29(Xor(a, b)) == b by { Linear29(a, b); Vanish29(y); CancelTwice(b, 0); }
    Linear29(y, Xor(a, b));
  }

  lemma Redone29(y: bv64)
    ensures Step29(Undo29(y)) == y
  {
    var ab := Xor(Shift29(y), Shift29(Shift29(y)));
    Shifted29(y);
    Fixed29(y);
    CancelTwice(y, ab);
  }

  lemma Undone17(x: bv64)
    ensures Undo17(Step17(x)) == x
  {
    var a := Shift17(x);
    var b := Shift17(a);
    var c := Shift17(b);
    assert Shift17(Xor(x, a)) == Xor(a, b) by { Linear17(x, a); }
    assert Shift17(Xor(x, b)) == Xor(a, c) by { Linear17(x, b); }
    assert Shift17(Xor(x, c)) == a by { Linear17(x, c); Vanish17(x); CancelTwice(a, 0); }
    CancelMiddle(x, a, b);
    CancelMiddle(x, a, c);
    CancelTwice(x, a);
  }

  function Spread17(y: bv64): bv64 {
    var a := Shift17(y);
    var b := Shift17(a);
    Xor(a, Xor(b, Shift17(b)))
  }

  lemma Twice17(y: bv64)
    ensures var a := Shift17(y); var b := Shift17(a); Shift17(Xor(y, Xor(a, b))) == Xor(a, Xor(b, Shift17(b)))
  {
    var a := Shift17(y);
    Linear17(y, Xor(a, Shift17(a)));
    Linear17(a, Shift17(a));
  }

  lemma Shifted17(y: bv64)
    ensures Undo17(y) == Xor(y, Spread17(y))
  {
    Linear17(y, Shift17(y));
    Twice17(y);
  }

  lemma Fixed17(y: bv64)
    ensures Shift17(Xor(y, Spread17(y))) == Spread17(y)
  {
    var a := Shift17(y);
    var b := Shift17(a);
    var c := Shift17(b);
    assert Shift17(Xor(b, c)) == c by { Linear17(b, c); Vanish17(y); CancelTwice(c, 0); }
    assert Shift17(Xor(a, Xor(b, c))) == Xor(b, c) by { Linear17(a, Xor(b, c)); }
    Linear17(y, Xor(a, Xor(b, c)));
  }

  lemma Redone17(y: bv64)
    ensures Step17(Undo17(y)) == y
  {
    Shifted17(y);
    Fixed17(y);
    CancelTwice(y, Spread17(y));
  }

  // A shift by more than half the word cancels itself.

  lemma Involution37(x: bv64)
    ensures Step37(Step37(x)) == x
  {}

  lemma Involution43(x: bv64)
    ensures Step43(Step43(x)) == x
  {
    assert Xor(x, x >> 43) >> 43 == x >> 43;
    CancelTwice(x, x >> 43);
  }

  /** Tempering is a bijection on 64-bit words. */
  lemma TemperIsBijective(x: bv64)
    ensures Untemper(Temper(x)) == x && Temper(Untemper(x)) == x
  {
    UndoesTemper(x);
    TempersUndone(x);
  }

  lemma UndoesTemper(x: bv64)
    ensures Untemper(Temper(x)) == x
  {
    assert Step43(Temper(x)) == Step37(Step17(Step29(x))) by { Involution43(Step37(Step17(Step29(x)))); }
    assert Step37(Step37(Step17(Step29(x)))) == Step17(Step29(x)) by { Involution37(Step17(Step29(x))); }
    assert Undo17(Step17(Step29(x))) == Step29(x) by { Undone17(Step29(x)); }
    Undone29(x);
  }

  lemma TempersUndone(y: bv64)
    ensures Temper(Untemper(y)) == y
  {
    var b := Step37(Step43(y));
    assert Step29(Untemper(y)) == Undo17(b) by { Redone29(Undo17(b)); }
    assert Step17(Undo17(b)) == b by { Redone17(b); }
    assert Step37(b) == Step43(y) by { Involution37(Step43(y)); }
    Involution43(y);
  }

  // ---------- the numbers of the standard generator ----------

  /** Every word from the 312th on comes from those 312, 311 and 156 places before. */
  lemma Lags(seed: bv64, n: nat)
    requires n >= 312
    ensures X(seed, n) == Xor(X(seed, n - 156), Twist(X(seed, n - 312), X(seed, n - 311)))
  {}

  /** The 33 high bits of one word and the 31 low bits of another, shifted out by one bit: if it is set, the
      matrix is added. */
  lemma TwistIs(x: bv64, y: bv64)
    ensures var z := (x >> 31 << 31) | (y & 0x7FFFFFFF);
            Twist(x, y) == if z & 1 == 1 then (z >> 1) ^ 0xB5026F5AA96619E9 else z >> 1
  {}

  /** The second and the third word for the default seed. */
  lemma StandardWords()
    ensures X(5489, 1) == 0xB5347F47116BD3DE && X(5489, 2) == 0x9165B5762D1A61AE
  {}

  /** The last step to the first output for the default seed, from the words 0, 1 and 156. */
  lemma StandardOutput()
    ensures Xor(0x245B1C66FA082BFF, Twist(5489, 0xB5347F47116BD3DE)) == 0x245B1C66F2BDC210
    ensures Temper(0x245B1C66F2BDC210) == 14514284786278117030
  {}

  /** A word that is odd before the shift, and one that is even. */
  lemma TwistExamples()
    ensures Twist(0x0123456789ABCDEF, 0xFEDCBA9876543211) == 0xB593CDE9524C00E1
    ensures Twist(0xFEDCBA9876543211, 0x0123456789ABCDEE) == 0x7F6E5D4C04D5E6F7
  {}

  // ---------- the generator ----------

  /** s holds N consecutive words of the sequence, from the base-th on. */
  ghost predicate Holds(s: seq<bv64>, seed: bv64, base: nat) {
    |s| == N && forall k :: 0 <= k < N ==> IsWord(seed, base + k, s[k])
  }

  method FirstWord(seed: bv64) returns (w: bv64)
    ensures w == seed && IsWord(seed, 0, w)
  { w := seed; }

  method InitialWord(prev: bv64, n: nat, ghost seed: bv64) returns (w: bv64)
    requires 0 < n < N && IsWord(seed, n - 1, prev)
    ensures IsWord(seed, n, w)
  {
    w := Init(prev, n);
    assert prev == X(seed, n - 1);
  }

  /** One word more, from three words of the block before. */
  method NextWord(a: bv64, b: bv64, c: bv64, ghost seed: bv64, ghost n: nat) returns (w: bv64)
    requires n >= N && IsWord(seed, n - N, a) && IsWord(seed, n - N + 1, b) && IsWord(seed, n - N + M, c)
    ensures IsWord(seed, n, w)
  {
    w := Xor(c, Twist(a, b));
    assert a == X(seed, n - N) && b == X(seed, n - N + 1) && c == X(seed, n - N + M);
  }

  method TemperWord(w: bv64, ghost seed: bv64, ghost n: nat) returns (r: bv64)
    requires IsWord(seed, n, w)
    ensures IsOutput(seed, n, r)
  {
    r := w;
    r := Step29(r);
    r := Step17(r);
    r := Step37(r);
    r := Step43(r);
    assert r == Temper(w);
  }

  class Source {
    const words: array<bv64>
    var index: nat

    // the seed in force, and which word of the sequence words[0] is
    ghost var seed: bv64
    ghost var base: nat

    ghost predicate Valid()
      reads this, words
    {
      && words.Length == N && index <= N + 1
      && (index <= N ==> Holds(words[..], seed, base))
      && (index == N + 1 ==> seed == DEFAULT_SEED)
    }

    /** Which word the next output is made from; after seeding, the 312th. */
    ghost function Next(): nat
      reads this
    { if index == N + 1 then N else base + index }

    /** A source nobody has seeded yet. */
    constructor ()
      ensures Valid() && fresh(words) && seed == DEFAULT_SEED && Next() == N
    {
      words := new bv64[N];
      index := N + 1;
      seed, base := DEFAULT_SEED, 0;
    }

    method Seed(s: bv64)
      requires words.Length == N
      modifies this, words
      ensures Valid() && seed == s && index == N && base == 0
    {
      words[0] := FirstWord(s);
      index := 1;
      while index < N
        invariant 1 <= index <= N
        invariant forall k :: 0 <= k < index ==> IsWord(s, k, words[k])
      {
        words[index] := InitialWord(words[index - 1], index, s);
        index := index + 1;
      }
      seed, base := s, 0;
    }

    /** The first n words are the next block's, the others this block's. */
    ghost predicate Partly(n: nat)
      reads this, words
    {
      && words.Length == N && n <= N
      && (forall k :: 0 <= k < n ==> IsWord(seed, base + N + k, words[k]))
      && (forall k :: n <= k < N ==> IsWord(seed, base + k, words[k]))
    }

    /** Replaces the i-th word by the one N places further on. */
    method RefillOne(i: nat, next: nat, far: nat)
      requires i < N && next < N && far < N && Partly(i)
      requires IsWord(seed, base + i + 1, words[next]) && IsWord(seed, base + i + M, words[far])
      modifies words
      ensures Partly(i + 1)
    {
      words[i] := NextWord(words[i], words[next], words[far], seed, base + N + i);
    }

    /** Replaces the block by the next one, in place and in three phases. */
    method Refill()
      requires Partly(0)
      modifies words
      ensures Partly(N)
    {
      var i := 0;
      while i < N - M
        invariant i <= N - M && Partly(i)
      {
        RefillOne(i, i + 1, i + M);
        i := i + 1;
      }
      while i < N - 1
        invariant N - M <= i <= N - 1 && Partly(i)
      {
        RefillOne(i, i + 1, i + M - N);
        i := i + 1;
      }
      RefillOne(N - 1, 0, M - 1);
    }

    /** Makes sure there is a word left in the block, seeding first if nobody has. */
    method Prepare()
      requires Valid() && index >= N
      modifies this, words
      ensures Valid() && seed == old(seed) && Next() == old(Next()) && index == 0
    {
      if index == N + 1 { Seed(DEFAULT_SEED); }
      Refill();
      index, base := 0, base + N;
    }

    /** The next output: for every seed and every k, the k-th output after seeding is made from the
        (312 + k)-th word of the recurrence. */
    method Uint64() returns (r: bv64)
      requires Valid()
      modifies this, words
      ensures Valid() && seed == old(seed) && Next() == old(Next()) + 1
      ensures IsOutput(seed, old(Next()), r)
    {
      if index >= N { Prepare(); }
      r := TemperWord(words[index], seed, base + index);
      index := index + 1;
    }
  }

  // ---------- words as bytes ----------

  function ByteOf(w: bv64, shift: bv7): octet
    requires shift <= 56
  { ((w >> shift) & 0xff) as bv8 }

  /** The bytes of a word, most significant first. */
  function BigEndian(w: bv64): (s: seq<octet>)
    ensures |s| == 8
  { [ByteOf(w, 56), ByteOf(w, 48), ByteOf(w, 40), ByteOf(w, 32), ByteOf(w, 24),
     ByteOf(w, 16), ByteOf(w, 8), ByteOf(w, 0)] }

  /** The bytes of a word, least significant first. */
  function LittleEndian(w: bv64): (s: seq<octet>)
    ensures |s| == 8
  { [ByteOf(w, 0), ByteOf(w, 8), ByteOf(w, 16), ByteOf(w, 24), ByteOf(w, 32),
     ByteOf(w, 40), ByteOf(w, 48), ByteOf(w, 56)] }

  /** The word its bytes spell. */
  lemma BigEndianSpells(w: bv64)
    ensures var b := BigEndian(w);
            w == ((b[0] as bv64) << 56) | ((b[1] as bv64) << 48) | ((b[2] as bv64) << 40) | ((b[3] as bv64) << 32)
               | ((b[4] as bv64) << 24) | ((b[5] as bv64) << 16) | ((b[6] as bv64) << 8) | (b[7] as bv64)
  {}

  lemma BigEndianExample()
    ensures BigEndian(0x0102030405060708) == [1, 2, 3, 4, 5, 6, 7, 8]
  {}

  method PutWord(data: array<octet>, at: nat, bytes: seq<octet>)
    requires |bytes| == 8 && at + 8 <= data.Length
    modifies data
    ensures data[..at + 8] == old(data[..at]) + bytes
  {
    forall j | 0 <= j < 8 { data[at + j] := bytes[j]; }
  }

  // ---------- key blocks ----------

  const BLOCK := 4096

  datatype Order = Big | Little

  function Bytes(order: Order, w: bv64): (s: seq<octet>)
    ensures |s| == 8
  { if order.Big? then BigEndian(w) else LittleEndian(w) }

  /** Outputs as bytes: those made from the words from..from+n-1. */
  function Outputs(order: Order, seed: bv64, from: nat, n: nat): (s: seq<octet>)
    ensures |s| == 8 * n
  {
    if n == 0 then [] else Outputs(order, seed, from, n - 1) + Bytes(order, Temper(X(seed, from + n - 1)))
  }

  ghost predicate IsOutputs(order: Order, seed: bv64, from: nat, n: nat, s: seq<octet>) {
    forall i: nat {:trigger Outputs(order, seed, from, i)} :: i == n ==> s == Outputs(order, seed, from, i)
  }

  /** One word more; its bytes depend on nothing but its value. */
  lemma OneOutputMore(order: Order, seed: bv64, from: nat, n: nat, s: seq<octet>, w: bv64)
    requires IsOutputs(order, seed, from, n, s) && IsOutput(seed, from + n, w)
    ensures IsOutputs(order, seed, from, n + 1, s + Bytes(order, w))
  {
    assert s == Outputs(order, seed, from, n);
    assert w == Temper(X(seed, from + n));
    assert Outputs(order, seed, from, n + 1) == Outputs(order, seed, from, n) + Bytes(order, Temper(X(seed, from + n)));
  }

  /** Writes the next output of r as the i-th word of a block. */
  method FillWord(order: Order, r: Source, data: array<octet>, i: nat, ghost seed: bv64, ghost from: nat)
    requires r.Valid() && r.seed == seed && r.Next() == from + i
    requires 8 * i + 8 <= data.Length && IsOutputs(order, seed, from, i, data[..8 * i])
    modifies r, r.words, data
    ensures r.Valid() && r.seed == seed && r.Next() == from + i + 1
    ensures IsOutputs(order, seed, from, i + 1, data[..8 * i + 8])
  {
    ghost var before := data[..8 * i];
    var w := r.Uint64();
    OneOutputMore(order, seed, from, i, before, w);
    PutWord(data, 8 * i, Bytes(order, w));
  }

  /** Fills a block with the next outputs of r. */
  method FillBlock(order: Order, r: Source, data: array<octet>)
    requires r.Valid() && data.Length == BLOCK
    modifies r, r.words, data
    ensures IsOutputs(order, old(r.seed), old(r.Next()), BLOCK / 8, data[..])
  {
    ghost var seed, from := r.seed, r.Next();
    var i := 0;
    assert IsOutputs(order, seed, from, 0, data[..0]);
    while i < BLOCK / 8
      invariant i <= BLOCK / 8 && r.Valid() && r.seed == seed && r.Next() == from + i
      invariant IsOutputs(order, seed, from, i, data[..8 * i])
    {
      FillWord(order, r, data, i, seed, from);
      i := i + 1;
    }
    assert data[..] == data[..8 * i];
  }

  /** s is the key block of a seed: outputs after seeding again with the first output for the seed,
      and dropping one. */
  ghost predicate IsKey(seed: bv64, s: seq<octet>) {
    exists second: bv64 :: IsOutput(seed, N, second) && IsOutputs(Big, second, N + 1, BLOCK / 8, s)
  }

  lemma OneOutput(seed: bv64, n: nat, a: bv64, b: bv64)
    requires IsOutput(seed, n, a) && IsOutput(seed, n, b)
    ensures a == b
  {
    assert a == Temper(X(seed, n));
  }

  lemma OneStream(order: Order, seed: bv64, from: nat, n: nat, s: seq<octet>, t: seq<octet>)
    requires IsOutputs(order, seed, from, n, s) && IsOutputs(order, seed, from, n, t)
    ensures s == t
  {
    assert s == Outputs(order, seed, from, n);
  }

  /** A key block depends on its seed only. */
  lemma KeyDependsOnSeed(seed: bv64, s: seq<octet>, t: seq<octet>)
    requires IsKey(seed, s) && IsKey(seed, t)
    ensures s == t
  {
    var a: bv64 :| IsOutput(seed, N, a) && IsOutputs(Big, a, N + 1, BLOCK / 8, s);
    var b: bv64 :| IsOutput(seed, N, b) && IsOutputs(Big, b, N + 1, BLOCK / 8, t);
    OneOutput(seed, N, a, b);
    OneStream(Big, a, N + 1, BLOCK / 8, s, t);
  }

  lemma LastOutput(order: Order, seed: bv64, from: nat, n: nat, s: seq<octet>)
      returns (t: seq<octet>, w: bv64)
    requires n > 0 && IsOutputs(order, seed, from, n, s)
    ensures IsOutputs(order, seed, from, n - 1, t) && IsOutput(seed, from + n - 1, w)
    ensures |t| == 8 * (n - 1) && s == t + Bytes(order, w)
  {
    t := OutputStream(order, seed, from, n - 1);
    w := OutputWord(seed, from + n - 1);
    OneOutputMore(order, seed, from, n - 1, t, w);
    OneStream(order, seed, from, n, s, t + Bytes(order, w));
  }

  lemma OutputStream(order: Order, seed: bv64, from: nat, n: nat) returns (t: seq<octet>)
    ensures IsOutputs(order, seed, from, n, t) && |t| == 8 * n
  {
    t := Outputs(order, seed, from, n);
  }

  lemma OutputWord(seed: bv64, n: nat) returns (w: bv64)
    ensures IsOutput(seed, n, w)
  {
    w := Temper(X(seed, n));
  }

  /** Eight bytes for every output, in order. */
  lemma {:induction false} OutputsAt(
      order: Order, seed: bv64, from: nat, n: nat, s: seq<octet>, i: nat, w: bv64)
    requires i < n && IsOutputs(order, seed, from, n, s) && IsOutput(seed, from + i, w)
    ensures |s| == 8 * n && s[8*i..8*i+8] == Bytes(order, w)
    decreases n
  {
    var t, v := LastOutput(order, seed, from, n, s);
    if i < n - 1 {
      OutputsAt(order, seed, from, n - 1, t, i, w);
      Inside(t, Bytes(order, v), 8 * i);
    } else {
      OneOutput(seed, from + i, v, w);
      AtEnd(t, Bytes(order, v));
    }
  }

  lemma Inside(t: seq<octet>, b: seq<octet>, i: nat)
    requires i + 8 <= |t|
    ensures (t + b)[i..i+8] == t[i..i+8]
  {}

  lemma AtEnd(t: seq<octet>, b: seq<octet>)
    requires |b| == 8
    ensures (t + b)[|t|..|t| + 8] == b
  {}

  /** The bytes of a key block: word number i of its 512 is output number i + 1, counting from 0, after seeding
      with output number 0 for the seed; the k-th output is made from the (312 + k)-th word. */
  lemma KeyBytes(seed: bv64, s: seq<octet>, i: nat) returns (second: bv64, w: bv64)
    requires IsKey(seed, s) && i < 512
    ensures |s| == 4096 && IsOutput(seed, 312, second) && IsOutput(second, 312 + (i + 1), w)
    ensures s[8*i..8*i+8] == BigEndian(w)
  {
    second :| IsOutput(seed, N, second) && IsOutputs(Big, second, N + 1, BLOCK / 8, s);
    w := OutputWord(second, N + 1 + i);
    OutputsAt(Big, second, N + 1, BLOCK / 8, s, i, w);
  }

  // ---------- keystreams ----------

  /** p xor the keystream, repeated as often as needed. */
  function Xored(p: seq<octet>, key: seq<octet>): (r: seq<octet>)
    requires |key| > 0
    ensures |r| == |p|
  { seq(|p|, i requires 0 <= i < |p| => XorByte(p[i], key[i % |key|])) }

  lemma XoredIs(p: seq<octet>, key: seq<octet>, r: seq<octet>)
    requires |key| > 0 && |r| == |p| && forall k :: 0 <= k < |r| ==> r[k] == XorByte(p[k], key[k % |key|])
    ensures r == Xored(p, key)
  {}

  lemma XorTwice(a: octet, b: octet)
    ensures XorByte(XorByte(a, b), b) == a
  {}

  /** Encrypting and decrypting are the same. */
  lemma XoredTwice(p: seq<octet>, key: seq<octet>)
    requires |key| > 0
    ensures Xored(Xored(p, key), key) == p
  {
    forall i | 0 <= i < |p| ensures Xored(Xored(p, key), key)[i] == p[i] { XorTwice(p[i], key[i % |key|]); }
  }

  class KeyBlock {
    const seed: bv64
    const data: array<octet>

    ghost predicate Valid()
      reads data
    { data.Length == BLOCK && IsKey(seed, data[..]) }

    /** The block depends on the seed only. */
    constructor (s: bv64)
      ensures Valid() && seed == s && fresh(data)
    {
      seed := s;
      data := new octet[BLOCK];
      new;
      var r := new Source();
      r.Seed(s);
      var second := r.Uint64();
      r.Seed(second);
      var dropped := r.Uint64();
      FillBlock(Big, r, data);
    }

    /** In place, the block repeating. */
    method Xor(p: array<octet>)
      requires data.Length == BLOCK && p != data
      modifies p
      ensures p[..] == Xored(old(p[..]), data[..])
    {
      ghost var was := p[..];
      var i := 0;
      while i < p.Length
        invariant i <= p.Length
        invariant forall k :: 0 <= k < p.Length ==> p[k] == if k < i then XorByte(was[k], data[k % BLOCK]) else was[k]
      {
        p[i] := XorByte(p[i], data[i % BLOCK]);
        i := i + 1;
      }
      XoredIs(was, data[..], p[..]);
    }
  }
}
