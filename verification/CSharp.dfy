/** The C# subtractive generator: a 55-slot ring kept in place, against the lagged recurrence it
    computes, both while its seed is mixed and while it is used. */
module CSharp {
  import opened Words

  const MBIG: i32 := 0x7fff_ffff
  const MSEED: i32 := 161803398
  const SIZE := 55

  /** The ring is first mixed, four times round, and then drawn from. */
  datatype Phase = Mixing | Drawing {
    function Lag(): (l: nat)
      ensures 0 < l < SIZE
    { if Mixing? then 24 else 34 }
  }

  /** The difference of two numbers in int32 arithmetic, brought up into range if it is negative; drawing
      steps down from MBIG, mixing does not. */
  function Difference(phase: Phase, a: int, b: int): i32 {
    var d := Signed32(a - b);
    if phase.Drawing? && d == MBIG then d - 1 else if d < 0 then d + MBIG else d
  }

  /** x(n) = x(n - 55) - x(n - lag) in that sense, after the 55 numbers given. */
  function Lagged(start: seq<int>, phase: Phase, n: nat): int
    requires |start| == SIZE
    decreases n
  {
    if n < SIZE then start[n]
    else Difference(phase, Lagged(start, phase, n - SIZE), Lagged(start, phase, n - phase.Lag()))
  }

  /** v is the n-th number of the sequence. */
  ghost predicate IsLagged(start: seq<int>, phase: Phase, n: nat, v: int)
    requires |start| == SIZE
  {
    forall i: nat {:trigger Lagged(start, phase, i)} :: i == n ==> v == Lagged(start, phase, i)
  }

  predicate InRange(v: int) { 0 <= v < MBIG }

  ghost predicate AllInRange(s: seq<int>) { forall i :: 0 <= i < |s| ==> InRange(s[i]) }

  lemma NextLagged(start: seq<int>, phase: Phase, n: nat, a: int, b: int)
    requires |start| == SIZE && n >= SIZE
    requires IsLagged(start, phase, n - SIZE, a) && IsLagged(start, phase, n - phase.Lag(), b)
    ensures IsLagged(start, phase, n, Difference(phase, a, b))
  {
    assert a == Lagged(start, phase, n - SIZE) && b == Lagged(start, phase, n - phase.Lag());
  }

  /** Numbers in range stay in range, and no int32 step on them wraps: then the difference is the one
      modulo MBIG. */
  lemma Subtracts(phase: Phase, a: int, b: int)
    requires InRange(a) && InRange(b)
    ensures InRange(Difference(phase, a, b)) && Difference(phase, a, b) == (a - b) % MBIG
  {
    assert Signed32(a - b) == a - b;
    assert (a - b) % MBIG == if a - b < 0 then a - b + MBIG else a - b;
  }

  lemma {:induction false} LaggedInRange(start: seq<int>, phase: Phase, n: nat)
    requires |start| == SIZE && AllInRange(start)
    ensures InRange(Lagged(start, phase, n))
    decreases n
  {
    if n >= SIZE {
      LaggedInRange(start, phase, n - SIZE);
      LaggedInRange(start, phase, n - phase.Lag());
      Subtracts(phase, Lagged(start, phase, n - SIZE), Lagged(start, phase, n - phase.Lag()));
    }
  }

  /** The recurrence proper: for 55 numbers in range, x(n) = x(n - 55) - x(n - lag) modulo MBIG. */
  lemma Recurrence(start: seq<int>, phase: Phase, n: nat)
    requires |start| == SIZE && AllInRange(start)
    ensures var x := (i: nat) => Lagged(start, phase, i);
            InRange(x(n)) && (n >= SIZE ==> x(n) == (x(n - SIZE) - x(n - phase.Lag())) % MBIG)
  {
    LaggedInRange(start, phase, n);
    if n >= SIZE {
      LaggedInRange(start, phase, n - SIZE);
      LaggedInRange(start, phase, n - phase.Lag());
      Subtracts(phase, Lagged(start, phase, n - SIZE), Lagged(start, phase, n - phase.Lag()));
    }
  }

  // ---------- the seed ----------

  /** The numbers written while seeding: each is the difference of the two before it. */
  function Written(mj: int, i: nat): int {
    if i == 0 then mj else if i == 1 then 1
    else
      var d := Written(mj, i - 2) - Written(mj, i - 1);
      if d < 0 then d + MBIG else d
  }

  ghost predicate IsWritten(mj: int, i: nat, v: int) {
    forall k: nat {:trigger Written(mj, k)} :: k == i ==> v == Written(mj, k)
  }

  lemma {:induction false} WrittenInRange(mj: int, i: nat)
    requires MSEED - MBIG <= mj <= MSEED && i > 0
    ensures InRange(Written(mj, i))
    decreases i
  {
    if i >= 2 {
      WrittenInRange(mj, i - 1);
      if i > 2 { WrittenInRange(mj, i - 2); }
    }
  }

  /** One number more, in int32 arithmetic. */
  lemma OneMoreWritten(mj: int, i: nat, a: i32, b: i32)
    requires MSEED - MBIG <= mj <= MSEED && i > 0 && IsWritten(mj, i - 1, a) && IsWritten(mj, i, b)
    ensures Signed32(a - b) == a - b
    ensures var v: int := if a - b < 0 then a - b + MBIG else a - b; InRange(v) && IsWritten(mj, i + 1, v)
  {
    assert a == Written(mj, i - 1) && b == Written(mj, i);
    WrittenInRange(mj, i);
    if i > 1 { WrittenInRange(mj, i - 1); }
    WrittenInRange(mj, i + 1);
    assert Written(mj, i + 1) == if a - b < 0 then a - b + MBIG else a - b;
  }

  function Magnitude(seed: i32): (r: i32)
    ensures r >= 0
  { if seed == -0x8000_0000 then 0x7fff_ffff else if seed < 0 then -(seed as int) else seed }

  /** The slot written in the i-th round; slot 55 is written before the rounds. */
  function Slot(i: nat): nat { 21 * i % SIZE }

  /** Multiplying by 21 modulo 55 undoes itself, so every slot from 1 to 54 is written in exactly one of
      the 54 rounds. */
  lemma SlotsOnce(s: nat)
    requires 0 < s < SIZE
    ensures 0 < Slot(s) < SIZE && Slot(Slot(s)) == s
    ensures forall i :: 0 < i < SIZE && Slot(i) == s ==> i == Slot(s)
  {
    SlotTwice(s);
    forall i | 0 < i < SIZE && Slot(i) == s ensures i == Slot(s) { SlotTwice(i); }
  }

  lemma SlotTwice(s: nat)
    requires 0 < s < SIZE
    ensures 0 < Slot(s) < SIZE && Slot(Slot(s)) == s
  {
    var q, r := 21 * s / SIZE, Slot(s);
    assert 21 * s == SIZE * q + r;
    Remainder(21 * r, 8 * s - 21 * q, s);
    if r == 0 { Remainder(0, 0, 0); }
  }

  lemma Remainder(x: int, q: int, r: int)
    requires x == SIZE * q + r && 0 <= r < SIZE
    ensures x % SIZE == r
  {}

  /** What seeding leaves in slots 1 to 55 before they are mixed. */
  function Filled(seed: i32): (r: seq<int>)
    ensures |r| == SIZE
  {
    var mj := MSEED - Magnitude(seed);
    seq(SIZE, n requires 0 <= n < SIZE => if n == SIZE - 1 then mj else Written(mj, Slot(n + 1)))
  }

  /** Where the i-th number written while seeding lies, counting slots from 0. */
  function PlaceOf(i: nat): (k: nat)
    ensures k < SIZE
  { (21 * i + 54) % 55 }

  lemma PlaceIsSlot(i: nat)
    requires 0 < i < 55
    ensures 0 < Slot(i) < SIZE && Slot(Slot(i)) == i && PlaceOf(i) == Slot(i) - 1
  {
    SlotTwice(i);
    Remainder(21 * i + 54, 21 * i / 55 + 1, Slot(i) - 1);
  }

  lemma FilledAt(seed: i32, i: nat)
    requires i < 55
    ensures Filled(seed)[PlaceOf(i)] == Written(MSEED - Magnitude(seed), i)
  {
    if i > 0 { PlaceIsSlot(i); }
  }

  lemma WrittenModulo(mj: int, i: nat)
    requires MSEED - MBIG <= mj <= MSEED && i >= 2
    ensures Written(mj, i) == (Written(mj, i - 2) - Written(mj, i - 1)) % MBIG
  {
    WrittenInRange(mj, i - 1);
    if i > 2 { WrittenInRange(mj, i - 2); }
    BroughtUp(Written(mj, i - 2) - Written(mj, i - 1));
  }

  /** Slot 55 holds what the seed's magnitude leaves of 161803398, and slot 21 holds 1. */
  lemma FilledStart(seed: i32)
    ensures Filled(seed)[20] == 1
    ensures Filled(seed)[54] == if seed >= 0 then 161803398 - seed
                                else if seed == -0x8000_0000 then 161803398 - 0x7fff_ffff else 161803398 + seed
  {
    FilledAt(seed, 0);
    FilledAt(seed, 1);
  }

  /** Every further slot, 21 places on modulo 55, holds the difference of the two before it, modulo 2^31 - 1. */
  lemma FilledIs(seed: i32, i: nat)
    requires 2 <= i < 55
    ensures var f := Filled(seed); f[PlaceOf(i)] == (f[PlaceOf(i - 2)] - f[PlaceOf(i - 1)]) % 0x7fff_ffff
  {
    var mj := MSEED - Magnitude(seed);
    var a := FilledValue(seed, i - 2);
    var b := FilledValue(seed, i - 1);
    var c := FilledValue(seed, i);
    SameRemainder(mj, i, a, b, c);
  }

  lemma FilledValue(seed: i32, i: nat) returns (v: int)
    requires i < 55
    ensures v == Filled(seed)[PlaceOf(i)] && IsWritten(MSEED - Magnitude(seed), i, v)
  {
    v := Filled(seed)[PlaceOf(i)];
    FilledAt(seed, i);
  }

  lemma SameRemainder(mj: int, i: nat, a: int, b: int, c: int)
    requires MSEED - MBIG <= mj <= MSEED && i >= 2
    requires IsWritten(mj, i - 2, a) && IsWritten(mj, i - 1, b) && IsWritten(mj, i, c)
    ensures c == (a - b) % 0x7fff_ffff
  {
    WrittenModulo(mj, i);
  }

  lemma BroughtUp(d: int)
    requires -MBIG <= d < MBIG
    ensures (if d < 0 then d + MBIG else d) == d % MBIG
  {}

  const MIXES := 220

  /** What mixing makes of it: the sequence of lag 24, after 220 numbers. */
  function Mixed(seed: i32): (r: seq<int>)
    ensures |r| == SIZE
  { seq(SIZE, n requires 0 <= n < SIZE => Lagged(Filled(seed), Mixing, MIXES + n)) }

  predicate Small(seed: i32) { -MSEED <= seed <= MSEED }

  /** Every number left by the first part of seeding is in range exactly when the seed is at most MSEED
      in magnitude. */
  lemma FilledInRange(seed: i32)
    ensures AllInRange(Filled(seed)) <==> Small(seed)
  {
    var mj := MSEED - Magnitude(seed);
    assert Filled(seed)[SIZE - 1] == mj;
    if Small(seed) {
      forall n | 0 <= n < SIZE ensures InRange(Filled(seed)[n]) {
        if n < SIZE - 1 {
          SlotTwice(n + 1);
          WrittenInRange(mj, Slot(n + 1));
        }
      }
    }
  }

  /** So after seeding with a small number every output x is in range and satisfies the recurrence of lag 34, and
      it starts with numbers 220 to 274 of the sequence y of lag 24. */
  lemma SmallSeeds(seed: i32, n: nat)
    requires Small(seed)
    ensures AllInRange(Mixed(seed))
    ensures var x := (i: nat) => Lagged(Mixed(seed), Drawing, i);
            InRange(x(n)) && (n >= SIZE ==> x(n) == (x(n - 55) - x(n - 34)) % MBIG)
    ensures var y := (i: nat) => Lagged(Filled(seed), Mixing, i);
            && (if n < 55 then y(n) == Filled(seed)[n] else y(n) == (y(n - 55) - y(n - 24)) % MBIG)
            && (n < 55 ==> Mixed(seed)[n] == y(220 + n))
  {
    FilledInRange(seed);
    forall k | 0 <= k < SIZE ensures InRange(Mixed(seed)[k]) { LaggedInRange(Filled(seed), Mixing, MIXES + k); }
    Recurrence(Mixed(seed), Drawing, n);
    Recurrence(Filled(seed), Mixing, n);
  }

  // ---------- the ring ----------

  class Random {
    var inext: i32
    var inextp: i32
    const seedArray: array<i32>

    constructor ()
      ensures seedArray.Length == 56 && fresh(seedArray)
    {
      seedArray := new i32[56](i => 0);
      inext, inextp := 0, 0;
    }

    /** The slots hold the numbers from the n-th on of a lagged sequence. */
    ghost predicate Ring(start: seq<int>, phase: Phase, n: nat)
      requires |start| == SIZE
      reads seedArray
    { seedArray.Length == 56 && forall k :: n <= k < n + SIZE ==> Holds(start, phase, k) }

    ghost predicate Holds(start: seq<int>, phase: Phase, k: nat)
      requires |start| == SIZE && seedArray.Length == 56
      reads seedArray
    { IsLagged(start, phase, k, seedArray[1 + k % SIZE]) }

    /** One number more, in the place of the oldest. */
    method Step(phase: Phase, slot: nat, other: nat, ghost start: seq<int>, ghost n: nat) returns (v: i32)
      requires |start| == SIZE && Ring(start, phase, n)
      requires slot == 1 + n % SIZE && other == 1 + (n + SIZE - phase.Lag()) % SIZE
      modifies seedArray
      ensures Ring(start, phase, n + 1) && IsLagged(start, phase, n + SIZE, v)
    {
      assert Holds(start, phase, n) && Holds(start, phase, n + SIZE - phase.Lag());
      v := Signed32(seedArray[slot] as int - seedArray[other] as int);
      if phase.Drawing? && v == MBIG { v := v - 1; }
      if v < 0 { v := v + MBIG; }
      NextLagged(start, phase, n + SIZE, seedArray[slot], seedArray[other]);
      Replace(phase, slot, v, start, n);
    }

    method Replace(phase: Phase, slot: nat, v: i32, ghost start: seq<int>, ghost n: nat)
      requires |start| == SIZE && Ring(start, phase, n)
      requires slot == 1 + n % SIZE && IsLagged(start, phase, n + SIZE, v)
      modifies seedArray
      ensures Ring(start, phase, n + 1)
    {
      label before:
      seedArray[slot] := v;
      forall k | n + 1 <= k < n + 1 + SIZE ensures Holds(start, phase, k) {
        OtherPlace(n, k);
        if k < n + SIZE { assert old@before(Holds(start, phase, k)); }
      }
    }

    /** The next number of the generator. */
    method InternalSample(ghost start: seq<int>, ghost n: nat) returns (retVal: i32)
      requires |start| == SIZE && Ring(start, Drawing, n)
      requires inext == (if n == 0 then 0 else 1 + (n - 1) % SIZE)
      requires inextp == 1 + (n + 20) % SIZE
      modifies this, seedArray
      ensures Ring(start, Drawing, n + 1) && inext == 1 + n % SIZE && inextp == 1 + (n + 21) % SIZE
      ensures IsLagged(start, Drawing, n + SIZE, retVal)
    {
      var locINext, locINextp := inext, inextp;
      locINext := locINext + 1;
      if locINext >= 56 { locINext := 1; }
      locINextp := locINextp + 1;
      if locINextp >= 56 { locINextp := 1; }
      NextPlace(n);
      NextPlace(n + 21);
      retVal := Step(Drawing, locINext, locINextp, start, n);
      inext := locINext;
      inextp := locINextp;
    }

    // ---------- seeding ----------

    /** The first i rounds have been written, and slot 55. */
    ghost predicate WrittenUpTo(mj: i32, i: nat)
      reads seedArray
    {
      && seedArray.Length == 56 && seedArray[55] == mj
      && forall k :: 1 <= k <= i && k < 55 ==> WrittenAt(mj, k)
    }

    ghost predicate WrittenAt(mj: i32, k: nat)
      requires seedArray.Length == 56
      reads seedArray
    { IsWritten(mj, k, seedArray[Slot(k)]) && InRange(seedArray[Slot(k)]) }

    method FillOne(mj0: i32, i: nat, mk: i32)
      requires 1 <= i < 55 && WrittenUpTo(mj0, i - 1) && IsWritten(mj0, i, mk) && InRange(mk)
      modifies seedArray
      ensures WrittenUpTo(mj0, i) && seedArray[Slot(i)] == mk
    {
      SlotTwice(i);
      label before:
      seedArray[Slot(i)] := mk;
      forall k | 1 <= k <= i && k < 55 ensures WrittenAt(mj0, k) {
        SlotTwice(k);
        if k < i { assert old@before(WrittenAt(mj0, k)); }
      }
    }

    /** The first part: 54 slots in an order that visits each once; no int32 step wraps. */
    method Fill(mj0: i32)
      requires seedArray.Length == 56 && MSEED - MBIG <= mj0 <= MSEED
      modifies seedArray
      ensures seedArray[55] == mj0
      ensures forall s :: 1 <= s < 55 ==> IsWritten(mj0, Slot(s), seedArray[s]) && InRange(seedArray[s])
    {
      seedArray[55] := mj0;
      var mj: i32, mk: i32 := mj0, 1;
      var i := 1;
      while i < 55
        invariant 1 <= i <= 55 && InRange(mk) && WrittenUpTo(mj0, i - 1)
        invariant IsWritten(mj0, i - 1, mj) && IsWritten(mj0, i, mk)
      {
        var ii := 21 * i % 55;
        FillOne(mj0, i, mk);
        OneMoreWritten(mj0, i, mj, mk);
        mk := Signed32(mj - mk);
        if mk < 0 { mk := mk + MBIG; }
        mj := seedArray[ii];
        i := i + 1;
      }
      forall s | 1 <= s < 55 ensures IsWritten(mj0, Slot(s), seedArray[s]) && InRange(seedArray[s]) {
        SlotTwice(s);
        assert WrittenAt(mj0, Slot(s));
      }
    }

    /** After the first part the ring holds the numbers to be mixed. */
    lemma FilledIsRing(seed: i32)
      requires seedArray.Length == 56
      requires var mj := MSEED - Magnitude(seed);
               && seedArray[55] == mj
               && forall s :: 1 <= s < 55 ==> IsWritten(mj, Slot(s), seedArray[s]) && InRange(seedArray[s])
      ensures Ring(Filled(seed), Mixing, 0)
    {
      var mj := MSEED - Magnitude(seed);
      forall k | 0 <= k < SIZE ensures Holds(Filled(seed), Mixing, k) {
        assert 1 + k % SIZE == k + 1;
        if k < SIZE - 1 { assert seedArray[k + 1] == Written(mj, Slot(k + 1)); }
        assert Lagged(Filled(seed), Mixing, k) == Filled(seed)[k];
      }
    }

    /** The second part, four rounds over the ring: the sequence of lag 24. */
    method Mix(ghost start: seq<int>)
      requires |start| == SIZE && Ring(start, Mixing, 0)
      modifies seedArray
      ensures Ring(start, Mixing, MIXES)
    {
      for k := 1 to 5
        invariant Ring(start, Mixing, SIZE * (k - 1))
      {
        for i := 1 to 56
          invariant Ring(start, Mixing, SIZE * (k - 1) + (i - 1))
        {
          ghost var n := SIZE * (k - 1) + (i - 1);
          Places(k - 1, i - 1);
          var v := Step(Mixing, i, 1 + (i + 30) % 55, start, n);
        }
      }
    }

    /** A ring of the sequence of lag 24, after 220 numbers, starts the sequence of lag 34. */
    lemma MixedIsRing(seed: i32)
      requires Ring(Filled(seed), Mixing, MIXES)
      ensures Ring(Mixed(seed), Drawing, 0)
    {
      forall k | 0 <= k < SIZE ensures Holds(Mixed(seed), Drawing, k) {
        assert Holds(Filled(seed), Mixing, MIXES + k);
        Remainder(MIXES + k, 4, k);
        Remainder(k, 0, k);
        MixedIs(seed, k, seedArray[1 + k]);
      }
    }

    static method Subtraction(seed: i32) returns (subtraction: i32)
      ensures subtraction == Magnitude(seed)
    {
      if seed == -0x8000_0000 {
        subtraction := 0x7fff_ffff;
      } else {
        subtraction := seed;
        if subtraction < 0 { subtraction := -(subtraction as int); }
      }
    }

    /** After seeding, with any number, the ring starts the sequence of outputs. */
    method Seed(seed: i32)
      requires seedArray.Length == 56
      modifies this, seedArray
      ensures Ring(Mixed(seed), Drawing, 0) && inext == 0 && inextp == 21
    {
      var subtraction := Subtraction(seed);
      var mj: i32 := MSEED - subtraction;
      Fill(mj);
      FilledIsRing(seed);
      Mix(Filled(seed));
      MixedIsRing(seed);
      inext, inextp := 0, 21;
    }
  }

  /** Only the oldest number lies in the place of the next one. */
  lemma OtherPlace(n: nat, k: nat)
    requires n < k <= n + SIZE
    ensures k == n + SIZE ==> k % SIZE == n % SIZE
    ensures k < n + SIZE ==> k % SIZE != n % SIZE
  {}

  lemma MixedIs(seed: i32, k: nat, v: int)
    requires k < SIZE && IsLagged(Filled(seed), Mixing, MIXES + k, v)
    ensures IsLagged(Mixed(seed), Drawing, k, v)
  {
    assert v == Lagged(Filled(seed), Mixing, MIXES + k);
    assert Lagged(Mixed(seed), Drawing, k) == Mixed(seed)[k];
  }

  lemma NextPlace(n: nat)
    ensures n > 0 ==> 1 + n % SIZE == if 1 + (n - 1) % SIZE + 1 >= 56 then 1 else 1 + (n - 1) % SIZE + 1
  {}

  lemma Places(k: nat, i: nat)
    requires i < SIZE
    ensures (SIZE * k + i) % SIZE == i && (SIZE * k + i + SIZE - 24) % SIZE == (i + 31) % 55
  {
    Remainder(SIZE * k + i, k, i);
    var r := (i + 31) % 55;
    Remainder(SIZE * k + i + SIZE - 24, k + (i + 31) / 55, r);
  }
}
