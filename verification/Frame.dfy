/** Packet framing, and the routine that both encrypts and decrypts, guessing the key from the magic
    bytes at the two ends of a packet.  Frames are made of bytes as numbers, ciphertexts of bytes as
    bits; Bits and Numbers go from one to the other. */
module Frames {
  import opened Words
  import opened Mt19937
  import opened Ec2bKeys
  import opened Octets

  const M16 := 0x1_0000

  datatype Packet = Packet(cmd: u16, head: seq<byte>, data: seq<byte>)

  datatype Error = TooShort | InvalidPayload | InvalidLength

  datatype Result<T> = Ok(value: T) | Err(error: Error)

  // ---------- big-endian numbers ----------

  function BE16(x: u16): (s: seq<byte>)
    ensures |s| == 2
  { [x / 0x100, x % 0x100] }

  function BE32(x: u32): (s: seq<byte>)
    ensures |s| == 4
  { BE16(x / M16) + BE16(x % M16) }

  function Read16(s: seq<byte>, i: nat): u16
    requires i + 2 <= |s|
  { 0x100 * s[i] as int + s[i+1] as int }

  function Read32(s: seq<byte>, i: nat): u32
    requires i + 4 <= |s|
  { M16 * Read16(s, i) as int + Read16(s, i + 2) as int }

  lemma Read16Back(s: seq<byte>, i: nat, x: u16)
    requires i + 2 <= |s| && s[i..i+2] == BE16(x)
    ensures Read16(s, i) == x
  {
    assert s[i] == s[i..i+2][0] && s[i+1] == s[i..i+2][1];
  }

  lemma Read32Back(s: seq<byte>, i: nat, x: u32)
    requires i + 4 <= |s| && s[i..i+4] == BE32(x)
    ensures Read32(s, i) == x
  {
    var t := s[i..i+4];
    assert s[i..i+2] == t[..2] == BE16(x / M16);
    assert s[i+2..i+4] == t[2..] == BE16(x % M16);
    Read16Back(s, i, x / M16);
    Read16Back(s, i + 2, x % M16);
  }

  // ---------- frames ----------

  /** What every packet starts and ends with. */
  predicate Framed(p: seq<byte>)
    requires |p| >= 4
  { p[0] == 0x45 && p[1] == 0x67 && p[|p|-2] == 0x89 && p[|p|-1] == 0xAB }

  /** A frame with the given three numbers before its body. */
  function Frame(cmd: u16, n1: u16, n2: u32, body: seq<byte>): (p: seq<byte>)
    ensures |p| == 12 + |body|
  { [0x45, 0x67] + ((BE16(cmd) + (BE16(n1) + BE32(n2))) + body) + [0x89, 0xAB] }

  /** The two lengths are truncated to their fields. */
  function Print(k: Packet): (p: seq<byte>)
    ensures |p| == 12 + |k.head| + |k.data|
  { Frame(k.cmd, |k.head| % M16, |k.data| % M32, k.head + k.data) }

  /** The next n bytes of a buffer, or what there is. */
  function Next(b: seq<byte>, n: nat): seq<byte> { if n <= |b| then b[..n] else b }

  /** The frame with the given three numbers in it; the lengths are added up as uint32. */
  function Assemble(p: seq<byte>, cmd: u16, n1: u16, n2: u32): Result<Packet>
    requires |p| >= 12
  {
    if !Framed(p) then Err(InvalidPayload)
    else if |p| % M32 != (12 + n1 + n2) % M32 then Err(InvalidLength)
    else
      var b := p[10..|p|-2];
      var head := Next(b, n1);
      Ok(Packet(cmd, head, Next(b[|head|..], n2)))
  }

  /** A frame from its bytes. */
  function Parse(p: seq<byte>): Result<Packet>
    requires |p| >= 12
  { Assemble(p, Read16(p, 2), Read16(p, 4), Read32(p, 6)) }

  lemma Pieces(l: seq<byte>, a: seq<byte>, b: seq<byte>, c: seq<byte>)
    requires |a| == |b| == 2 && |c| == 4 && l == a + (b + c)
    ensures l[0..2] == a && l[2..4] == b && l[4..8] == c
  {}

  lemma Slice(p: seq<byte>, i: nat, j: nat)
    requires |p| >= 12 && i <= j <= 8
    ensures p[2..10][i..j] == p[2+i..2+j]
  {
    forall k | 0 <= k < j - i ensures p[2..10][i..j][k] == p[2+i..2+j][k] {
      assert p[2..10][i..j][k] == p[2..10][i + k];
    }
  }

  /** The parts of a frame. */
  lemma FrameReads(p: seq<byte>, cmd: u16, n1: u16, n2: u32, body: seq<byte>)
    requires p == Frame(cmd, n1, n2, body)
    ensures Framed(p) && p[10..|p|-2] == body
    ensures Read16(p, 2) == cmd && Read16(p, 4) == n1 && Read32(p, 6) == n2
  {
    var l := BE16(cmd) + (BE16(n1) + BE32(n2));
    assert p == [0x45, 0x67] + l + body + [0x89, 0xAB];
    assert p[2..10] == l;
    Pieces(l, BE16(cmd), BE16(n1), BE32(n2));
    Slice(p, 0, 2);
    Slice(p, 2, 4);
    Slice(p, 4, 8);
    Read16Back(p, 2, cmd);
    Read16Back(p, 4, n1);
    Read32Back(p, 6, n2);
  }

  lemma Written16(p: seq<byte>, i: nat)
    requires i + 2 <= |p|
    ensures p[i..i+2] == BE16(Read16(p, i))
  {}

  lemma Written32(p: seq<byte>, i: nat)
    requires i + 4 <= |p|
    ensures p[i..i+4] == BE32(Read32(p, i))
  {
    Written16(p, i);
    Written16(p, i + 2);
    assert p[i..i+4] == p[i..i+2] + p[i+2..i+4];
    assert Read32(p, i) / M16 == Read16(p, i) && Read32(p, i) % M16 == Read16(p, i + 2);
  }

  /** Whatever starts and ends like one is a frame of its parts. */
  lemma FrameOf(p: seq<byte>)
    requires |p| >= 12 && Framed(p)
    ensures p == Frame(Read16(p, 2), Read16(p, 4), Read32(p, 6), p[10..|p|-2])
  {
    var n := |p|;
    Written16(p, 2);
    Written16(p, 4);
    Written32(p, 6);
    assert p[..2] == [0x45, 0x67] && p[n-2..] == [0x89, 0xAB];
    assert p == p[..2] + ((p[2..4] + (p[4..6] + p[6..10])) + p[10..n-2]) + p[n-2..];
  }

  lemma AssemblesBack(p: seq<byte>, k: Packet)
    requires |p| == 12 + |k.head| + |k.data| && Framed(p) && p[10..|p|-2] == k.head + k.data
    requires |k.head| < M16 && |k.data| < M32
    ensures Assemble(p, k.cmd, |k.head|, |k.data|) == Ok(k)
  {
    var rest := k.head + k.data;
    assert rest[..|k.head|] == k.head && rest[|k.head|..] == k.data && k.data[..|k.data|] == k.data;
  }

  predicate Fits(k: Packet) { |k.head| < M16 && |k.data| < M32 }

  lemma InFields(k: Packet)
    requires Fits(k)
    ensures |k.head| % M16 == |k.head| && |k.data| % M32 == |k.data|
  {}

  lemma ParsesBack(k: Packet, p: seq<byte>)
    requires Fits(k) && p == Print(k)
    ensures Parse(p) == Ok(k)
  {
    InFields(k);
    FrameReads(p, k.cmd, |k.head| % M16, |k.data| % M32, k.head + k.data);
    AssemblesBack(p, k);
  }

  /** No parse yields more than the length fields can say. */
  lemma ParsedFits(p: seq<byte>, n1: u16, n2: u32, cmd: u16)
    requires |p| >= 12 && Assemble(p, cmd, n1, n2).Ok?
    ensures Fits(Assemble(p, cmd, n1, n2).value)
  {}

  /** The layout of a frame: the magic bytes at both ends, the command and the two lengths with the most
      significant byte first, the head and the data. */
  lemma PrintLayout(k: Packet)
    requires Fits(k)
    ensures var p, h, n := Print(k), |k.head|, |k.data|;
            && |p| == 12 + h + n && p[10..10 + h] == k.head && p[10 + h..10 + h + n] == k.data
            && p[0] == 0x45 && p[1] == 0x67 && p[|p|-2] == 0x89 && p[|p|-1] == 0xAB
            && k.cmd == 256 * (p[2] as int) + p[3] && h == 256 * (p[4] as int) + p[5]
            && n == 16777216 * (p[6] as int) + 65536 * (p[7] as int) + 256 * (p[8] as int) + p[9]
  {
    var p, h, n := Print(k), |k.head|, |k.data|;
    InFields(k);
    FrameReads(p, k.cmd, h % M16, n % M32, k.head + k.data);
    var b := p[10..|p|-2];
    assert p[10..10 + h] == b[..h] && p[10 + h..10 + h + n] == b[h..];
  }

  lemma Congruent(a: int, b: int)
    ensures a % M32 == b % M32 <==> (b - a) % M32 == 0
  {
    if a % M32 == b % M32 { assert b - a == M32 * (b / M32 - a / M32); }
    if (b - a) % M32 == 0 { assert b == a + M32 * ((b - a) / M32); }
  }

  /** What becomes of a frame with the given numbers in it. */
  lemma Assembles(p: seq<byte>, cmd: u16, h: u16, n: u32)
    requires |p| >= 12
    ensures var r, size := Assemble(p, cmd, h, n), |p| - 12;
            && (r == Err(InvalidPayload) <==> !Framed(p))
            && (r == Err(InvalidLength) <==> Framed(p) && (12 + h + n - |p|) % M32 != 0)
            && (r.Ok? ==> r.value.cmd == cmd && r.value.head == p[10..10 + Min(h, size)])
            && (r.Ok? ==> r.value.data == if h >= size then [] else p[10 + h..10 + Min(h + n, size)])
  {
    Congruent(|p|, 12 + h + n);
    var b := p[10..|p|-2];
    if h < |b| { assert b[h..] == p[10 + h..|p|-2]; }
  }

  /** A frame is refused if its magic bytes are wrong, and otherwise exactly if the length it announces is not
      its own modulo 2^32; what is accepted is the command, as much of the head as is there, and as much of
      the data. */
  lemma ParseAccepts(p: seq<byte>)
    requires |p| >= 12
    ensures var r, size := Parse(p), |p| - 12;
            var magic := p[0] == 0x45 && p[1] == 0x67 && p[|p|-2] == 0x89 && p[|p|-1] == 0xAB;
            var h := 256 * (p[4] as int) + p[5];
            var n := 16777216 * (p[6] as int) + 65536 * (p[7] as int) + 256 * (p[8] as int) + p[9];
            && (r == Err(InvalidPayload) <==> !magic)
            && (r == Err(InvalidLength) <==> magic && (12 + h + n - |p|) % 0x1_0000_0000 != 0)
            && (r.Ok? ==> r.value.cmd == 256 * (p[2] as int) + p[3] && r.value.head == p[10..10 + Min(h, size)])
            && (r.Ok? ==> r.value.data == if h >= size then [] else p[10 + h..10 + Min(h + n, size)])
  {
    Assembles(p, Read16(p, 2), Read16(p, 4), Read32(p, 6));
  }

  /** A printed packet parses back to itself exactly when its lengths fit their fields. */
  lemma ParsePrint(k: Packet)
    ensures Parse(Print(k)) == Ok(k) <==> Fits(k)
  {
    var p := Print(k);
    if Fits(k) { ParsesBack(k, p); }
    if Parse(p).Ok? { ParsedFits(p, Read16(p, 4), Read32(p, 6), Read16(p, 2)); }
  }

  /** And a frame that parses prints to itself exactly when its lengths add up to its size, which the
      program checks modulo 2^32 only. */
  lemma PrintParse(p: seq<byte>)
    requires |p| >= 12 && Parse(p).Ok?
    ensures Print(Parse(p).value) == p <==> |p| == 12 + Read16(p, 4) + Read32(p, 6)
  {
    var k := Parse(p).value;
    ParsedFits(p, Read16(p, 4), Read32(p, 6), Read16(p, 2));
    if |p| == 12 + Read16(p, 4) + Read32(p, 6) {
      FrameOf(p);
      InStep(p, Read16(p, 2), Read16(p, 4), Read32(p, 6));
    } else if Print(k) == p {
      PrintsInStep(k, p);
    }
  }

  lemma PrintsInStep(k: Packet, p: seq<byte>)
    requires Fits(k) && p == Print(k)
    ensures |p| == 12 + Read16(p, 4) + Read32(p, 6)
  {
    var body := k.head + k.data;
    InFields(k);
    FrameReads(p, k.cmd, |k.head| % M16, |k.data| % M32, body);
  }

  lemma InStep(p: seq<byte>, cmd: u16, n1: u16, n2: u32)
    requires |p| == 12 + n1 + n2 && Framed(p)
    ensures Assemble(p, cmd, n1, n2).Ok?
    ensures Print(Assemble(p, cmd, n1, n2).value) == Frame(cmd, n1, n2, p[10..|p|-2])
  {
    var b := p[10..|p|-2];
    var k := AssembledInStep(p, cmd, n1, n2);
    assert k.head + k.data == b;
    InFields(k);
  }

  lemma AssembledInStep(p: seq<byte>, cmd: u16, n1: u16, n2: u32) returns (k: Packet)
    requires |p| == 12 + n1 + n2 && Framed(p)
    ensures Assemble(p, cmd, n1, n2) == Ok(k) && k.cmd == cmd && |k.head| == n1 && |k.data| == n2
    ensures k.head == p[10..|p|-2][..n1] && k.data == p[10..|p|-2][n1..]
  {
    var b := p[10..|p|-2];
    assert b[n1..][..n2] == b[n1..];
    k := Packet(cmd, b[..n1], b[n1..]);
  }

  /** For a frame of fewer than 2^32 bytes: exactly when the head is all there. */
  lemma PrintParseShort(p: seq<byte>)
    requires 12 <= |p| < M32 && Parse(p).Ok?
    ensures Print(Parse(p).value) == p <==> Read16(p, 4) <= |p| - 12
  {
    PrintParse(p);
    if Read16(p, 4) <= |p| - 12 { SameModulo(|p|, 12 + Read16(p, 4) + Read32(p, 6)); }
  }

  lemma SameModulo(a: int, b: int)
    requires a % M32 == b % M32 && -M32 < a - b < M32
    ensures a == b
  {}

  /** A packet without data in a frame whose head length is too large by just what its data length is
      too small. */
  function Misprint(k: Packet, n1: u16): seq<byte>
    requires |k.head| < n1
  { Frame(k.cmd, n1, M32 + |k.head| - n1, k.head) }

  ghost predicate Misread(k: Packet, p: seq<byte>) {
    k.data == [] && exists n1: u16 :: |k.head| < n1 && p == Misprint(k, n1)
  }

  /** The frames of a packet's size that parse to it: the one it prints to, and its misprints. */
  lemma FormsOf(k: Packet, p: seq<byte>)
    requires |p| == |Print(k)|
    ensures Parse(p) == Ok(k) <==> Fits(k) && (p == Print(k) || Misread(k, p))
  {
    if Parse(p) == Ok(k) { OnlyForms(k, p); }
    if Fits(k) && p == Print(k) { ParsesBack(k, p); }
    if Misread(k, p) {
      var n1: u16 :| |k.head| < n1 && p == Misprint(k, n1);
      MisprintReads(k, n1, p);
    }
  }

  lemma OneTurnMore(a: int, b: int)
    requires b == a + M32
    ensures a % M32 == b % M32
  {}

  lemma MisprintReads(k: Packet, n1: u16, p: seq<byte>)
    requires k.data == [] && |k.head| < n1 && p == Misprint(k, n1)
    ensures Parse(p) == Ok(k)
  {
    var n2: u32 := M32 + |k.head| - n1;
    FrameReads(p, k.cmd, n1, n2, k.head);
    OneTurnMore(|p|, 12 + n1 + n2);
    var b := p[10..|p|-2];
    assert Next(b, n1) == k.head && b[|k.head|..] == [];
  }

  lemma OnlyForms(k: Packet, p: seq<byte>)
    requires |p| == |Print(k)| && Parse(p) == Ok(k)
    ensures Fits(k) && (p == Print(k) || Misread(k, p))
  {
    ParsedFits(p, Read16(p, 4), Read32(p, 6), Read16(p, 2));
    if Read16(p, 4) <= |p| - 12 {
      HeadInside(k, p, Read16(p, 2), Read16(p, 4), Read32(p, 6));
      PrintParse(p);
    } else {
      HeadOutside(k, p, Read16(p, 2), Read16(p, 4), Read32(p, 6));
      FrameOf(p);
      assert p == Misprint(k, Read16(p, 4));
    }
  }

  lemma HeadInside(k: Packet, p: seq<byte>, cmd: u16, n1: u16, n2: u32)
    requires |p| == 12 + |k.head| + |k.data| && Assemble(p, cmd, n1, n2) == Ok(k) && n1 <= |p| - 12
    ensures |p| == 12 + n1 + n2
  {
    assert |k.head| == n1 && |k.data| <= n2;
    SameModulo(|p|, 12 + n1 + n2);
  }

  lemma HeadOutside(k: Packet, p: seq<byte>, cmd: u16, n1: u16, n2: u32)
    requires |p| == 12 + |k.head| + |k.data| && Assemble(p, cmd, n1, n2) == Ok(k) && n1 > |p| - 12
    ensures k.data == [] && k.head == p[10..|p|-2] && n1 > |k.head| && n2 == M32 + |k.head| - n1 && k.cmd == cmd
  {
    OneTurnMore(|p|, M32 + |p|);
    SameModulo(M32 + |p|, 12 + n1 + n2);
  }

  /** The smallest example: a frame of 12 bytes that announces 5 bytes of head and 2^32 - 5 of data. */
  lemma OutOfStep()
    ensures var p: seq<byte> := [0x45, 0x67, 0, 1, 0, 5, 0xff, 0xff, 0xff, 0xfb, 0x89, 0xAB];
            Parse(p) == Ok(Packet(1, [], [])) && Print(Packet(1, [], [])) != p
  {
    var p: seq<byte> := [0x45, 0x67, 0, 1, 0, 5, 0xff, 0xff, 0xff, 0xfb, 0x89, 0xAB];
    var k := Packet(1, [], []);
    assert BE16(1) == [0, 1] && BE16(5) == [0, 5] && BE16(0xffff) == [0xff, 0xff] && BE16(0xfffb) == [0xff, 0xfb];
    assert BE32(0xffff_fffb) == BE16(0xffff) + BE16(0xfffb);
    assert p == Frame(1, 5, 0xffff_fffb, []);
    FrameReads(p, 1, 5, 0xffff_fffb, []);
    PrintParseShort(p);
  }

  // ---------- bytes as bits ----------

  /** The bits of a number, most significant first. */
  function Octet(x: byte): octet {
    if x == 0 then 0 else (Octet(x / 2) << 1) | (if x % 2 == 1 then 1 else 0)
  }

  function Bits(p: seq<byte>): (r: seq<octet>)
    ensures |r| == |p|
  { seq(|p|, i requires 0 <= i < |p| => Octet(p[i])) }

  function Numbers(p: seq<octet>): (r: seq<byte>)
    ensures |r| == |p|
  { seq(|p|, i requires 0 <= i < |p| => p[i] as int) }

  lemma OneBitMore(o: octet)
    requires o as int < 0x80
    ensures (o << 1) as int == 2 * (o as int) && ((o << 1) | 1) as int == 2 * (o as int) + 1
  {}

  lemma {:induction false} BitsBack(x: byte)
    ensures Octet(x) as int == x
  {
    if x > 0 {
      BitsBack(x / 2);
      OneBitMore(Octet(x / 2));
      assert (Octet(x / 2) << 1) | 0 == Octet(x / 2) << 1;
    }
  }

  lemma NumbersBits(p: seq<byte>)
    ensures Numbers(Bits(p)) == p
  {
    forall i | 0 <= i < |p| ensures Numbers(Bits(p))[i] == p[i] { BitsBack(p[i]); }
  }

  /** The test on bits. */
  predicate Magic(p: seq<octet>)
    requires |p| >= 4
  { p[0] == 0x45 && p[1] == 0x67 && p[|p|-2] == 0x89 && p[|p|-1] == 0xAB }

  lemma FramedIsMagic(p: seq<byte>)
    requires |p| >= 4 && Framed(p)
    ensures Magic(Bits(p))
  {
    NumbersBits(p);
    MagicIsFramed(Bits(p));
  }

  lemma MagicIsFramed(p: seq<octet>)
    requires |p| >= 4
    ensures Framed(Numbers(p)) <==> Magic(p)
  {
    var n := |p|;
    if Framed(Numbers(p)) {
      NatIs(p[0], 0x45);
      NatIs(p[1], 0x67);
      NatIs(p[n-2], 0x89);
      NatIs(p[n-1], 0xAB);
    }
  }

  // ---------- guessing the key ----------

  /** Encrypts or decrypts: with the login key if there is one and the packet is in the clear or the
      login key brings it into the clear, otherwise with the shared key. */
  function Guess(p: seq<octet>, login: Option<seq<octet>>, shared: seq<octet>, first: bool): Result<seq<octet>>
    requires |shared| == BLOCK && (login.Some? ==> |login.value| == BLOCK)
  {
    if |p| < 4 then Err(TooShort)
    else if login.Some? && !first then
      var d := Xored(p, login.value);
      Ok(if Magic(p) || Magic(d) then d else Xored(p, shared))
    else Ok(Xored(p, shared))
  }

  // The four positions that decide, for a packet of n bytes.

  predicate ZeroAtEnds(key: seq<octet>, n: nat)
    requires |key| == BLOCK && n >= 4
  { key[0] == 0 && key[1] == 0 && key[(n-2) % BLOCK] == 0 && key[(n-1) % BLOCK] == 0 }

  predicate SameAtEnds(a: seq<octet>, b: seq<octet>, n: nat)
    requires |a| == |b| == BLOCK && n >= 4
  { a[0] == b[0] && a[1] == b[1] && a[(n-2) % BLOCK] == b[(n-2) % BLOCK] && a[(n-1) % BLOCK] == b[(n-1) % BLOCK] }

  /** The keystreams agree as far as a packet of n bytes sees them. */
  predicate Same(a: seq<octet>, b: seq<octet>, n: nat)
    requires |a| == |b| == BLOCK
  { forall i :: 0 <= i < n && i < BLOCK ==> a[i] == b[i] }

  lemma XorZero(x: octet, k: octet)
    ensures XorByte(x, k) == x <==> k == 0
  {}

  lemma XorEqual(a: octet, b: octet)
    ensures XorByte(a, b) == 0 <==> a == b
  {}

  lemma XorSame(x: octet, a: octet, b: octet)
    ensures XorByte(XorByte(x, a), b) == x <==> a == b
  {
    XorAssociates(x, a, b);
    XorZero(x, XorByte(a, b));
    XorEqual(a, b);
  }

  /** A clear packet still looks clear after encryption exactly if the key is zero at its ends. */
  lemma StaysMagic(p: seq<octet>, key: seq<octet>)
    requires |p| >= 4 && |key| == BLOCK && Magic(p)
    ensures Magic(Xored(p, key)) <==> ZeroAtEnds(key, |p|)
  {
    var n := |p|;
    XorZero(p[0], key[0]);
    XorZero(p[1], key[1]);
    XorZero(p[n-2], key[(n-2) % BLOCK]);
    XorZero(p[n-1], key[(n-1) % BLOCK]);
  }

  /** It looks clear after encryption with one key and decryption with another if they agree there. */
  lemma BecomesMagic(p: seq<octet>, a: seq<octet>, b: seq<octet>)
    requires |p| >= 4 && |a| == |b| == BLOCK && Magic(p)
    ensures Magic(Xored(Xored(p, a), b)) <==> SameAtEnds(a, b, |p|)
  {
    var n := |p|;
    XorSame(p[0], a[0], b[0]);
    XorSame(p[1], a[1], b[1]);
    XorSame(p[n-2], a[(n-2) % BLOCK], b[(n-2) % BLOCK]);
    XorSame(p[n-1], a[(n-1) % BLOCK], b[(n-1) % BLOCK]);
  }

  lemma Recovers(p: seq<octet>, a: seq<octet>, b: seq<octet>)
    requires |a| == |b| == BLOCK
    ensures Xored(Xored(p, a), b) == p <==> Same(a, b, |p|)
  {
    var r := Xored(Xored(p, a), b);
    forall i | 0 <= i < |p| ensures r[i] == p[i] <==> a[i % BLOCK] == b[i % BLOCK] {
      XorSame(p[i], a[i % BLOCK], b[i % BLOCK]);
    }
    if Same(a, b, |p|) {
      forall i | 0 <= i < |p| ensures r[i] == p[i] { assert i % BLOCK < BLOCK && i % BLOCK <= i; }
    } else {
      var i :| 0 <= i < |p| && i < BLOCK && a[i] != b[i];
      assert i % BLOCK == i && r[i] != p[i];
    }
  }

  /** A packet encrypted under the login key always comes back, whatever the shared keys. */
  lemma LoginRoundTrip(p: seq<octet>, login: seq<octet>, shared: seq<octet>, shared': seq<octet>)
    requires |p| >= 4 && Magic(p) && |login| == |shared| == |shared'| == BLOCK
    ensures var c := Guess(p, Some(login), shared, false); c.Ok? && Guess(c.value, Some(login), shared', false) == Ok(p)
  {
    XoredTwice(p, login);
  }

  /** When a packet encrypted under the shared key comes back: the receiver has no login key yet; or the
      shared key is not zero at the ends of the packet and does not agree with the login key there; or
      the two keys are the same as far as the packet goes. */
  predicate SharedWorks(login: Option<seq<octet>>, shared: seq<octet>, n: nat)
    requires |shared| == BLOCK && (login.Some? ==> |login.value| == BLOCK) && n >= 4
  {
    || login.None?
    || (!ZeroAtEnds(shared, n) && !SameAtEnds(shared, login.value, n))
    || Same(shared, login.value, n)
  }

  /** Exactly then: for a packet sent first, or before there was a login key. */
  lemma SharedRoundTrip(
      p: seq<octet>, own: Option<seq<octet>>, first: bool, login: Option<seq<octet>>, shared: seq<octet>)
    requires |p| >= 4 && Magic(p) && |shared| == BLOCK
    requires (own.Some? ==> |own.value| == BLOCK && first) && (login.Some? ==> |login.value| == BLOCK)
    ensures var c := Guess(p, own, shared, first);
            c.Ok? && (Guess(c.value, login, shared, false) == Ok(p) <==> SharedWorks(login, shared, |p|))
  {
    XoredTwice(p, shared);
    if login.Some? {
      StaysMagic(p, shared);
      BecomesMagic(p, shared, login.value);
      Recovers(p, shared, login.value);
    }
  }

  /** A packet encrypted under the login key of one end reaches an end without one only if the login
      key is the shared key. */
  lemma LoginNeedsLogin(p: seq<octet>, login: seq<octet>, shared: seq<octet>)
    requires |p| >= 4 && Magic(p) && |login| == |shared| == BLOCK
    ensures var c := Guess(p, Some(login), shared, false);
            c.Ok? && (Guess(c.value, None, shared, false) == Ok(p) <==> Same(login, shared, |p|))
  {
    Recovers(p, login, shared);
  }

  // ---------- packets end to end ----------

  /** The bytes sent for a packet. */
  function Sent(k: Packet, login: Option<seq<octet>>, shared: seq<octet>, first: bool): seq<octet>
    requires |shared| == BLOCK && (login.Some? ==> |login.value| == BLOCK)
  { Guess(Bits(Print(k)), login, shared, first).value }

  /** What a receiver makes of the bytes of a packet. */
  function Received(p: seq<octet>, login: Option<seq<octet>>, shared: seq<octet>): Result<Packet>
    requires |shared| == BLOCK && (login.Some? ==> |login.value| == BLOCK)
  { if |p| < 12 then Err(TooShort) else Parse(Numbers(Guess(p, login, shared, false).value)) }

  lemma PrintedIsMagic(k: Packet)
    ensures Magic(Bits(Print(k))) && Numbers(Bits(Print(k))) == Print(k)
  {
    FrameReads(Print(k), k.cmd, |k.head| % M16, |k.data| % M32, k.head + k.data);
    FramedIsMagic(Print(k));
    NumbersBits(Print(k));
  }

  /** A packet sent under the login key arrives with the same command, head and data, exactly when its
      lengths fit their fields. */
  lemma PacketUnderLogin(k: Packet, login: seq<octet>, shared: seq<octet>, shared': seq<octet>)
    requires |login| == |shared| == |shared'| == BLOCK
    ensures Received(Sent(k, Some(login), shared, false), Some(login), shared') == Ok(k) <==> Fits(k)
  {
    PrintedIsMagic(k);
    LoginRoundTrip(Bits(Print(k)), login, shared, shared');
    ParsePrint(k);
  }

  lemma NumbersApart(p: seq<octet>, q: seq<octet>)
    ensures Numbers(p) == Numbers(q) <==> p == q
  {
    if Numbers(p) == Numbers(q) {
      assert |p| == |Numbers(p)| == |q|;
      forall i | 0 <= i < |p| ensures p[i] == q[i] {
        assert Numbers(p)[i] == Numbers(q)[i];
        NatIs(p[i], q[i]);
      }
    }
  }

  /** A packet sent under the shared key arrives exactly when its lengths fit their fields and the receiver
      guesses right, or guesses wrong and reads a misprint of it. */
  lemma PacketUnderShared(
      k: Packet, own: Option<seq<octet>>, first: bool, login: Option<seq<octet>>, shared: seq<octet>)
    requires |shared| == BLOCK
    requires (own.Some? ==> |own.value| == BLOCK && first) && (login.Some? ==> |login.value| == BLOCK)
    ensures var c := Sent(k, own, shared, first);
            |c| == |Print(k)| &&
            (Received(c, login, shared) == Ok(k) <==>
              Fits(k) && (SharedWorks(login, shared, |c|) || Misread(k, Numbers(Guess(c, login, shared, false).value))))
  {
    var c := Sent(k, own, shared, first);
    var q := Guess(c, login, shared, false).value;
    PrintedIsMagic(k);
    SharedRoundTrip(Bits(Print(k)), own, first, login, shared);
    NumbersApart(q, Bits(Print(k)));
    FormsOf(k, Numbers(q));
  }

  /** So with data it arrives exactly when the receiver guesses right. */
  lemma PacketWithData(k: Packet, own: Option<seq<octet>>, first: bool, login: Option<seq<octet>>, shared: seq<octet>)
    requires k.data != [] && |shared| == BLOCK
    requires (own.Some? ==> |own.value| == BLOCK && first) && (login.Some? ==> |login.value| == BLOCK)
    ensures Received(Sent(k, own, shared, first), login, shared) == Ok(k)
       <==> Fits(k) && SharedWorks(login, shared, |Print(k)|)
  {
    PacketUnderShared(k, own, first, login, shared);
  }

  /** Where a frame of OutOfStep differs from what its packet prints to. */
  const ACCIDENT: seq<octet> := [0, 0, 0, 0, 0, 5, 0xff, 0xff, 0xff, 0xfb, 0, 0]

  function Shifted(login: seq<octet>): (r: seq<octet>)
    ensures |r| == |login|
  { seq(|login|, i requires 0 <= i < |login| => if i < 12 then XorByte(login[i], ACCIDENT[i]) else login[i]) }

  /** Without data it may arrive although the receiver guesses wrong: for every login key there is a
      shared key under which it does. */
  lemma ArrivesByAccident(login: seq<octet>)
    requires |login| == BLOCK
    ensures var k, shared := Packet(1, [], []), Shifted(login);
            && !SharedWorks(Some(login), shared, |Print(k)|)
            && Received(Sent(k, None, shared, false), Some(login), shared) == Ok(k)
  {
    var k, shared := Packet(1, [], []), Shifted(login);
    var p := Bits(Print(k));
    var c := Sent(k, None, shared, false);
    var d := Xored(c, login);
    PrintedIsMagic(k);
    ShiftedKeys(p, login);
    AccidentBytes(p, d);
    OutOfStep();
    assert Guess(c, Some(login), shared, false) == Ok(d);
  }

  lemma ShiftedKeys(p: seq<octet>, login: seq<octet>)
    requires |p| == 12 && |login| == BLOCK
    ensures var shared := Shifted(login); var d := Xored(Xored(p, shared), login);
            && (forall i :: 0 <= i < 12 ==> d[i] == XorByte(p[i], ACCIDENT[i]))
            && SameAtEnds(shared, login, 12) && !Same(shared, login, 12)
  {
    var shared := Shifted(login);
    forall i | 0 <= i < 12
      ensures Xored(Xored(p, shared), login)[i] == XorByte(p[i], ACCIDENT[i])
      ensures shared[i] == login[i] <==> ACCIDENT[i] == 0
    {
      assert i % BLOCK == i;
      Cancels(p[i], login[i], ACCIDENT[i]);
    }
    assert shared[5] != login[5];
  }

  lemma Cancels(x: octet, a: octet, b: octet)
    ensures XorByte(XorByte(x, XorByte(a, b)), a) == XorByte(x, b) && (XorByte(a, b) == a <==> b == 0)
  {}

  /** The frame of the packet without head and data, as bits. */
  lemma ClearBytes(p: seq<octet>)
    requires |p| == 12 && p == Bits(Print(Packet(1, [], []))) && Magic(p)
    ensures p[2] == 0 && p[3] == 1 && forall i :: 4 <= i < 10 ==> p[i] == 0
  {
    var b := Print(Packet(1, [], []));
    assert b == [0x45, 0x67, 0, 1, 0, 0, 0, 0, 0, 0, 0x89, 0xAB] by {
      assert BE16(1) == [0, 1] && BE16(0) == [0, 0] && BE32(0) == BE16(0) + BE16(0);
    }
    forall i | 0 <= i < 12 ensures p[i] as int == b[i] { BitsBack(b[i]); }
    NatIs(p[2], 0);
    NatIs(p[3], 1);
    forall i | 4 <= i < 10 ensures p[i] == 0 { NatIs(p[i], 0); }
  }

  lemma AccidentBytes(p: seq<octet>, d: seq<octet>)
    requires |p| == |d| == 12 && p == Bits(Print(Packet(1, [], []))) && Magic(p)
    requires forall i :: 0 <= i < 12 ==> d[i] == XorByte(p[i], ACCIDENT[i])
    ensures Magic(d) && Numbers(d) == [0x45, 0x67, 0, 1, 0, 5, 0xff, 0xff, 0xff, 0xfb, 0x89, 0xAB]
  {
    ClearBytes(p);
    AddZero(p);
    assert d[0] == 0x45 && d[1] == 0x67 && d[2] == 0 && d[3] == 1 && d[4] == 0 && d[5] == 5;
    assert d[6] == 0xff && d[7] == 0xff && d[8] == 0xff && d[9] == 0xfb && d[10] == 0x89 && d[11] == 0xAB;
    NumbersOf(d);
  }

  lemma NumbersOf(d: seq<octet>)
    requires d == [0x45, 0x67, 0, 1, 0, 5, 0xff, 0xff, 0xff, 0xfb, 0x89, 0xAB]
    ensures Numbers(d) == [0x45, 0x67, 0, 1, 0, 5, 0xff, 0xff, 0xff, 0xfb, 0x89, 0xAB]
  {}

  lemma AddZero(p: seq<octet>)
    ensures forall i :: 0 <= i < |p| ==> XorByte(p[i], 0) == p[i]
  {}

  // ---------- the session's routines, in place ----------

  class PacketSession {
    var loginKey: KeyBlock?
    const sharedKey: Key

    ghost predicate Valid()
      reads this
    { sharedKey.temp.Length == BLOCK && (loginKey != null ==> loginKey.data.Length == BLOCK) }

    /** The keystreams in use. */
    ghost function Login(): Option<seq<octet>>
      reads this, if loginKey != null then {loginKey.data} else {}
    { if loginKey == null then None else Some(loginKey.data[..]) }

    ghost function Shared(): seq<octet>
      reads sharedKey.temp
    { sharedKey.temp[..] }

    /** A packet buffer that is neither of the keys. */
    ghost predicate Apart(p: array<octet>)
      reads this
    { p != sharedKey.temp && (loginKey != null ==> p != loginKey.data) }

    constructor (shared: Key, login: KeyBlock?)
      requires shared.temp.Length == BLOCK && (login != null ==> login.data.Length == BLOCK)
      ensures Valid() && sharedKey == shared && loginKey == login
    {
      sharedKey, loginKey := shared, login;
    }

    static method LooksClear(p: array<octet>) returns (b: bool)
      requires p.Length >= 4
      ensures b == Magic(p[..])
    {
      var n := p.Length;
      b := p[0] == 0x45 && p[1] == 0x67 && p[n-2] == 0x89 && p[n-1] == 0xAB;
    }

    /** Encrypts or decrypts in place; a wrong guess is taken back. */
    method EncryptPayload(p: array<octet>, first: bool) returns (error: Option<Error>)
      requires Valid() && Apart(p)
      modifies p
      ensures error == if p.Length < 4 then Some(TooShort) else None
      ensures var r := Guess(old(p[..]), Login(), Shared(), first);
              p[..] == if r.Ok? then r.value else old(p[..])
    {
      if p.Length < 4 { return Some(TooShort); }
      var encrypt := LooksClear(p);
      if loginKey != null && !first {
        loginKey.Xor(p);
        var clear := LooksClear(p);
        if !encrypt && !clear {
          loginKey.Xor(p);
          XoredTwice(old(p[..]), loginKey.data[..]);
        } else {
          return None;
        }
      }
      sharedKey.Xor(p);
      return None;
    }

    /** The packet in a payload, decrypted in place. */
    method ConvertPayload(p: array<octet>) returns (r: Result<Packet>)
      requires Valid() && Apart(p)
      modifies p
      ensures r == Received(old(p[..]), Login(), Shared())
    {
      if p.Length < 12 { return Err(TooShort); }
      var error := EncryptPayload(p, false);
      MagicIsFramed(p[..]);
      var clear := LooksClear(p);
      if !clear { return Err(InvalidPayload); }
      r := Take(Numbers(p[..]));
    }

    /** The parts of a frame, taken off a buffer one after the other. */
    static method Take(p: seq<byte>) returns (r: Result<Packet>)
      requires |p| >= 12 && Framed(p)
      ensures r == Parse(p)
    {
      var cmd, n1, n2 := Read16(p, 2), Read16(p, 4), Read32(p, 6);
      if |p| % M32 != (12 + n1 + n2) % M32 { return Err(InvalidLength); }
      var b := p[10..|p|-2];
      var head := Next(b, n1);
      b := b[|head|..];
      var data := Next(b, n2);
      return Ok(Packet(cmd, head, data));
    }

    /** The payload of a packet, encrypted; first: with the shared key even if there is a login key. */
    method SendPacket(k: Packet, first: bool) returns (p: array<octet>)
      requires Valid()
      ensures fresh(p) && p[..] == Sent(k, Login(), Shared(), first)
    {
      var b := Assembled(k);
      p := new octet[|b|](i requires 0 <= i < |b| => Octet(b[i]));
      assert p[..] == Bits(b);
      var error := EncryptPayload(p, first);
    }

    /** The frame, written part by part. */
    static method Assembled(k: Packet) returns (b: seq<byte>)
      ensures b == Print(k)
    {
      b := [0x45, 0x67];
      b := b + BE16(k.cmd);
      b := b + BE16(|k.head| % M16);
      b := b + BE32(|k.data| % M32);
      b := b + k.head;
      b := b + k.data;
      b := b + [0x89, 0xAB];
    }
  }
}
