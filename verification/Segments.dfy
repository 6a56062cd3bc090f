/** Segments and their wire form: the 28-byte little-endian header, datagrams as
    concatenations of whole segments, and the decoder that inverts them. */
module Segments {
  import opened Words

  const OVERHEAD := 28
  const MAX_MTU := 1500

  const CMD_PUSH: u8 := 81
  const CMD_ACK: u8 := 82
  const CMD_WASK: u8 := 83
  const CMD_WINS: u8 := 84

  predicate KnownCommand(cmd: u8) {
    cmd == CMD_PUSH || cmd == CMD_ACK || cmd == CMD_WASK || cmd == CMD_WINS
  }

  /** A segment body: a pooled buffer, named by its identity, holding the data. */
  datatype Body = Nil | Buf(id: nat, data: seq<byte>) {
    function Data(): seq<byte> { if Nil? then [] else data }
  }

  datatype Segment = Segment(
    conv: u32, session: u32, cmd: u8, frg: u8, wnd: u16, ts: u32, sn: int, una: int, body: Body,
    rto: u32, xmit: u32, resendts: u32, fastack: u32, acked: bool)
  {
    function ToWire(): Wire {
      Wire(conv, session, cmd, frg, wnd, ts, sn, una, body.Data())
    }
  }

  /** What a segment puts on the wire. */
  datatype Wire = Wire(
    conv: u32, session: u32, cmd: u8, frg: u8, wnd: u16, ts: u32, sn: int, una: int, data: seq<byte>)
  {
    function Size(): nat { OVERHEAD + |data| }

    predicate Encodable() {
      0 <= sn < M32 && 0 <= una < M32 && |data| < M32
    }
  }

  // ---------- little-endian integers ----------

  function LE16(x: u16): (s: seq<byte>)
    ensures |s| == 2
  { [x % 0x100, x / 0x100] }

  function LE32(x: u32): (s: seq<byte>)
    ensures |s| == 4
  { [x % 0x100, x / 0x100 % 0x100, x / 0x1_0000 % 0x100, x / 0x100_0000] }

  function At16(b: seq<byte>, i: nat): u16
    requires i + 2 <= |b|
  { b[i] as int + b[i+1] as int * 0x100 }

  function At32(b: seq<byte>, i: nat): u32
    requires i + 4 <= |b|
  { b[i] as int + b[i+1] as int * 0x100 + b[i+2] as int * 0x1_0000 + b[i+3] as int * 0x100_0000 }

  /** Reading back a number written somewhere in a buffer. */
  lemma ReadsBack32(b: seq<byte>, i: nat, x: u32)
    requires i + 4 <= |b| && b[i..i+4] == LE32(x)
    ensures At32(b, i) == x
  {
    var c := b[i..i+4];
    assert b[i] == c[0] && b[i+1] == c[1] && b[i+2] == c[2] && b[i+3] == c[3];
    DigitsBack(x, x / 0x100, x / 0x1_0000, x / 0x100_0000);
  }

  lemma DigitsBack(x: int, y: int, z: int, t: int)
    requires y == x / 0x100 && z == x / 0x1_0000 && t == x / 0x100_0000
    ensures x == x % 0x100 + (y % 0x100) * 0x100 + (z % 0x100) * 0x1_0000 + t * 0x100_0000
  {
    SecondDigit(x, y, z);
    ThirdDigit(x, z, t);
  }

  lemma SecondDigit(x: int, y: int, z: int)
    requires y == x / 0x100 && z == x / 0x1_0000
    ensures y % 0x100 == y - 0x100 * z
  {
    var r := x % 0x1_0000;
    assert x == 0x1_0000 * z + r && y == 0x100 * z + r / 0x100;
  }

  lemma ThirdDigit(x: int, z: int, t: int)
    requires z == x / 0x1_0000 && t == x / 0x100_0000
    ensures z % 0x100 == z - 0x100 * t
  {
    var r := x % 0x100_0000;
    assert x == 0x100_0000 * t + r && z == 0x100 * t + r / 0x1_0000;
  }

  lemma ReadsBack16(b: seq<byte>, i: nat, x: u16)
    requires i + 2 <= |b| && b[i..i+2] == LE16(x)
    ensures At16(b, i) == x
  {
    var c := b[i..i+2];
    assert b[i] == c[0] && b[i+1] == c[1];
  }

  /** Where the pieces of a concatenation lie: a 12-byte part, then four words, then the rest. */
  lemma FourWords(p: seq<byte>, a1: seq<byte>, a2: seq<byte>, a3: seq<byte>, a4: seq<byte>, tail: seq<byte>)
    requires |p| == 12 && |a1| == |a2| == |a3| == |a4| == 4
    ensures var b := p + (a1 + (a2 + (a3 + (a4 + tail))));
            b[..12] == p && b[12..16] == a1 && b[16..20] == a2 && b[20..24] == a3 && b[24..28] == a4
  {
    var t := a1 + (a2 + (a3 + (a4 + tail)));
    assert t[0..4] == a1 && t[4..8] == a2 && t[8..12] == a3 && t[12..16] == a4;
    var b := p + t;
    assert b[12..16] == t[0..4] && b[16..20] == t[4..8] && b[20..24] == t[8..12] && b[24..28] == t[12..16];
  }

  // ---------- encoding ----------

  /** The first 12 bytes of the header. */
  function Flags(w: Wire): (s: seq<byte>)
    ensures |s| == 12
  { LE32(w.conv) + LE32(w.session) + [w.cmd, w.frg] + LE16(w.wnd) }

  /** The header of w, and after it the given bytes. */
  function HeaderThen(w: Wire, tail: seq<byte>): (s: seq<byte>)
    ensures |s| == OVERHEAD + |tail| && s[OVERHEAD..] == tail
  {
    Flags(w) + (LE32(w.ts) + (LE32(Wrap32(w.sn)) + (LE32(Wrap32(w.una)) + (LE32(Wrap32(|w.data|)) + tail))))
  }

  function Encode(w: Wire): (s: seq<byte>)
    ensures |s| == w.Size()
  { HeaderThen(w, w.data) }

  function EncodeAll(ws: seq<Wire>): seq<byte> {
    if ws == [] then [] else EncodeAll(ws[..|ws|-1]) + Encode(ws[|ws|-1])
  }

  function SizeAll(ws: seq<Wire>): nat {
    if ws == [] then 0 else SizeAll(ws[..|ws|-1]) + ws[|ws|-1].Size()
  }

  /** Datagrams as bytes. */
  function EncodeNet(ds: seq<seq<Wire>>): (r: seq<seq<byte>>)
    ensures |r| == |ds|
  { seq(|ds|, i requires 0 <= i < |ds| => EncodeAll(ds[i])) }

  lemma {:induction false} EncodeAllSize(ws: seq<Wire>)
    ensures |EncodeAll(ws)| == SizeAll(ws)
  {
    if ws != [] { EncodeAllSize(ws[..|ws|-1]); }
  }

  lemma {:induction false} EncodeAllFront(w: Wire, ws: seq<Wire>)
    ensures EncodeAll([w] + ws) == Encode(w) + EncodeAll(ws)
  {
    var all := [w] + ws;
    assert all[|all|-1] == if ws == [] then w else ws[|ws|-1];
    if ws == [] {
      assert all[..0] == [];
      assert EncodeAll(all) == [] + Encode(w);
    } else {
      var front, last := ws[..|ws|-1], ws[|ws|-1];
      assert all[..|all|-1] == [w] + front;
      EncodeAllFront(w, front);
      assert EncodeAll(all) == (Encode(w) + EncodeAll(front)) + Encode(last);
    }
  }

  // ---------- decoding ----------

  /** The header fields at the front of a datagram; its data are the bytes announced by
      the length field, all of which must be there. */
  function HeadLength(b: seq<byte>): u32
    requires |b| >= OVERHEAD
  { At32(b, 24) }

  function DecodeFront(b: seq<byte>): Wire
    requires |b| >= OVERHEAD && |b| >= OVERHEAD + HeadLength(b)
  {
    Wire(At32(b, 0), At32(b, 4), b[8], b[9], At16(b, 10), At32(b, 12), At32(b, 16), At32(b, 20),
         b[OVERHEAD..OVERHEAD + HeadLength(b)])
  }

  lemma DecodedInRange(b: seq<byte>)
    requires |b| >= OVERHEAD && |b| >= OVERHEAD + HeadLength(b)
    ensures var w := DecodeFront(b); 0 <= w.sn < M32 && 0 <= w.una < M32 && |w.data| <= |b| - OVERHEAD
  {}

  /** The whole segments at the front of a datagram, as far as lengths and headers allow. */
  function DecodeAll(b: seq<byte>): seq<Wire> {
    if |b| < OVERHEAD || |b| < OVERHEAD + HeadLength(b) then []
    else [DecodeFront(b)] + DecodeAll(b[OVERHEAD + HeadLength(b)..])
  }

  // Reading a header field gives back what was written there.

  lemma FlagsReadBack(w: Wire, b: seq<byte>)
    requires |b| >= 12 && b[..12] == Flags(w)
    ensures At32(b, 0) == w.conv && At32(b, 4) == w.session && b[8] == w.cmd && b[9] == w.frg && At16(b, 10) == w.wnd
  {
    var f := Flags(w);
    assert b[0..4] == f[0..4] == LE32(w.conv);
    assert b[4..8] == f[4..8] == LE32(w.session);
    assert b[8] == f[8] && b[9] == f[9];
    assert b[10..12] == f[10..12] == LE16(w.wnd);
    ReadsBack32(b, 0, w.conv);
    ReadsBack32(b, 4, w.session);
    ReadsBack16(b, 10, w.wnd);
  }

  lemma TimesReadBack(b: seq<byte>, ts: u32, sn: u32)
    requires |b| >= OVERHEAD && b[12..16] == LE32(ts) && b[16..20] == LE32(sn)
    ensures At32(b, 12) == ts && At32(b, 16) == sn
  {
    ReadsBack32(b, 12, ts);
    ReadsBack32(b, 16, sn);
  }

  lemma LengthReadsBack(b: seq<byte>, una: u32, len: u32)
    requires |b| >= OVERHEAD && b[20..24] == LE32(una) && b[24..28] == LE32(len)
    ensures At32(b, 20) == una && At32(b, 24) == len
  {
    ReadsBack32(b, 20, una);
    ReadsBack32(b, 24, len);
  }

  lemma HeaderReadsBack(w: Wire, b: seq<byte>, tail: seq<byte>)
    requires w.Encodable() && b == HeaderThen(w, tail)
    ensures && At32(b, 0) == w.conv && At32(b, 4) == w.session
            && b[8] == w.cmd && b[9] == w.frg && At16(b, 10) == w.wnd
            && At32(b, 12) == w.ts && At32(b, 16) == w.sn && At32(b, 20) == w.una && At32(b, 24) == |w.data|
  {
    var sn, una, len := Wrap32(w.sn), Wrap32(w.una), Wrap32(|w.data|);
    FourWords(Flags(w), LE32(w.ts), LE32(sn), LE32(una), LE32(len), tail);
    FlagsReadBack(w, b);
    TimesReadBack(b, w.ts, sn);
    LengthReadsBack(b, una, len);
  }

  /** Four bytes spell a number, least significant first. */
  predicate Spells(a: byte, b: byte, c: byte, d: byte, x: int) {
    x == a as int + 256 * (b as int) + 65536 * (c as int) + 16777216 * (d as int)
  }

  /** The layout of a header, byte by byte. */
  lemma HeaderLayout(w: Wire)
    requires w.Encodable()
    ensures var b := Encode(w);
            && |b| == 28 + |w.data| && b[28..] == w.data
            && Spells(b[0], b[1], b[2], b[3], w.conv) && Spells(b[4], b[5], b[6], b[7], w.session)
            && w.cmd == b[8] && w.frg == b[9] && Spells(b[10], b[11], 0, 0, w.wnd)
            && Spells(b[12], b[13], b[14], b[15], w.ts) && Spells(b[16], b[17], b[18], b[19], w.sn)
            && Spells(b[20], b[21], b[22], b[23], w.una) && Spells(b[24], b[25], b[26], b[27], |w.data|)
  {
    HeaderReadsBack(w, Encode(w), w.data);
  }

  /** More bytes after a segment are more bytes after its header. */
  lemma HeaderThenMore(w: Wire, tail: seq<byte>, rest: seq<byte>)
    ensures HeaderThen(w, tail) + rest == HeaderThen(w, tail + rest)
  {}

  /** Decoding the front of an encoded segment gives the segment, whatever follows it. */
  lemma DecodeEncode(w: Wire, rest: seq<byte>)
    requires w.Encodable()
    ensures var b := Encode(w) + rest;
            && |b| >= OVERHEAD + HeadLength(b)
            && HeadLength(b) == |w.data|
            && DecodeFront(b) == w
            && b[OVERHEAD + HeadLength(b)..] == rest
  {
    var b := Encode(w) + rest;
    HeaderThenMore(w, w.data, rest);
    HeaderReadsBack(w, b, w.data + rest);
    assert b[OVERHEAD..] == w.data + rest;
    assert b[OVERHEAD..OVERHEAD + |w.data|] == b[OVERHEAD..][..|w.data|];
    assert b[OVERHEAD + |w.data|..] == b[OVERHEAD..][|w.data|..];
  }

  /** Printing and parsing: a datagram made of whole segments decodes to exactly those segments. */
  lemma {:induction false} DecodeAllEncodeAll(ws: seq<Wire>)
    requires forall w :: w in ws ==> w.Encodable()
    ensures DecodeAll(EncodeAll(ws)) == ws
  {
    if ws != [] {
      var rest := EncodeAll(ws[1..]);
      assert ws == [ws[0]] + ws[1..];
      EncodeAllFront(ws[0], ws[1..]);
      DecodeEncode(ws[0], rest);
      DecodeAllEncodeAll(ws[1..]);
    }
  }
}
