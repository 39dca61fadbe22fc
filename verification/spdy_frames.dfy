/** SPDY frames and header blocks as src/spdy.c and src/request-spdy.c write them. */
module SpdyFrames {
  import opened Common
  import opened ByteBuffer

  type U8 = x: int | 0 <= x < 0x100
  type U16 = x: int | 0 <= x < 0x1_0000
  type U32 = x: int | 0 <= x < 0x1_0000_0000

  const SPDY_VERSION: U16 := 3
  const SYN_REPLY: U16 := 2

  /** _write_uint16 and _write_uint32: network byte order. */
  function Bytes16(n: U16): (r: seq<Byte>)
    ensures |r| == 2
  {
    [n / 256, n % 256]
  }

  function Bytes32(n: U32): (r: seq<Byte>)
    ensures |r| == 4
  {
    [n / 0x100_0000, n / 0x1_0000 % 256, n / 0x100 % 256, n % 256]
  }

  /** _read_uint16 and _read_uint32. */
  function Read16(p: seq<Byte>): (r: U16)
    requires |p| >= 2
  {
    p[0] as int * 256 + p[1] as int
  }

  function Read32(p: seq<Byte>): (r: U32)
    requires |p| >= 4
  {
    p[0] as int * 0x100_0000 + p[1] as int * 0x1_0000 + p[2] as int * 0x100 + p[3] as int
  }

  lemma ReadWrite16(n: U16, rest: seq<Byte>)
    ensures Read16(Bytes16(n) + rest) == n
  {
  }

  lemma ReadWrite32(n: U32, rest: seq<Byte>)
    ensures Read32(Bytes32(n) + rest) == n
  {
    var c := n / 0x100;
    var b := c / 0x100;
    assert n / 0x1_0000 == b && n / 0x100_0000 == b / 0x100;
  }

  // ---------------------------------------------------------------- control frames

  datatype Ctrl = Ctrl(version: int, frameType: U16, flags: U8, length: int)

  /** http2d_spdy_read_ctrl at a position of the input. */
  function ReadCtrl(p: seq<Byte>): Ctrl
    requires |p| >= 8
  {
    Ctrl(Read16(p) % 0x8000, Read16(p[2..]), p[4], Read32(p[4..]) % 0x100_0000)
  }

  /** Overwriting the first byte. */
  function Head(b: Byte, x: seq<Byte>): (r: seq<Byte>)
    requires x != []
    ensures |r| == |x|
  {
    [b] + x[1..]
  }

  /** The control bit and the version, the type, and flags in place of the top byte of the length. */
  function CtrlBytes(frameType: U16, flags: U8, length: U32): (r: seq<Byte>)
    ensures |r| == 8
  {
    Head(128, Bytes16(SPDY_VERSION)) + Bytes16(frameType) + Head(flags, Bytes32(length))
  }

  /** A reader recovers version 3, type and flags, and the length modulo 2^24. */
  lemma CtrlRoundTrip(frameType: U16, flags: U8, length: U32, rest: seq<Byte>)
    ensures CtrlBytes(frameType, flags, length)[0] >= 128
    ensures ReadCtrl(CtrlBytes(frameType, flags, length) + rest)
         == Ctrl(SPDY_VERSION, frameType, flags, length % 0x100_0000)
  {
    hide Bytes16, Bytes32, Read32;
    var b := CtrlBytes(frameType, flags, length) + rest;
    VersionBytes();
    assert b[2..] == Bytes16(frameType) + (Head(flags, Bytes32(length)) + rest);
    ReadWrite16(frameType, Head(flags, Bytes32(length)) + rest);
    assert b[4..] == Head(flags, Bytes32(length)) + rest;
    LowLength(b[4..], flags, length);
  }

  lemma VersionBytes()
    ensures Head(128, Bytes16(SPDY_VERSION)) == [128, 3]
  {
  }

  /** The length comes back exactly when it fits 24 bits. */
  lemma LengthFitsIff(frameType: U16, flags: U8, length: U32)
    ensures ReadCtrl(CtrlBytes(frameType, flags, length)).length == length <==> length < 0x100_0000
  {
    hide CtrlBytes, ReadCtrl;
    CtrlRoundTrip(frameType, flags, length, []);
    assert CtrlBytes(frameType, flags, length) + [] == CtrlBytes(frameType, flags, length);
  }

  /** Flags take the place of the top byte of the length. */
  lemma LowLength(p: seq<Byte>, flags: U8, length: U32)
    requires |p| >= 4 && p[..4] == Head(flags, Bytes32(length))
    ensures Read32(p) % 0x100_0000 == length % 0x100_0000
  {
    ReadWrite32(length, []);
    var h, b := p[..4], Bytes32(length) + [];
    assert forall k :: 1 <= k < 4 ==> p[k] == h[k] && h[k] == b[k];
    assert Read32(p) == 0x100_0000 * p[0] as int + Read32(b) % 0x100_0000;
  }

  /** http2d_spdy_write_ctrl. */
  method WriteCtrl(buf: array<Byte>, frameType: U16, flags: U8, length: U32)
    requires buf.Length >= 8
    modifies buf
    ensures buf[..8] == CtrlBytes(frameType, flags, length) && buf[8..] == old(buf[8..])
  {
    hide Bytes16, Bytes32, Head;
    VersionBytes();
    TopByte();
    ghost var b0 := buf[..];
    Copy(buf, 0, Bytes16(SPDY_VERSION));
    ghost var b1 := buf[..];
    Parts(b1, b0[..0], Bytes16(SPDY_VERSION), b0[2..]);
    SetFirst(buf, 0, buf[0] % 128 + 128, Bytes16(SPDY_VERSION));
    ghost var b2 := buf[..];
    Parts(b2, b1[..0], Head(128, Bytes16(SPDY_VERSION)), b1[2..]);
    Copy(buf, 2, Bytes16(frameType));
    ghost var b3 := buf[..];
    Parts(b3, b2[..2], Bytes16(frameType), b2[4..]);
    Copy(buf, 4, Bytes32(length));
    ghost var b4 := buf[..];
    Parts(b4, b3[..4], Bytes32(length), b3[8..]);
    SetFirst(buf, 4, flags, Bytes32(length));
    Parts(buf[..], b4[..4], Head(flags, Bytes32(length)), b4[8..]);
    assert buf[..8] == b3[..4] + Head(flags, Bytes32(length));
    assert b3[..4] == b2[..2] + Bytes16(frameType);
    assert b2[..2] == Head(128, Bytes16(SPDY_VERSION));
    assert buf[8..] == b0[8..];
  }

  /** The parts of some bytes. */
  lemma Parts(b: seq<Byte>, p: seq<Byte>, x: seq<Byte>, q: seq<Byte>)
    requires b == p + x + q
    ensures b[..|p|] == p && b[|p|..|p| + |x|] == x && b[|p| + |x|..] == q && b[..|p| + |x|] == p + x
  {
  }

  /** The first of some bytes just written is overwritten. */
  method SetFirst(buf: array<Byte>, at: nat, b: Byte, ghost x: seq<Byte>)
    requires x != [] && at + |x| <= buf.Length && buf[at..at + |x|] == x
    modifies buf
    ensures buf[..] == old(buf[..at]) + Head(b, x) + old(buf[at + |x|..])
  {
    buf[at] := b;
    assert buf[at..at + |x|] == [b] + x[1..];
  }

  lemma TopByte()
    ensures Bytes16(SPDY_VERSION)[0] == 0
  {
  }

  // ---------------------------------------------------------------- replies and data

  /** A stream number with its top bit cleared. */
  function IdBytes(id: U32): (r: seq<Byte>)
    ensures |r| == 4
  {
    Head(Bytes32(id)[0] % 128, Bytes32(id))
  }

  lemma IdRoundTrip(id: U32, rest: seq<Byte>)
    ensures Read32(IdBytes(id) + rest) == id % 0x8000_0000 && IdBytes(id)[0] < 128
  {
    hide Bytes32, Read32;
    ReadWrite32(id, []);
    var b, p := Bytes32(id) + [], IdBytes(id) + rest;
    assert p[0] == b[0] % 128 && p[1] == b[1] && p[2] == b[2] && p[3] == b[3];
    ClearTop(b, p);
  }

  /** Clearing the top bit of the first byte takes the number modulo 2^31. */
  lemma ClearTop(b: seq<Byte>, p: seq<Byte>)
    requires |b| >= 4 && |p| >= 4 && p[0] == b[0] % 128 && p[1] == b[1] && p[2] == b[2] && p[3] == b[3]
    ensures Read32(p) == Read32(b) % 0x8000_0000
  {
    var low: int := b[1] as int * 0x1_0000 + b[2] as int * 0x100 + b[3] as int;
    assert b[0] == 128 * (b[0] / 128) + b[0] % 128;
  }

  /** http2d_spdy_write_syn_reply. */
  method WriteSynReply(buf: array<Byte>, id: U32, flags: U8, headersLength: U32)
    requires buf.Length >= 12
    modifies buf
    ensures buf[..12] == SynReplyBytes(id, flags, headersLength)
  {
    hide CtrlBytes, Bytes32;
    WriteCtrl(buf, SYN_REPLY, flags, (headersLength + 4) % 0x1_0000_0000);
    ghost var ctrl := buf[..8];
    Copy(buf, 8, Bytes32(id));
    buf[8] := buf[8] % 128;
    assert buf[..8] == ctrl;
    assert buf[8..12] == IdBytes(id);
    assert buf[..12] == buf[..8] + buf[8..12];
  }

  function SynReplyBytes(id: U32, flags: U8, headersLength: U32): (r: seq<Byte>)
    ensures |r| == 12
  {
    CtrlBytes(SYN_REPLY, flags, (headersLength + 4) % 0x1_0000_0000) + IdBytes(id)
  }

  /** The length field of a reply covers exactly the bytes after the 8-byte head, exactly when they fit. */
  lemma SynReplyCovers(id: U32, flags: U8, headers: seq<Byte>)
    requires |headers| < 0x1_0000_0000
    ensures var frame := SynReplyBytes(id, flags, |headers|) + headers;
            && ReadCtrl(frame).version == 3 && ReadCtrl(frame).frameType == 2
            && ReadCtrl(frame).flags == flags
            && Read32(frame[8..]) == id % 0x8000_0000
            && (ReadCtrl(frame).length == |frame| - 8 <==> |headers| + 4 < 0x100_0000)
  {
    hide CtrlBytes, IdBytes, ReadCtrl, Read32;
    var n: U32 := (|headers| + 4) % 0x1_0000_0000;
    var frame := SynReplyBytes(id, flags, |headers|) + headers;
    assert frame == CtrlBytes(SYN_REPLY, flags, n) + (IdBytes(id) + headers);
    CtrlRoundTrip(SYN_REPLY, flags, n, IdBytes(id) + headers);
    assert frame[8..] == IdBytes(id) + headers;
    IdRoundTrip(id, headers);
  }

  /** http2d_spdy_write_data. */
  method WriteData(buf: array<Byte>, id: U32, flags: U8, length: U32)
    requires buf.Length >= 8
    modifies buf
    ensures buf[..8] == DataBytes(id, flags, length)
  {
    hide Bytes32;
    Copy(buf, 0, Bytes32(id));
    buf[0] := buf[0] % 128;
    assert buf[..4] == IdBytes(id);
    Copy(buf, 4, Bytes32(length));
    buf[4] := flags;
    assert buf[4..8] == Head(flags, Bytes32(length));
    assert buf[..8] == buf[..4] + buf[4..8];
  }

  function DataBytes(id: U32, flags: U8, length: U32): (r: seq<Byte>)
    ensures |r| == 8
  {
    IdBytes(id) + Head(flags, Bytes32(length))
  }

  /** A data frame has its control bit clear, and its fields read back. */
  lemma DataRoundTrip(id: U32, flags: U8, length: U32)
    ensures var b := DataBytes(id, flags, length);
            && b[0] < 128 && Read32(b) == id % 0x8000_0000 && b[4] == flags
            && Read32(b[4..]) % 0x100_0000 == length % 0x100_0000
  {
    hide Read32, Bytes32;
    var b := DataBytes(id, flags, length);
    IdRoundTrip(id, Head(flags, Bytes32(length)));
    assert b[4..] == Head(flags, Bytes32(length)) && b[4..][..4] == b[4..];
    LowLength(b[4..], flags, length);
  }

  /** Numbers go out in network byte order, and the heads of a reply and of a data frame, byte for byte: stream
      0x80000105 with flags 1, before 0x203 bytes of headers and before 0x40506 bytes of data. */
  lemma HeadExamples()
    ensures Bytes16(0x0102) == [1, 2] && Bytes32(0x01020304) == [1, 2, 3, 4]
    ensures SynReplyBytes(0x80000105, 1, 0x203) == [0x80, 3, 0, 2, 1, 0, 2, 7, 0, 0, 1, 5]
    ensures DataBytes(0x80000105, 1, 0x40506) == [0, 0, 1, 5, 1, 4, 5, 6]
  {
    hide Head, Bytes32, Bytes16;
    NumberExamples();
    VersionBytes();
    HeadIs(1, 0, 0, 2, 7);
    HeadIs(0, 0x80, 0, 1, 5);
    HeadIs(1, 0, 4, 5, 6);
    assert CtrlBytes(SYN_REPLY, 1, 0x207) == [0x80, 3] + [0, 2] + [1, 0, 2, 7];
    assert IdBytes(0x80000105) == [0, 0, 1, 5];
  }

  lemma NumberExamples()
    ensures Bytes16(0x0102) == [1, 2] && Bytes32(0x01020304) == [1, 2, 3, 4]
    ensures Bytes16(SPDY_VERSION) == [0, 3] && Bytes16(SYN_REPLY) == [0, 2]
    ensures Bytes32(0x207) == [0, 0, 2, 7] && Bytes32(0x40506) == [0, 4, 5, 6]
    ensures Bytes32(0x80000105) == [0x80, 0, 1, 5]
  {
  }

  lemma HeadIs(b: Byte, x0: Byte, x1: Byte, x2: Byte, x3: Byte)
    ensures Head(b, [x0, x1, x2, x3]) == [b, x1, x2, x3]
  {
  }

  // ---------------------------------------------------------------- header blocks

  datatype Pair = Pair(key: seq<Byte>, val: seq<Byte>)

  predicate Fits(p: Pair) {
    |p.key| < 0x8000_0000 && |p.val| < 0x8000_0000
  }

  /** What req_spdy_header_add appends. */
  function PairBytes(p: Pair): seq<Byte>
    requires Fits(p)
  {
    Bytes32(|p.key|) + p.key + Bytes32(|p.val|) + p.val
  }

  function PairsBytes(ps: seq<Pair>): seq<Byte>
    requires forall i :: 0 <= i < |ps| ==> Fits(ps[i])
  {
    if ps == [] then [] else PairsBytes(ps[..|ps| - 1]) + PairBytes(ps[|ps| - 1])
  }

  /** A reader of length-prefixed strings (section 2.6.10 of the SPDY draft). */
  function ReadString(b: seq<Byte>): Option<(seq<Byte>, seq<Byte>)> {
    if |b| < 4 then None
    else
      var n := Read32(b);
      if |b| - 4 < n then None else Some((b[4..4 + n], b[4 + n..]))
  }

  function ReadPairs(n: nat, b: seq<Byte>): Option<seq<Pair>>
    decreases n
  {
    if n == 0 then (if b == [] then Some([]) else None)
    else match ReadString(b)
      case None => None
      case Some((k, b1)) =>
        match ReadString(b1)
        case None => None
        case Some((v, b2)) =>
          match ReadPairs(n - 1, b2)
          case None => None
          case Some(ps) => Some([Pair(k, v)] + ps)
  }

  /** A reader of a whole block: the number of pairs, and the pairs. */
  function ReadBlock(b: seq<Byte>): Option<seq<Pair>> {
    if |b| < 4 then None else ReadPairs(Read32(b), b[4..])
  }

  lemma StringBack(x: seq<Byte>, rest: seq<Byte>)
    requires |x| < 0x8000_0000
    ensures ReadString(Bytes32(|x|) + x + rest) == Some((x, rest))
  {
    hide Bytes32, Read32;
    var b := Bytes32(|x|) + x + rest;
    assert b == Bytes32(|x|) + (x + rest);
    ReadWrite32(|x|, x + rest);
    assert b[4..4 + |x|] == x && b[4 + |x|..] == rest;
  }

  lemma PairBack(p: Pair, rest: seq<Byte>)
    requires Fits(p)
    ensures ReadString(PairBytes(p) + rest) == Some((p.key, Bytes32(|p.val|) + p.val + rest))
    ensures ReadString(Bytes32(|p.val|) + p.val + rest) == Some((p.val, rest))
  {
    hide ReadString, Bytes32;
    StringBack(p.key, Bytes32(|p.val|) + p.val + rest);
    StringBack(p.val, rest);
    assert PairBytes(p) + rest == Bytes32(|p.key|) + p.key + (Bytes32(|p.val|) + p.val + rest);
  }

  lemma PairsLast(ps: seq<Pair>)
    requires ps != [] && forall i :: 0 <= i < |ps| ==> Fits(ps[i])
    ensures PairsBytes(ps) == PairsBytes(ps[..|ps| - 1]) + PairBytes(ps[|ps| - 1])
  {
    hide PairBytes;
  }

  /** The pairs are written in order: the first one comes first. */
  lemma {:induction false} PairsFirst(ps: seq<Pair>)
    requires ps != [] && forall i :: 0 <= i < |ps| ==> Fits(ps[i])
    ensures PairsBytes(ps) == PairBytes(ps[0]) + PairsBytes(ps[1..])
    decreases |ps|
  {
    hide PairBytes, PairsBytes, Fits;
    var n := |ps| - 1;
    PairsLast(ps);
    if n == 0 {
      assert ps[..0] == [] && ps[1..] == [];
      PairsNone();
    } else {
      PairsFirst(ps[..n]);
      PairsLast(ps[1..]);
      assert ps[..n][1..] == ps[1..][..n - 1];
      Reassociate(PairBytes(ps[0]), PairsBytes(ps[1..][..n - 1]), PairBytes(ps[n]));
    }
  }

  lemma PairsNone()
    ensures PairsBytes([]) == []
  {
  }

  lemma {:induction false} PairsBack(ps: seq<Pair>)
    requires forall i :: 0 <= i < |ps| ==> Fits(ps[i])
    ensures ReadPairs(|ps|, PairsBytes(ps)) == Some(ps)
    decreases |ps|
  {
    hide PairBytes, ReadString, Bytes32;
    if ps != [] {
      PairsFirst(ps);
      PairBack(ps[0], PairsBytes(ps[1..]));
      PairsBack(ps[1..]);
      assert ps == [ps[0]] + ps[1..];
    }
  }

  /** The block before compression: a count, then the pairs. */
  function BlockBytes(ps: seq<Pair>): seq<Byte>
    requires |ps| < 0x8000_0000 && forall i :: 0 <= i < |ps| ==> Fits(ps[i])
  {
    Bytes32(|ps|) + PairsBytes(ps)
  }

  /** For any sequence of headers the block parses back to exactly those pairs in order. */
  lemma BlockRoundTrip(ps: seq<Pair>)
    requires |ps| < 0x8000_0000 && forall i :: 0 <= i < |ps| ==> Fits(ps[i])
    ensures ReadBlock(BlockBytes(ps)) == Some(ps)
  {
    hide PairsBytes, ReadPairs, Bytes32, Read32;
    ReadWrite32(|ps|, PairsBytes(ps));
    PairsBack(ps);
    assert BlockBytes(ps)[4..] == PairsBytes(ps);
  }

  /** The block of one header, "a" with the value "bc", byte for byte. */
  lemma BlockExample()
    ensures BlockBytes([Pair([97], [98, 99])]) == [0, 0, 0, 1, 0, 0, 0, 1, 97, 0, 0, 0, 2, 98, 99]
  {
    hide Bytes32;
    SmallNumbers();
    PairsLast([Pair([97], [98, 99])]);
  }

  lemma SmallNumbers()
    ensures Bytes32(1) == [0, 0, 0, 1] && Bytes32(2) == [0, 0, 0, 2]
  {
  }

  lemma MorePairs(ps: seq<Pair>, p: Pair, h: seq<Byte>)
    requires (forall i :: 0 <= i < |ps| ==> Fits(ps[i])) && Fits(p) && h == PairsBytes(ps)
    ensures PairsBytes(ps + [p]) == h + Bytes32(|p.key|) + p.key + Bytes32(|p.val|) + p.val
  {
    hide Bytes32, PairsBytes;
    PairsLast(ps + [p]);
    assert (ps + [p])[..|ps|] == ps;
    FiveParts(h, Bytes32(|p.key|), p.key, Bytes32(|p.val|), p.val);
  }

  lemma FiveParts(h: seq<Byte>, a: seq<Byte>, b: seq<Byte>, c: seq<Byte>, d: seq<Byte>)
    ensures h + (a + b + c + d) == h + a + b + c + d
  {
    Reassociate(h, a, b);
    Reassociate(h, a + b, c);
    Reassociate(h, a + b + c, d);
  }

  /** The header part of a reply under construction. */
  class Reply {
    const header: Buffer
    var headerNum: nat
    ghost var pairs: seq<Pair>

    ghost predicate Valid()
      reads this, header, header.data
    {
      && headerNum == |pairs| && (forall i :: 0 <= i < |pairs| ==> Fits(pairs[i]))
      && header.Valid() && header.Content() == PairsBytes(pairs)
    }

    constructor ()
      ensures Valid() && pairs == [] && fresh(header) && fresh(header.data)
    {
      header := new Buffer();
      headerNum, pairs := 0, [];
    }

    /** req_spdy_header_add. */
    method HeaderAdd(key: seq<Byte>, val: seq<Byte>)
      requires Valid() && Fits(Pair(key, val))
      modifies this, header, header.data
      ensures Valid() && pairs == old(pairs) + [Pair(key, val)]
      ensures (header.data == old(header.data) || fresh(header.data))
    {
      hide Bytes32, PairsBytes;
      ghost var h := header.Content();
      AddString(key);
      AddString(val);
      headerNum := headerNum + 1;
      MorePairs(pairs, Pair(key, val), h);
      pairs := pairs + [Pair(key, val)];
    }

    /** A string with its length before it. */
    method AddString(x: seq<Byte>)
      requires header.Valid() && |x| < 0x8000_0000
      modifies header, header.data
      ensures header.Valid() && header.Content() == old(header.Content()) + Bytes32(|x|) + x
      ensures header.data == old(header.data) || fresh(header.data)
    {
      hide Bytes32;
      header.Add(Bytes32(|x|));
      header.Add(x);
    }

    /** req_spdy_header_finish. The compressor is a parameter; what goes out is the frame head followed by
        the compressed block. */
    method HeaderFinish(id: U32, deflate: seq<Byte> -> seq<Byte>, bufferWrite: Buffer) returns (ghost block: seq<Byte>)
      requires Valid() && |pairs| < 0x8000_0000 && bufferWrite.Valid()
      requires bufferWrite != header && bufferWrite.data != header.data
      requires |deflate(BlockBytes(pairs))| < 0x1_0000_0000
      modifies this, header, header.data, bufferWrite, bufferWrite.data
      ensures block == BlockBytes(old(pairs)) && header.Valid() && header.Content() == [] && bufferWrite.Valid()
      ensures bufferWrite.Content()
           == old(bufferWrite.Content()) + (SynReplyBytes(id, 0, |deflate(block)|) + deflate(block))
    {
      hide SynReplyBytes, PairsBytes, Bytes32;
      header.Prepend(Bytes32(headerNum));
      block := header.Content();
      SendReply(id, deflate(header.data[..header.len]), bufferWrite);
      header.MrProper();
    }
  }

  /** The frame head, and the compressed block after it. */
  method SendReply(id: U32, headers: seq<Byte>, bufferWrite: Buffer)
    requires bufferWrite.Valid() && |headers| < 0x1_0000_0000
    modifies bufferWrite, bufferWrite.data
    ensures bufferWrite.Valid() && (bufferWrite.data == old(bufferWrite.data) || fresh(bufferWrite.data))
    ensures bufferWrite.Content() == old(bufferWrite.Content()) + (SynReplyBytes(id, 0, |headers|) + headers)
  {
    hide SynReplyBytes;
    var ctrl := new Byte[12](i => 0);
    WriteSynReply(ctrl, id, 0, |headers|);
    Reassociate(bufferWrite.Content(), ctrl[..12], headers);
    bufferWrite.Add(ctrl[..12]);
    bufferWrite.Add(headers);
  }
}
