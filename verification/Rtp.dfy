/** RTP serializer and parser of src/rtp_packet.cpp (sections 5.1 and 5.3.1 of RFC 3550). */
module Rtp {
  import opened Basics

  datatype Packet = Packet(
    version: byte, padding: bool, extension: bool, marker: bool, payloadType: byte,
    sequence: uint16, timestamp: uint32, ssrc: uint32, payload: seq<byte>)

  const HEADER_BYTES: nat := 12

  /** The fixed twelve-byte header with a CSRC count. */
  function Header(p: Packet, csrcCount: nat): (h: seq<byte>)
    requires csrcCount < 16
    ensures |h| == HEADER_BYTES
  {
    [ p.version % 4 * 0x40 + (if p.padding then 0x20 else 0) + (if p.extension then 0x10 else 0) + csrcCount,
      p.payloadType % 0x80 + (if p.marker then 0x80 else 0) ]
    + Be16(p.sequence) + Be32(p.timestamp) + Be32(p.ssrc)
  }

  /** `serialize`: no CSRC list and no extension block, whatever the flags say. */
  function Serialize(p: Packet): seq<byte> {
    Header(p, 0) + p.payload
  }

  /** Header length as `parse` first computes it, from the CSRC count. */
  function FixedLength(data: seq<byte>): nat
    requires |data| >= HEADER_BYTES
  {
    HEADER_BYTES + data[0] % 0x10 * 4
  }

  predicate ExtensionFlag(data: seq<byte>)
    requires |data| >= HEADER_BYTES
  {
    data[0] / 0x10 % 2 == 1
  }

  predicate PaddingFlag(data: seq<byte>)
    requires |data| >= HEADER_BYTES
  {
    data[0] / 0x20 % 2 == 1
  }

  /** Where the payload starts, if the header fits. */
  function PayloadStart(data: seq<byte>): Option<nat>
    requires |data| >= HEADER_BYTES
  {
    var h := FixedLength(data);
    if |data| < h then None
    else if !ExtensionFlag(data) then Some(h)
    else if |data| < h + 4 then None
    else
      var start := h + 4 + FromBe16(data[h + 2], data[h + 3]) * 4;
      if |data| < start then None else Some(start)
  }

  /** Where the payload ends, if the padding count fits. */
  function PayloadEnd(data: seq<byte>, start: nat): (r: Option<nat>)
    requires |data| >= HEADER_BYTES && start <= |data|
    ensures r.Some? ==> start <= r.value <= |data|
  {
    if PaddingFlag(data) && start < |data| then
      var count := data[|data| - 1];
      if count > |data| - start then None else Some(|data| - count)
    else Some(|data|)
  }

  /** The header fields that `parse` stores before it checks any length but the first. */
  function HeaderFields(data: seq<byte>, payload: seq<byte>): Packet
    requires |data| >= HEADER_BYTES
  {
    Packet(data[0] / 0x40, PaddingFlag(data), ExtensionFlag(data), data[1] >= 0x80, data[1] % 0x80,
           FromBe16(data[2], data[3]), FromBe32(data[4], data[5], data[6], data[7]),
           FromBe32(data[8], data[9], data[10], data[11]), payload)
  }

  /** `parse` as a function: the packet, or None where the code returns false. */
  function Parse(data: seq<byte>): Option<Packet> {
    if |data| < HEADER_BYTES || data[0] / 0x40 != 2 then None
    else match PayloadStart(data)
      case None => None
      case Some(start) =>
        match PayloadEnd(data, start)
        case None => None
        case Some(end) => Some(HeaderFields(data, data[start..end]))
  }

  // ---------------------------------------------------------------- the wire format as a grammar

  /** The variable parts of an RTP packet that are not the payload. */
  datatype Layout = Layout(csrc: seq<byte>, block: Option<Block>, pad: seq<byte>)

  /** A header extension: two profile bytes, then a body of whole words. */
  datatype Block = Block(profile: seq<byte>, body: seq<byte>)

  ghost predicate ValidBlock(b: Block) {
    |b.profile| == 2 && |b.body| % 4 == 0 && |b.body| / 4 < 0x1_0000
  }

  function BlockBytes(b: Option<Block>): seq<byte> {
    match b
    case None => []
    case Some(e) => e.profile + Be16(ToU16(|e.body| / 4)) + e.body
  }

  /** Which layouts carry `p`: RFC 3550's rules, in the reading the parser gives them.
      With the padding flag, the last byte counts the padding, itself included; a count of
      zero and a packet with nothing after its header are let through. */
  ghost predicate Fits(p: Packet, l: Layout) {
    && p.version == 2 && p.payloadType < 0x80
    && |l.csrc| % 4 == 0 && |l.csrc| / 4 < 16
    && (p.extension <==> l.block.Some?)
    && (l.block.Some? ==> ValidBlock(l.block.value))
    && var tail := p.payload + l.pad;
       if p.padding && tail != [] then tail[|tail| - 1] == |l.pad| else l.pad == []
  }

  function Compose(p: Packet, l: Layout): seq<byte>
    requires |l.csrc| / 4 < 16
  {
    Header(p, |l.csrc| / 4) + l.csrc + BlockBytes(l.block) + p.payload + l.pad
  }

  lemma HeaderRead(p: Packet, csrcCount: nat, rest: seq<byte>)
    requires csrcCount < 16 && p.version == 2 && p.payloadType < 0x80
    ensures var data := Header(p, csrcCount) + rest;
            && data[0] / 0x40 == 2 && data[0] % 0x10 == csrcCount
            && PaddingFlag(data) == p.padding && ExtensionFlag(data) == p.extension
            && HeaderFields(data, p.payload) == p
  {
    var data := Header(p, csrcCount) + rest;
    FirstByteRead(p, csrcCount);
    assert data[0] == Header(p, csrcCount)[0] && data[1] == Header(p, csrcCount)[1];
    var s, t, u := Be16(p.sequence), Be32(p.timestamp), Be32(p.ssrc);
    assert data[2] == s[0] && data[3] == s[1];
    assert data[4] == t[0] && data[5] == t[1] && data[6] == t[2] && data[7] == t[3];
    assert data[8] == u[0] && data[9] == u[1] && data[10] == u[2] && data[11] == u[3];
    Be16RoundTrip(p.sequence, 0, 0);
    Be32RoundTrip(p.timestamp);
    Be32RoundTrip(p.ssrc);
  }

  lemma FirstByteRead(p: Packet, csrcCount: nat)
    requires csrcCount < 16 && p.version == 2 && p.payloadType < 0x80
    ensures var b := Header(p, csrcCount)[0];
            b / 0x40 == 2 && (b / 0x20 % 2 == 1 <==> p.padding) && (b / 0x10 % 2 == 1 <==> p.extension)
            && b % 0x10 == csrcCount
    ensures var c := Header(p, csrcCount)[1]; (c >= 0x80 <==> p.marker) && c % 0x80 == p.payloadType
  {
  }

  /** Reading the part of a composed packet that follows its twelve header bytes. */
  lemma BodyRead(head: seq<byte>, l: Layout, payload: seq<byte>)
    requires |head| == HEADER_BYTES && |l.csrc| % 4 == 0 && |l.csrc| / 4 < 16 && head[0] % 0x10 == |l.csrc| / 4
    requires l.block.Some? <==> head[0] / 0x10 % 2 == 1
    requires l.block.Some? ==> ValidBlock(l.block.value)
    requires var tail := payload + l.pad;
             if head[0] / 0x20 % 2 == 1 && tail != [] then tail[|tail| - 1] == |l.pad| else l.pad == []
    ensures var data := head + l.csrc + BlockBytes(l.block) + payload + l.pad;
            && PayloadStart(data).Some?
            && PayloadEnd(data, PayloadStart(data).value).Some?
            && data[PayloadStart(data).value..PayloadEnd(data, PayloadStart(data).value).value] == payload
  {
    hide Be16, FromBe16, BlockBytes, PayloadStart;
    var block, tail := BlockBytes(l.block), payload + l.pad;
    var data := head + l.csrc + block + payload + l.pad;
    var start := HEADER_BYTES + |l.csrc| + |block|;
    assert data[0] == head[0];
    assert data == head + l.csrc + block + tail;
    StartRead(head, l, tail);
    if tail != [] {
      assert data[|data| - 1] == tail[|tail| - 1];
    }
    assert PayloadEnd(data, start) == Some(|data| - |l.pad|);
    assert data[start..|data| - |l.pad|] == payload;
  }

  lemma StartRead(head: seq<byte>, l: Layout, tail: seq<byte>)
    requires |head| == HEADER_BYTES && |l.csrc| % 4 == 0 && |l.csrc| / 4 < 16 && head[0] % 0x10 == |l.csrc| / 4
    requires l.block.Some? <==> head[0] / 0x10 % 2 == 1
    requires l.block.Some? ==> ValidBlock(l.block.value)
    ensures var block := BlockBytes(l.block);
            PayloadStart(head + l.csrc + block + tail) == Some(HEADER_BYTES + |l.csrc| + |block|)
  {
    hide Be16, FromBe16;
    var block := BlockBytes(l.block);
    var data, h := head + l.csrc + block + tail, HEADER_BYTES + |l.csrc|;
    assert data[0] == head[0];
    assert FixedLength(data) == h;
    if l.block.Some? {
      BlockLength(l.block.value);
      assert data[h + 2] == block[2] && data[h + 3] == block[3];
    }
  }

  lemma BlockLength(e: Block)
    requires ValidBlock(e)
    ensures var b := BlockBytes(Some(e)); |b| == 4 + |e.body| && FromBe16(b[2], b[3]) * 4 == |e.body|
  {
    var words: uint16 := |e.body| / 4;
    assert ToU16(words) == words;
    Be16RoundTrip(words, 0, 0);
  }

  /** Completeness: whatever the grammar generates for `p`, the parser reads back as `p`. */
  lemma ParserComplete(p: Packet, l: Layout)
    requires Fits(p, l)
    ensures Parse(Compose(p, l)) == Some(p)
  {
    var head := Header(p, |l.csrc| / 4);
    var rest := l.csrc + BlockBytes(l.block) + p.payload + l.pad;
    assert Compose(p, l) == head + rest;
    HeaderRead(p, |l.csrc| / 4, rest);
    assert head[0] == (head + rest)[0];
    BodyRead(head, l, p.payload);
  }

  lemma HeaderWrite(data: seq<byte>, payload: seq<byte>)
    requires |data| >= HEADER_BYTES && data[0] / 0x40 == 2
    ensures Header(HeaderFields(data, payload), data[0] % 0x10) == data[..HEADER_BYTES]
  {
    FirstByte(data[0]);
    var p := HeaderFields(data, payload);
    HeaderPieces(p, data[0] % 0x10, data[0], data[1]);
    Field16(data, 2);
    Field32(data, 4);
    Field32(data, 8);
    assert data[..HEADER_BYTES] == [data[0], data[1]] + data[2..4] + data[4..8] + data[8..12];
  }

  lemma HeaderPieces(p: Packet, csrcCount: nat, b0: byte, b1: byte)
    requires csrcCount < 16 && p.version == 2 && p.marker == (b1 >= 0x80) && p.payloadType == b1 % 0x80
    requires b0 == 0x80 + (if p.padding then 0x20 else 0) + (if p.extension then 0x10 else 0) + csrcCount
    ensures Header(p, csrcCount) == [b0, b1] + Be16(p.sequence) + Be32(p.timestamp) + Be32(p.ssrc)
  {
  }

  lemma Field16(data: seq<byte>, i: nat)
    requires i + 2 <= |data|
    ensures Be16(FromBe16(data[i], data[i + 1])) == data[i..i + 2]
  {
    Be16RoundTrip(0, data[i], data[i + 1]);
  }

  lemma Field32(data: seq<byte>, i: nat)
    requires i + 4 <= |data|
    ensures Be32(FromBe32(data[i], data[i + 1], data[i + 2], data[i + 3])) == data[i..i + 4]
  {
    Be32OfBytes(data[i], data[i + 1], data[i + 2], data[i + 3]);
  }

  lemma FirstByte(b: byte)
    requires b / 0x40 == 2
    ensures b == 0x80 + (if b / 0x20 % 2 == 1 then 0x20 else 0) + (if b / 0x10 % 2 == 1 then 0x10 else 0) + b % 0x10
  {
  }

  /** The layout an accepted byte string was read with. */
  function LayoutOf(data: seq<byte>): Layout
    requires Parse(data).Some?
  {
    var h := FixedLength(data);
    var start := PayloadStart(data).value;
    var end := PayloadEnd(data, start).value;
    Layout(data[HEADER_BYTES..h],
           if ExtensionFlag(data) then Some(Block(data[h..h + 2], data[h + 4..start])) else None,
           data[end..])
  }

  lemma BlockWrite(data: seq<byte>, h: nat, start: nat)
    requires h + 4 <= start <= |data| && start == h + 4 + FromBe16(data[h + 2], data[h + 3]) * 4
    ensures var b := Block(data[h..h + 2], data[h + 4..start]);
            ValidBlock(b) && BlockBytes(Some(b)) == data[h..start]
  {
    Field16(data, h + 2);
    var words := FromBe16(data[h + 2], data[h + 3]);
    BlockOfWords(data[h..h + 2], data[h + 4..start], words);
    assert data[h..start] == data[h..h + 2] + data[h + 2..h + 4] + data[h + 4..start];
  }

  lemma BlockOfWords(profile: seq<byte>, body: seq<byte>, words: uint16)
    requires |profile| == 2 && |body| == words * 4
    ensures ValidBlock(Block(profile, body))
    ensures BlockBytes(Some(Block(profile, body))) == profile + Be16(words) + body
  {
    hide Be16;
    assert |body| / 4 == words && ToU16(words) == words;
  }

  /** Soundness: whatever the parser accepts, the grammar generates. */
  lemma ParserSound(data: seq<byte>)
    requires Parse(data).Some?
    ensures Fits(Parse(data).value, LayoutOf(data)) && Compose(Parse(data).value, LayoutOf(data)) == data
  {
    HeaderWrite(data, Parse(data).value.payload);
    LayoutBlock(data);
    LayoutFits(data);
    Reassemble(data);
  }

  lemma LayoutBlock(data: seq<byte>)
    requires Parse(data).Some?
    ensures BlockBytes(LayoutOf(data).block) == data[FixedLength(data)..PayloadStart(data).value]
    ensures LayoutOf(data).block.Some? ==> ValidBlock(LayoutOf(data).block.value)
  {
    if ExtensionFlag(data) {
      BlockWrite(data, FixedLength(data), PayloadStart(data).value);
    }
  }

  lemma LayoutFits(data: seq<byte>)
    requires Parse(data).Some?
    requires LayoutOf(data).block.Some? ==> ValidBlock(LayoutOf(data).block.value)
    ensures Fits(Parse(data).value, LayoutOf(data)) && |LayoutOf(data).csrc| / 4 == data[0] % 0x10
  {
    hide FromBe32, FromBe16;
    var h := FixedLength(data);
    assert LayoutOf(data).csrc == data[HEADER_BYTES..h] && h == HEADER_BYTES + data[0] % 0x10 * 4;
    var start := PayloadStart(data).value;
    var end := PayloadEnd(data, start).value;
    assert data[start..end] + data[end..] == data[start..];
  }

  lemma Reassemble(data: seq<byte>)
    requires Parse(data).Some? && |LayoutOf(data).csrc| / 4 == data[0] % 0x10
    requires BlockBytes(LayoutOf(data).block) == data[FixedLength(data)..PayloadStart(data).value]
    requires Header(Parse(data).value, data[0] % 0x10) == data[..HEADER_BYTES]
    ensures Compose(Parse(data).value, LayoutOf(data)) == data
  {
    hide Header, BlockBytes, FromBe32, FromBe16;
    var h, start := FixedLength(data), PayloadStart(data).value;
    var end := PayloadEnd(data, start).value;
    assert data == data[..HEADER_BYTES] + data[HEADER_BYTES..h] + data[h..start] + data[start..end] + data[end..];
  }

  /** The parser accepts exactly the byte strings the grammar generates, with the packet it generates them for. */
  lemma ParserExact(data: seq<byte>, p: Packet)
    ensures Parse(data) == Some(p) <==> exists l :: Fits(p, l) && Compose(p, l) == data
  {
    if Parse(data) == Some(p) {
      ParserSound(data);
    }
    forall l | Fits(p, l) && Compose(p, l) == data
      ensures Parse(data) == Some(p)
    {
      ParserComplete(p, l);
    }
  }

  /** An accepted payload is a slice that starts after the header and ends before the padding. */
  lemma PayloadIsSlice(data: seq<byte>) returns (h: nat, pad: nat)
    requires Parse(data).Some?
    ensures HEADER_BYTES <= h <= |data| - pad <= |data|
    ensures Parse(data).value.payload == data[h..|data| - pad]
  {
    h := PayloadStart(data).value;
    pad := |data| - PayloadEnd(data, h).value;
  }

  // ---------------------------------------------------------------- round trips

  /** The packets that survive serialize-then-parse. */
  predicate Plain(p: Packet) {
    && p.version == 2 && p.payloadType < 0x80 && !p.extension
    && (p.padding && p.payload != [] ==> p.payload[|p.payload| - 1] == 0)
  }

  /** `parse(serialize(p))` gives `p` back exactly for the plain packets: `serialize` writes the
      padding and extension flags but never the bytes they announce. */
  lemma RoundTripExactly(p: Packet)
    ensures Parse(Serialize(p)) == Some(p) <==> Plain(p)
  {
    var bare := Layout([], None, []);
    assert Compose(p, bare) == Serialize(p);
    if Plain(p) {
      ParserComplete(p, bare);
    } else if Parse(Serialize(p)) == Some(p) {
      NotPlain(p);
    }
  }

  lemma NotPlain(p: Packet)
    requires Parse(Serialize(p)) == Some(p)
    ensures Plain(p)
  {
    var data := Serialize(p);
    assert data[0] / 0x40 == 2 && data[1] % 0x80 < 0x80;
    HeaderRead(p, 0, p.payload);
    var start := PayloadStart(data).value;
    assert p.payload == data[start..PayloadEnd(data, start).value];
    assert |data| == HEADER_BYTES + |p.payload|;
    assert start == HEADER_BYTES;
    if p.payload != [] {
      assert data[|data| - 1] == p.payload[|p.payload| - 1];
    }
  }

  /** Clearing the two flags of an accepted packet and serializing it loses nothing else. */
  lemma Normalisation(data: seq<byte>)
    requires Parse(data).Some?
    ensures var p := Parse(data).value.(padding := false, extension := false);
            Parse(Serialize(p)) == Some(p)
  {
    RoundTripExactly(Parse(data).value.(padding := false, extension := false));
  }

  // ---------------------------------------------------------------- byte by byte

  /** Where every field goes, in section 5.1's order, high bytes first. */
  lemma WireLayout(p: Packet)
    ensures var d := Serialize(p);
            && |d| == 12 + |p.payload| && d[12..] == p.payload
            && d[0] == 64 * (p.version as int % 4) + (if p.padding then 32 else 0) + (if p.extension then 16 else 0)
            && d[1] == p.payloadType % 128 + (if p.marker then 128 else 0)
            && d[2] == p.sequence / 256 && d[3] == p.sequence % 256
            && d[4] == p.timestamp / 0x100_0000 && d[5] == p.timestamp / 0x1_0000 % 256
            && d[6] == p.timestamp / 256 % 256 && d[7] == p.timestamp % 256
            && d[8] == p.ssrc / 0x100_0000 && d[9] == p.ssrc / 0x1_0000 % 256
            && d[10] == p.ssrc / 256 % 256 && d[11] == p.ssrc % 256
  {
    Be32Shifts(p.timestamp);
    Be32Shifts(p.ssrc);
    hide Be32;
    var t, u := Be32(p.timestamp), Be32(p.ssrc);
    var head := Header(p, 0);
    assert head[4] == t[0] && head[5] == t[1] && head[6] == t[2] && head[7] == t[3];
    assert head[8] == u[0] && head[9] == u[1] && head[10] == u[2] && head[11] == u[3];
  }

  /** The length of the header that a byte string announces: 4 bytes a CSRC, and an extension block. */
  function Announced(d: seq<byte>): nat
    requires |d| >= 12
  {
    var h := 12 + 4 * (d[0] as int % 16);
    if d[0] / 16 % 2 == 1 && |d| >= h + 4 then h + 4 + 4 * (256 * (d[h + 2] as int) + d[h + 3]) else h
  }

  /** Exactly when a byte string is accepted: version 2, room for the header it announces, and a padding
      count no larger than what follows the header. Every field is then the one at its place. */
  lemma ParserReads(d: seq<byte>)
    ensures Parse(d).Some? <==>
              && |d| >= 12 && d[0] / 64 == 2
              && (d[0] / 16 % 2 == 1 ==> |d| >= 16 + 4 * (d[0] as int % 16))
              && Announced(d) <= |d|
              && (d[0] / 32 % 2 == 1 && Announced(d) < |d| ==> d[|d| - 1] <= |d| - Announced(d))
    ensures Parse(d).Some? ==>
              var p := Parse(d).value;
              var end := |d| - if d[0] / 32 % 2 == 1 && Announced(d) < |d| then d[|d| - 1] else 0;
              && p.payload == d[Announced(d)..end]
              && p.padding == (d[0] / 32 % 2 == 1) && p.extension == (d[0] / 16 % 2 == 1)
              && p.version == 2 && p.marker == (d[1] >= 128) && p.payloadType == d[1] % 128
              && p.sequence == 256 * (d[2] as int) + d[3]
              && p.timestamp == 0x100_0000 * (d[4] as int) + 0x1_0000 * (d[5] as int) + 256 * (d[6] as int) + d[7]
              && p.ssrc == 0x100_0000 * (d[8] as int) + 0x1_0000 * (d[9] as int) + 256 * (d[10] as int) + d[11]
  {
  }

  // ---------------------------------------------------------------- the struct and its methods

  class RtpPacket {
    var version: byte
    var padding: bool
    var extension: bool
    var marker: bool
    var payloadType: byte
    var sequence: uint16
    var timestamp: uint32
    var ssrc: uint32
    var payload: seq<byte>

    constructor ()
      ensures Value() == Packet(2, false, false, false, 8, 0, 0, 0, [])
    {
      version, padding, extension, marker, payloadType := 2, false, false, false, 8;
      sequence, timestamp, ssrc, payload := 0, 0, 0, [];
    }

    function Value(): Packet
      reads this
    {
      Packet(version, padding, extension, marker, payloadType, sequence, timestamp, ssrc, payload)
    }

    method SerializePacket() returns (buf: seq<byte>)
      ensures buf == Serialize(Value())
    {
      buf := [];
      var b0 := version % 4 * 0x40;
      if padding { b0 := b0 + 0x20; }
      if extension { b0 := b0 + 0x10; }
      buf := buf + [b0];
      var b1 := payloadType % 0x80;
      if marker { b1 := b1 + 0x80; }
      buf := buf + [b1];
      buf := buf + [sequence / 0x100];
      buf := buf + [sequence % 0x100];
      assert buf == [b0, b1] + Be16(sequence);
      buf := PushBe32(buf, timestamp);
      buf := PushBe32(buf, ssrc);
      buf := buf + payload;
    }

    /** Four pushes, high byte first. */
    static method PushBe32(buf: seq<byte>, x: uint32) returns (r: seq<byte>)
      ensures r == buf + Be32(x)
    {
      Be32Shifts(x);
      r := buf + [x / 0x100_0000];
      r := r + [x / 0x1_0000 % 0x100];
      r := r + [x / 0x100 % 0x100];
      r := r + [x % 0x100];
    }

    /** On failure the header fields already read stay stored; the payload is never touched. */
    method ParseBytes(data: seq<byte>) returns (ok: bool)
      modifies this
      ensures ok <==> Parse(data).Some?
      ensures ok ==> Value() == Parse(data).value
      ensures !ok ==> Value() ==
                      if |data| < HEADER_BYTES then old(Value())
                      else if data[0] / 0x40 != 2 then old(Value()).(version := data[0] / 0x40)
                      else HeaderFields(data, old(payload))
    {
      hide FromBe16, FromBe32;
      if |data| < HEADER_BYTES { return false; }
      version := data[0] / 0x40;
      if version != 2 { return false; }
      ReadFields(data);
      var cc := data[0] % 0x10;
      var headerLen: nat := HEADER_BYTES + cc * 4;
      if |data| < headerLen { return false; }
      if extension {
        if |data| < headerLen + 4 { return false; }
        var extLen: nat := FromBe16(data[headerLen + 2], data[headerLen + 3]);
        headerLen := headerLen + 4 + extLen * 4;
      }
      if |data| < headerLen { return false; }
      assert PayloadStart(data) == Some(headerLen);
      var payloadLen := |data| - headerLen;
      if padding && payloadLen > 0 {
        var padCount := data[|data| - 1];
        if padCount > payloadLen { return false; }
        payloadLen := payloadLen - padCount;
      }
      assert PayloadEnd(data, headerLen) == Some(headerLen + payloadLen);
      payload := data[headerLen..headerLen + payloadLen];
      return true;
    }

    /** The fixed header past its version. */
    method ReadFields(data: seq<byte>)
      requires |data| >= HEADER_BYTES && version == data[0] / 0x40
      modifies this
      ensures Value() == HeaderFields(data, old(payload))
    {
      padding := data[0] / 0x20 % 2 == 1;
      extension := data[0] / 0x10 % 2 == 1;
      marker := data[1] >= 0x80;
      payloadType := data[1] % 0x80;
      sequence := FromBe16(data[2], data[3]);
      timestamp := FromBe32(data[4], data[5], data[6], data[7]);
      ssrc := FromBe32(data[8], data[9], data[10], data[11]);
    }
  }
}
