/** Length-prefix framing over a byte stream (the shape of section 2 of RFC 4571). */
module Framing {
  import opened Basics

  /** What the tx thread writes for one packet: the length in 16 bits, then the bytes. */
  function FrameBytes(pkt: seq<byte>): seq<byte> {
    Be16(ToU16(|pkt|)) + pkt
  }

  function Stream(pkts: seq<seq<byte>>): seq<byte> {
    if pkts == [] then [] else FrameBytes(pkts[0]) + Stream(pkts[1..])
  }

  /** The packets the rx thread cuts out of a byte stream; an incomplete tail yields nothing. */
  function Deframe(bytes: seq<byte>): seq<seq<byte>>
    decreases |bytes|
  {
    if |bytes| < 2 then []
    else
      var n := FromBe16(bytes[0], bytes[1]);
      if n == 0 then Deframe(bytes[2..])
      else if |bytes| < 2 + n then []
      else [bytes[2..2 + n]] + Deframe(bytes[2 + n..])
  }

  predicate Sized(pkt: seq<byte>) {
    0 < |pkt| < 0x1_0000
  }

  ghost predicate AllSized(pkts: seq<seq<byte>>) {
    forall i :: 0 <= i < |pkts| ==> Sized(pkts[i])
  }

  /** The packets that are not empty, in order. */
  function NonEmpty(pkts: seq<seq<byte>>): seq<seq<byte>> {
    if pkts == [] then []
    else (if pkts[0] == [] then [] else [pkts[0]]) + NonEmpty(pkts[1..])
  }

  lemma {:induction false} StreamAppend(a: seq<seq<byte>>, b: seq<seq<byte>>)
    ensures Stream(a + b) == Stream(a) + Stream(b)
  {
    if a == [] {
      assert a + b == b;
    } else {
      assert (a + b)[1..] == a[1..] + b;
      StreamAppend(a[1..], b);
    }
  }

  /** The two prefix bytes, high byte first. */
  lemma PrefixBytes(pkt: seq<byte>)
    ensures FrameBytes(pkt) == [|pkt| / 256 % 256, |pkt| % 256] + pkt
  {
    LowBytes(|pkt|);
  }

  lemma LowBytes(n: nat)
    ensures Be16(ToU16(n)) == [n / 256 % 256, n % 256]
  {
    var high := n / 0x1_0000;
    assert n == high * 0x1_0000 + n % 0x1_0000;
    assert n / 256 == high * 256 + n % 0x1_0000 / 256;
  }

  lemma PrefixRead(pkt: seq<byte>)
    requires |pkt| < 0x1_0000
    ensures var b := FrameBytes(pkt); |b| == 2 + |pkt| && FromBe16(b[0], b[1]) == |pkt| && b[2..] == pkt
  {
    var n: uint16 := |pkt|;
    assert ToU16(n) == n;
    Be16RoundTrip(n, 0, 0);
  }

  lemma DeframeStep(pkt: seq<byte>, rest: seq<byte>)
    requires |pkt| < 0x1_0000
    ensures Deframe(FrameBytes(pkt) + rest) == (if pkt == [] then [] else [pkt]) + Deframe(rest)
  {
    var bytes := FrameBytes(pkt) + rest;
    PrefixRead(pkt);
    assert bytes[0] == FrameBytes(pkt)[0] && bytes[1] == FrameBytes(pkt)[1];
    assert bytes[2..2 + |pkt|] == pkt;
    assert bytes[2 + |pkt|..] == rest;
  }

  /** Less than one whole packet yields nothing. */
  lemma DeframeShort(pkt: seq<byte>, cut: nat)
    requires Sized(pkt) && cut < |FrameBytes(pkt)|
    ensures Deframe(FrameBytes(pkt)[..cut]) == []
  {
    var bytes := FrameBytes(pkt)[..cut];
    PrefixRead(pkt);
    if cut >= 2 {
      assert bytes[0] == FrameBytes(pkt)[0] && bytes[1] == FrameBytes(pkt)[1];
    }
  }

  /** Everything deframed can be sent again: non-empty and under 65536 bytes. */
  lemma {:induction false} DeframeSized(bytes: seq<byte>)
    ensures AllSized(Deframe(bytes))
    decreases |bytes|
  {
    if |bytes| >= 2 {
      var n: int := FromBe16(bytes[0], bytes[1]);
      if n == 0 {
        DeframeSized(bytes[2..]);
      } else if |bytes| >= 2 + n {
        DeframeSized(bytes[2 + n..]);
      }
    }
  }

  /** Empty packets are the only ones lost when every length fits in 16 bits. */
  lemma {:induction false} DeframeStream(pkts: seq<seq<byte>>)
    requires forall i :: 0 <= i < |pkts| ==> |pkts[i]| < 0x1_0000
    ensures Deframe(Stream(pkts)) == NonEmpty(pkts)
  {
    if pkts != [] {
      DeframeStep(pkts[0], Stream(pkts[1..]));
      DeframeStream(pkts[1..]);
    }
  }

  lemma {:induction false} NonEmptyOfSized(pkts: seq<seq<byte>>)
    requires AllSized(pkts)
    ensures NonEmpty(pkts) == pkts
  {
    if pkts != [] {
      NonEmptyOfSized(pkts[1..]);
    }
  }

  /** A list of packets survives framing exactly when every packet has 1 to 65535 bytes. */
  lemma FramingRoundTrip(pkts: seq<seq<byte>>)
    ensures Deframe(Stream(pkts)) == pkts <==> AllSized(pkts)
  {
    DeframeSized(Stream(pkts));
    if AllSized(pkts) {
      DeframeStream(pkts);
      NonEmptyOfSized(pkts);
    }
  }

  /** Cutting the stream at any byte yields exactly the packets that lie whole before the cut. */
  lemma {:induction false} CutStream(pkts: seq<seq<byte>>, cut: nat) returns (n: nat)
    requires AllSized(pkts) && cut <= |Stream(pkts)|
    ensures n <= |pkts| && Deframe(Stream(pkts)[..cut]) == pkts[..n]
    ensures |Stream(pkts[..n])| <= cut
    ensures n < |pkts| ==> cut < |Stream(pkts[..n + 1])|
  {
    hide FrameBytes, Deframe;
    if pkts == [] {
      n := 0;
      DeframeEmpty();
    } else {
      var first := FrameBytes(pkts[0]);
      var rest := Stream(pkts[1..]);
      if cut < |first| {
        n := 0;
        assert pkts[..1] == [pkts[0]] && Stream(pkts[..1][1..]) == [];
        assert Stream(pkts)[..cut] == first[..cut];
        DeframeShort(pkts[0], cut);
      } else {
        var m := CutStream(pkts[1..], cut - |first|);
        n := m + 1;
        assert Stream(pkts)[..cut] == first + rest[..cut - |first|];
        DeframeStep(pkts[0], rest[..cut - |first|]);
        assert pkts[..n] == [pkts[0]] + pkts[1..][..m];
        assert pkts[..n][1..] == pkts[1..][..m];
        if n < |pkts| {
          assert pkts[..n + 1][1..] == pkts[1..][..m + 1];
        }
      }
    }
  }

  /** The first two bytes say how many make up the first packet. */
  lemma DeframeHead(bytes: seq<byte>, n: nat)
    requires |bytes| >= 2 && n == 256 * (bytes[0] as int) + bytes[1]
    ensures |bytes| >= 2 + n ==>
              Deframe(bytes) == (if n == 0 then [] else [bytes[2..2 + n]]) + Deframe(bytes[2 + n..])
    ensures |bytes| < 2 + n ==> Deframe(bytes) == []
  {
    hide Deframe;
    assert FromBe16(bytes[0], bytes[1]) == n;
    DeframeOnce(bytes);
  }

  lemma DeframeOnce(bytes: seq<byte>)
    requires |bytes| >= 2
    ensures var n := FromBe16(bytes[0], bytes[1]);
            Deframe(bytes) == if n == 0 then Deframe(bytes[2..])
                              else if |bytes| < 2 + n then []
                              else [bytes[2..2 + n]] + Deframe(bytes[2 + n..])
  {
  }

  lemma SliceOfSlice(bytes: seq<byte>, i: nat, e: nat, a: nat, b: nat)
    requires i <= e <= |bytes| && a <= b <= e - i
    ensures bytes[i..e][a..b] == bytes[i + a..i + b]
  {
    var cut, direct := bytes[i..e][a..b], bytes[i + a..i + b];
    assert |cut| == |direct|;
    assert forall k :: 0 <= k < |cut| ==> cut[k] == bytes[i..e][a + k] == direct[k];
  }

  /** The next packet of a stretch of stream that holds it whole. */
  lemma DeframeNext(bytes: seq<byte>, i: nat, n: nat, e: nat)
    requires i + 2 + n <= e <= |bytes| && n == FromBe16(bytes[i], bytes[i + 1])
    ensures Deframe(bytes[i..e])
            == (if n == 0 then [] else [bytes[i + 2..i + 2 + n]]) + Deframe(bytes[i + 2 + n..e])
  {
    hide Deframe;
    var here, next: nat := bytes[i..e], i + 2 + n;
    assert here[0] == bytes[i] && here[1] == bytes[i + 1];
    DeframeHead(here, n);
    SliceOfSlice(bytes, i, e, 2, 2 + n);
    SliceOfSlice(bytes, i, e, 2 + n, e - i);
    assert i + (2 + n) == next && i + (e - i) == e;
    assert here[2 + n..] == here[2 + n..e - i] == bytes[next..e];
  }

  /** A stretch that ends within its first packet holds none. */
  lemma DeframeNone(bytes: seq<byte>, i: nat, e: nat)
    requires i <= e <= |bytes|
    requires e < i + 2 || e < i + 2 + FromBe16(bytes[i], bytes[i + 1])
    ensures Deframe(bytes[i..e]) == []
  {
  }

  lemma DeframeEmpty()
    ensures Deframe([]) == []
  {
  }
}

/** Sockets whose calls may be short or fail, and the two loops that use them. */
module Sockets {
  import opened Basics
  import opened Framing

  method CopyInto(buf: array<byte>, off: nat, src: seq<byte>)
    requires off + |src| <= buf.Length
    modifies buf
    ensures buf[..] == old(buf[..off]) + src + old(buf[off + |src|..])
  {
    var i := 0;
    while i < |src|
      invariant 0 <= i <= |src|
      invariant forall k :: 0 <= k < buf.Length ==>
                  buf[k] == if off <= k < off + i then src[k - off] else old(buf[k])
    {
      buf[off + i] := src[i];
      i := i + 1;
    }
  }

  /** The receiving end of a connection. `outcomes` says what the next recv calls do: return at
      most that many bytes, or fail if not positive; after them recv returns all that fits. */
  class InSocket {
    const incoming: seq<byte>
    var pos: nat
    var outcomes: seq<int>

    constructor (incoming: seq<byte>, outcomes: seq<int>)
      ensures Valid() && this.incoming == incoming && pos == 0 && this.outcomes == outcomes
    {
      this.incoming, this.outcomes, pos := incoming, outcomes, 0;
    }

    ghost predicate Valid()
      reads this
    {
      pos <= |incoming|
    }

    /** No call fails before the peer's end of stream. */
    ghost predicate Lossless()
      reads this
    {
      forall i :: 0 <= i < |outcomes| ==> outcomes[i] > 0
    }

    method Recv(buf: array<byte>, off: nat, n: nat) returns (r: int)
      requires Valid() && n > 0 && off + n <= buf.Length
      modifies this, buf
      ensures Valid() && r <= n
      ensures r > 0 ==> pos == old(pos) + r
      ensures r > 0 ==> buf[..] == old(buf[..off]) + incoming[old(pos)..pos] + old(buf[off + r..])
      ensures r <= 0 ==> pos == old(pos) && buf[..] == old(buf[..])
      ensures old(Lossless()) ==> Lossless() && (r <= 0 ==> pos == |incoming|)
      ensures r <= 0 ==> pos == |incoming| || (old(outcomes) != [] && old(outcomes)[0] <= 0)
      ensures r > 0 ==> old(outcomes) == [] || old(outcomes)[0] > 0
      ensures outcomes == if old(outcomes) == [] then [] else old(outcomes)[1..]
    {
      r := Min(n, |incoming| - pos);
      if outcomes != [] {
        r := Min(r, outcomes[0]);
        outcomes := outcomes[1..];
      }
      if r > 0 {
        CopyInto(buf, off, incoming[pos..pos + r]);
        pos := pos + r;
      }
    }
  }

  /** The sending end of a connection; `outcomes` as for InSocket. */
  class OutSocket {
    var sent: seq<byte>
    var outcomes: seq<int>

    /** No call fails. */
    ghost predicate Sending()
      reads this
    {
      forall i :: 0 <= i < |outcomes| ==> outcomes[i] > 0
    }

    constructor (outcomes: seq<int>)
      ensures sent == [] && this.outcomes == outcomes
    {
      this.outcomes, sent := outcomes, [];
    }

    method Send(data: seq<byte>) returns (w: int)
      requires data != []
      modifies this
      ensures w <= |data|
      ensures sent == old(sent) + if w > 0 then data[..w] else []
      ensures w <= 0 <==> old(outcomes) != [] && old(outcomes)[0] <= 0
      ensures outcomes == if old(outcomes) == [] then [] else old(outcomes)[1..]
    {
      w := |data|;
      if outcomes != [] {
        w := Min(w, outcomes[0]);
        outcomes := outcomes[1..];
      }
      if w > 0 {
        sent := sent + data[..w];
      }
    }
  }

  /** All calls but the last succeeded; the last did exactly if `ok`, or it met the end. */
  ghost predicate Calls(calls: seq<int>, ok: bool, ended: bool) {
    && (forall i :: 0 <= i < |calls| - 1 ==> calls[i] > 0)
    && (ok && calls != [] ==> calls[|calls| - 1] > 0)
    && (!ok ==> ended || (calls != [] && calls[|calls| - 1] <= 0))
  }

  /** The outcomes used up between two moments. */
  ghost predicate Consumed(before: seq<int>, after: seq<int>, ok: bool, ended: bool) {
    exists calls :: before == calls + after && Calls(calls, ok, ended)
  }

  lemma ConsumedThen(a: seq<int>, b: seq<int>, c: seq<int>, ok: bool, ended: bool)
    requires Consumed(a, b, true, false) && Consumed(b, c, ok, ended)
    ensures Consumed(a, c, ok, ended)
  {
    var first :| a == first + b && Calls(first, true, false);
    var second :| b == second + c && Calls(second, ok, ended);
    assert a == (first + second) + c;
    assert Calls(first + second, ok, ended);
  }

  lemma ConsumedNone(a: seq<int>)
    ensures Consumed(a, a, true, false)
  {
    assert a == [] + a && Calls([], true, false);
  }

  /** One more call, whose outcome was `a[0]` if there is one. */
  lemma ConsumedOne(a: seq<int>, ok: bool, ended: bool)
    requires ok ==> a == [] || a[0] > 0
    requires !ok ==> ended || (a != [] && a[0] <= 0)
    ensures Consumed(a, if a == [] then [] else a[1..], ok, ended)
  {
    if a == [] {
      assert a == [] + [] && Calls([], ok, ended);
    } else {
      assert a == [a[0]] + a[1..] && Calls([a[0]], ok, ended);
    }
  }

  /** `read_exact`: true only with all `n` bytes; false only if a call failed or the peer closed. */
  method ReadExact(sock: InSocket, buf: array<byte>, n: nat) returns (ok: bool)
    requires sock.Valid() && n <= buf.Length
    modifies sock, buf
    ensures sock.Valid()
    ensures ok ==> sock.pos == old(sock.pos) + n && buf[..n] == sock.incoming[old(sock.pos)..sock.pos]
    ensures !ok ==> old(sock.pos) <= sock.pos < old(sock.pos) + n
    ensures old(sock.Lossless()) ==> sock.Lossless() && (!ok ==> sock.pos == |sock.incoming|)
    ensures Consumed(old(sock.outcomes), sock.outcomes, ok, !ok && sock.pos == |sock.incoming|)
  {
    hide Consumed;
    ConsumedNone(sock.outcomes);
    var received := 0;
    while received < n
      invariant 0 <= received <= n && sock.Valid()
      invariant sock.pos == old(sock.pos) + received
      invariant buf[..received] == sock.incoming[old(sock.pos)..sock.pos]
      invariant old(sock.Lossless()) ==> sock.Lossless()
      invariant Consumed(old(sock.outcomes), sock.outcomes, true, false)
    {
      ghost var before, queued := buf[..received], sock.outcomes;
      var r := sock.Recv(buf, received, n - received);
      ConsumedOne(queued, r > 0, sock.pos == |sock.incoming| && r <= 0);
      ConsumedThen(old(sock.outcomes), queued, sock.outcomes, r > 0, sock.pos == |sock.incoming| && r <= 0);
      if r <= 0 {
        return false;
      }
      assert buf[..received + r] == before + sock.incoming[old(sock.pos) + received..sock.pos];
      received := received + r;
    }
    return true;
  }

  lemma PrefixGrows(data: seq<byte>, sent: nat, w: nat)
    requires sent + w <= |data|
    ensures data[..sent] + data[sent..][..w] == data[..sent + w]
  {
  }

  /** `write_exact`: true only when every byte went out; false after a proper prefix, and only if a
      call failed. */
  method WriteExact(sock: OutSocket, data: seq<byte>) returns (ok: bool)
    modifies sock
    ensures ok ==> sock.sent == old(sock.sent) + data
    ensures !ok ==> exists k :: 0 <= k < |data| && sock.sent == old(sock.sent) + data[..k]
    ensures old(sock.Sending()) ==> ok && sock.Sending()
    ensures Consumed(old(sock.outcomes), sock.outcomes, ok, false)
  {
    hide Consumed;
    ConsumedNone(sock.outcomes);
    var sent := 0;
    while sent < |data|
      invariant 0 <= sent <= |data|
      invariant sock.sent == old(sock.sent) + data[..sent]
      invariant old(sock.Sending()) ==> sock.Sending()
      invariant Consumed(old(sock.outcomes), sock.outcomes, true, false)
    {
      ghost var queued := sock.outcomes;
      var w := sock.Send(data[sent..]);
      ConsumedOne(queued, w > 0, false);
      ConsumedThen(old(sock.outcomes), queued, sock.outcomes, w > 0, false);
      if w <= 0 {
        return false;
      }
      PrefixGrows(data, sent, w);
      sent := sent + w;
    }
    return true;
  }

  /** The tx thread's two writes for one packet. */
  method SendFramed(sock: OutSocket, pkt: seq<byte>) returns (ok: bool)
    modifies sock
    ensures ok ==> sock.sent == old(sock.sent) + FrameBytes(pkt)
    ensures !ok ==> exists k :: 0 <= k < |FrameBytes(pkt)| && sock.sent == old(sock.sent) + FrameBytes(pkt)[..k]
    ensures old(sock.Sending()) ==> ok && sock.Sending()
    ensures Consumed(old(sock.outcomes), sock.outcomes, ok, false)
  {
    hide Consumed;
    var len := ToU16(|pkt|);
    var prefix := [len / 0x100, len % 0x100];
    assert FrameBytes(pkt)[..2] == prefix;
    ok := WriteExact(sock, prefix);
    if !ok {
      ghost var k :| 0 <= k < 2 && sock.sent == old(sock.sent) + prefix[..k];
      assert FrameBytes(pkt)[..k] == prefix[..k];
      return;
    }
    ghost var queued := sock.outcomes;
    ok := WriteExact(sock, pkt);
    ConsumedThen(old(sock.outcomes), queued, sock.outcomes, ok, false);
    if !ok {
      ghost var k :| 0 <= k < |pkt| && sock.sent == old(sock.sent) + prefix + pkt[..k];
      assert FrameBytes(pkt)[..2 + k] == prefix + pkt[..k];
    }
  }
}
