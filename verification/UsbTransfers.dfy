/** How a write to /dev/usb_accessory is cut into USB requests, what that puts on the wire, and why the host
    can tell the writes apart again. */
module UsbTransfers {
  import opened Sequences

  /** BULK_BUFFER_SIZE. */
  const BULK := 16384

  /** One queued request: its buffer, and usb_request.zero. */
  datatype Transfer = Transfer(data: seq<Byte>, zero: bool)

  /** The requests of one write: full buffers without a zero-length packet, then the rest. */
  function Chunks(data: seq<Byte>, maxpacket: nat): seq<Transfer>
    requires maxpacket > 0
  {
    if data == [] then []
    else if |data| > BULK then [Transfer(data[..BULK], false)] + Chunks(data[BULK..], maxpacket)
    else [Transfer(data, |data| % maxpacket == 0)]
  }

  function Payload(ts: seq<Transfer>): seq<Byte> {
    if ts == [] then [] else ts[0].data + Payload(ts[1..])
  }

  lemma {:induction false} PayloadConcat(a: seq<Transfer>, b: seq<Transfer>)
    ensures Payload(a + b) == Payload(a) + Payload(b)
  {
    if a == [] {
      assert a + b == b;
    } else {
      assert (a + b)[1..] == a[1..] + b;
      PayloadConcat(a[1..], b);
    }
  }

  /** A prefix of the requests carries a prefix of the data. */
  lemma PayloadPrefix(a: seq<Transfer>, b: seq<Transfer>)
    requires a <= b
    ensures Payload(a) <= Payload(b)
  {
    assert b == a + b[|a|..];
    PayloadConcat(a, b[|a|..]);
  }

  /** The requests carry exactly the data; all but the last are full and ask for no zero-length packet; the
      last is not empty, and asks for one exactly when its size is a multiple of the packet size. */
  lemma {:induction false} ChunksCarry(data: seq<Byte>, maxpacket: nat)
    requires maxpacket > 0
    ensures var c := Chunks(data, maxpacket);
            && Payload(c) == data
            && |c| == (|data| + BULK - 1) / BULK
            && (forall i :: 0 <= i < |c| - 1 ==> |c[i].data| == BULK && !c[i].zero)
            && (c != [] ==> var l := c[|c| - 1];
                            0 < |l.data| <= BULK && (l.zero <==> |l.data| % maxpacket == 0))
  {
    if |data| > BULK {
      ChunksCarry(data[BULK..], maxpacket);
      var c, r := Chunks(data, maxpacket), Chunks(data[BULK..], maxpacket);
      assert c[1..] == r;
      assert data == data[..BULK] + data[BULK..];
      forall i | 0 < i < |c| ensures c[i] == r[i - 1] {}
    } else if data != [] {
      assert Payload(Chunks(data, maxpacket)) == data + Payload([]);
    }
  }

  /** A write of at most one buffer is exactly one request. */
  lemma SmallWrite(data: seq<Byte>, maxpacket: nat)
    requires maxpacket > 0 && 0 < |data| <= BULK
    ensures Chunks(data, maxpacket) == [Transfer(data, |data| % maxpacket == 0)]
  {
  }

  // ----- the wire

  /** The packets of one request: full packets, a short one for the rest, and an empty one if asked for. */
  function Packets(data: seq<Byte>, zero: bool, maxpacket: nat): seq<seq<Byte>>
    requires maxpacket > 0
    decreases |data|
  {
    if |data| >= maxpacket then [data[..maxpacket]] + Packets(data[maxpacket..], zero, maxpacket)
    else if data != [] then [data]
    else if zero then [[]]
    else []
  }

  function Wire(ts: seq<Transfer>, maxpacket: nat): seq<seq<Byte>>
    requires maxpacket > 0
  {
    if ts == [] then [] else Packets(ts[0].data, ts[0].zero, maxpacket) + Wire(ts[1..], maxpacket)
  }

  /** The host's view (section 5.8.3 of the USB 2.0 specification): a packet shorter than the maximum ends a
      message.  The result is the finished messages and the unfinished one. */
  function Messages(packets: seq<seq<Byte>>, maxpacket: nat, open: seq<Byte>): (seq<seq<Byte>>, seq<Byte>) {
    if packets == [] then ([], open)
    else if |packets[0]| < maxpacket then
      var (done, rest) := Messages(packets[1..], maxpacket, []);
      ([open + packets[0]] + done, rest)
    else Messages(packets[1..], maxpacket, open + packets[0])
  }

  /** The requests of several writes, in order. */
  function Requests(writes: seq<seq<Byte>>, maxpacket: nat): seq<Transfer>
    requires maxpacket > 0
  {
    if writes == [] then [] else Chunks(writes[0], maxpacket) + Requests(writes[1..], maxpacket)
  }

  /** One packet in front: a full one is joined to what is open, a short one closes the message. */
  lemma OnePacket(p: seq<Byte>, later: seq<seq<Byte>>, maxpacket: nat, open: seq<Byte>)
    ensures Messages([p] + later, maxpacket, open) ==
            if |p| >= maxpacket then Messages(later, maxpacket, open + p)
            else var (done, rest) := Messages(later, maxpacket, []); ([open + p] + done, rest)
  {
    assert ([p] + later)[1..] == later;
  }

  /** A request of whole packets only leaves the message open; any other closes it. */
  lemma {:induction false} HostPackets(data: seq<Byte>, zero: bool, maxpacket: nat, open: seq<Byte>, later: seq<seq<Byte>>)
    requires maxpacket > 0
    ensures Messages(Packets(data, zero, maxpacket) + later, maxpacket, open) ==
            if |data| % maxpacket == 0 && !zero then Messages(later, maxpacket, open + data)
            else var (done, rest) := Messages(later, maxpacket, []); ([open + data] + done, rest)
    decreases |data|
  {
    hide Messages;
    var p := Packets(data, zero, maxpacket);
    if |data| >= maxpacket {
      var head, tail := data[..maxpacket], data[maxpacket..];
      assert p + later == [head] + (Packets(tail, zero, maxpacket) + later);
      OnePacket(head, Packets(tail, zero, maxpacket) + later, maxpacket, open);
      HostPackets(tail, zero, maxpacket, open + head, later);
      assert (open + head) + tail == open + data;
      ModStep(|tail|, maxpacket);
    } else if data != [] || zero {
      OnePacket(data, later, maxpacket, open);
      Small(|data|, maxpacket);
    } else {
      assert p + later == later && open + data == open;
    }
  }

  lemma Small(n: nat, m: nat)
    requires n < m
    ensures n % m == n
  {
  }

  lemma ModStep(n: nat, m: nat)
    requires m > 0
    ensures (n + m) % m == n % m
  {
    var k := (n + m) / m - (n / m + 1);
    assert k * m == n % m - (n + m) % m;
    Multiple(k, m);
  }

  lemma Multiple(k: int, m: nat)
    ensures k >= 1 ==> k * m >= m
    ensures k <= -1 ==> k * m + m <= 0
  {
  }

  lemma {:induction false} WireConcat(a: seq<Transfer>, b: seq<Transfer>, maxpacket: nat)
    requires maxpacket > 0
    ensures Wire(a + b, maxpacket) == Wire(a, maxpacket) + Wire(b, maxpacket)
  {
    if a == [] {
      assert a + b == b;
    } else {
      assert (a + b)[1..] == a[1..] + b;
      WireConcat(a[1..], b, maxpacket);
    }
  }

  /** One write is one message, whatever its length. */
  lemma {:induction false} HostWrite(data: seq<Byte>, maxpacket: nat, open: seq<Byte>, later: seq<seq<Byte>>)
    requires maxpacket > 0 && BULK % maxpacket == 0 && data != []
    ensures var (done, rest) := Messages(later, maxpacket, []);
            Messages(Wire(Chunks(data, maxpacket), maxpacket) + later, maxpacket, open) == ([open + data] + done, rest)
    decreases |data|
  {
    var c := Chunks(data, maxpacket);
    if |data| > BULK {
      var tail := data[BULK..];
      var w := Wire(Chunks(tail, maxpacket), maxpacket);
      assert c[1..] == Chunks(tail, maxpacket);
      assert Wire(c, maxpacket) + later == Packets(data[..BULK], false, maxpacket) + (w + later);
      HostPackets(data[..BULK], false, maxpacket, open, w + later);
      HostWrite(tail, maxpacket, open + data[..BULK], later);
      assert open + data[..BULK] + tail == open + data;
    } else {
      assert c[1..] == [];
      var t := c[0];
      assert Wire(c, maxpacket) + later == Packets(t.data, t.zero, maxpacket) + later;
      HostPackets(t.data, t.zero, maxpacket, open, later);
    }
  }

  /** The host gets back exactly the writes, in order and unmerged: the zero-length packets are where they
      have to be. */
  lemma {:induction false} HostSeesWrites(writes: seq<seq<Byte>>, maxpacket: nat)
    requires maxpacket > 0 && BULK % maxpacket == 0
    requires forall i :: 0 <= i < |writes| ==> writes[i] != []
    ensures Messages(Wire(Requests(writes, maxpacket), maxpacket), maxpacket, []) == (writes, [])
  {
    if writes != [] {
      var w, later := writes[0], writes[1..];
      WireConcat(Chunks(w, maxpacket), Requests(later, maxpacket), maxpacket);
      HostWrite(w, maxpacket, [], Wire(Requests(later, maxpacket), maxpacket));
      HostSeesWrites(later, maxpacket);
      assert [] + w == w && [w] + later == writes;
    }
  }
}
