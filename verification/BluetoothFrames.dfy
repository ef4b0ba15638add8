/** The RFCOMM handshake of AAWirelessLauncher: length-prefixed frames, and the exchange of messages. */
module BluetoothFrames {
  import opened Sequences
  import opened Sockets

  const WIFI_START_REQUEST := 1
  const WIFI_INFO_REQUEST := 2
  const WIFI_INFO_RESPONSE := 3
  const WIFI_START_RESPONSE := 7
  const INVALID := -1

  /** The largest body for which messageSize + 4 still fits the 16-bit length of the buffer. */
  const MAX_BODY := 65531

  type Word = x: int | 0 <= x < 65536

  /** htons, as the two bytes that are copied. */
  function Wide(x: Word): seq<Byte> { [x / 256, x % 256] }

  function Narrow(hi: Byte, lo: Byte): Word { hi as int * 256 + lo as int }

  /** A message on the wire: body length, id, body. */
  function Encode(id: Word, body: seq<Byte>): (f: seq<Byte>)
    requires |body| <= MAX_BODY
  {
    Wide(|body|) + Wide(id) + body
  }

  /** The stream begins with a whole message. */
  predicate Whole(s: seq<Byte>) {
    |s| >= 4 && |s| >= 4 + Narrow(s[0], s[1])
  }

  function Id(s: seq<Byte>): Word
    requires |s| >= 4
  {
    Narrow(s[2], s[3])
  }

  function Rest(s: seq<Byte>): seq<Byte>
    requires Whole(s)
  {
    s[4 + Narrow(s[0], s[1])..]
  }

  /** Reading undoes sending and stops at the byte behind the message. */
  lemma RoundTrip(id: Word, body: seq<Byte>, tail: seq<Byte>)
    requires |body| <= MAX_BODY
    ensures var s := Encode(id, body) + tail;
            Whole(s) && Id(s) == id && s[4..4 + Narrow(s[0], s[1])] == body && Rest(s) == tail
  {
    var s := Encode(id, body) + tail;
    assert s == Wide(|body|) + (Wide(id) + (body + tail));
    assert s[0] == |body| / 256 && s[1] == |body| % 256 && s[2] == id / 256 && s[3] == id % 256;
    assert s[4..] == body + tail;
  }

  /** What is left behind the first WIFI_START_RESPONSE; None if the stream ends before it is complete. */
  function AfterStart(s: seq<Byte>): Option<seq<Byte>>
    decreases |s|
  {
    if !Whole(s) then None
    else if Id(s) == WIFI_START_RESPONSE then Some(Rest(s))
    else AfterStart(Rest(s))
  }

  datatype Message = Message(id: Word, body: seq<Byte>)

  predicate Sendable(m: Message) { |m.body| <= MAX_BODY }

  function Stream(ms: seq<Message>): seq<Byte>
    requires forall i :: 0 <= i < |ms| ==> Sendable(ms[i])
  {
    if ms == [] then []
    else
      assert Sendable(ms[0]);
      Encode(ms[0].id, ms[0].body) + Stream(ms[1..])
  }

  predicate NoStart(ms: seq<Message>) {
    forall i :: 0 <= i < |ms| ==> Sendable(ms[i]) && ms[i].id != WIFI_START_RESPONSE
  }

  lemma SkipOne(m: Message, later: seq<Byte>)
    requires Sendable(m) && m.id != WIFI_START_RESPONSE
    ensures AfterStart(Encode(m.id, m.body) + later) == AfterStart(later)
  {
    RoundTrip(m.id, m.body, later);
  }

  lemma {:induction false} SkipMany(before: seq<Message>, later: seq<Byte>)
    requires NoStart(before)
    ensures AfterStart(Stream(before) + later) == AfterStart(later)
  {
    hide Encode, Whole;
    if before == [] {
      assert Stream(before) + later == later;
    } else {
      var m, others := before[0], Stream(before[1..]);
      SkipMany(before[1..], later);
      SkipOne(m, others + later);
      assert Stream(before) + later == Encode(m.id, m.body) + (others + later);
    }
  }

  /** However many status and version messages come first, the discarding stops exactly behind the first
      WIFI_START_RESPONSE and leaves what follows untouched. */
  lemma DiscardExact(before: seq<Message>, start: seq<Byte>, tail: seq<Byte>)
    requires NoStart(before) && |start| <= MAX_BODY
    ensures AfterStart(Stream(before) + (Encode(WIFI_START_RESPONSE, start) + tail)) == Some(tail)
  {
    SkipMany(before, Encode(WIFI_START_RESPONSE, start) + tail);
    RoundTrip(WIFI_START_RESPONSE, start, tail);
  }

  /** Without a WIFI_START_RESPONSE the discarding runs to the end of the stream. */
  lemma DiscardAll(before: seq<Message>)
    requires NoStart(before)
    ensures AfterStart(Stream(before)) == None
  {
    SkipMany(before, []);
    assert Stream(before) + [] == Stream(before);
  }

  // ----- the bytes on the wire

  /** Lengths and ids are big-endian words, and the length counts the body only. */
  lemma WireBytes(id: Word, body: seq<Byte>)
    requires |body| <= MAX_BODY
    ensures var f := Encode(id, body);
            && |f| == 4 + |body| && f[4..] == body
            && f[0] as int * 256 + f[1] as int == |body| && f[2] as int * 256 + f[3] as int == id
  {
  }

  /** The phone's side of a successful handshake: a status message (id 6) is passed over, the start response (id 7) ends
      it. */
  lemma PhoneBytes(status: seq<Byte>, tail: seq<Byte>)
    requires |status| < 256
    ensures AfterStart([0, 0, 0, 7] + tail) == Some(tail)
    ensures AfterStart([0, |status|, 0, 6] + status + ([0, 0, 0, 7] + tail)) == Some(tail)
  {
    var start := [0, 0, 0, 7] + tail;
    assert start[4..] == tail;
    var s := [0, |status|, 0, 6] + status + start;
    assert Narrow(s[0], s[1]) == |status| && Id(s) == 6;
    assert Rest(s) == start;
  }

  // ----- the functions

  /** SendMessage: the buffer is filled at offsets 0, 2 and 4 and written at once. */
  method SendMessage(id: Word, body: seq<Byte>) returns (wire: seq<Byte>)
    requires |body| <= MAX_BODY
    ensures wire == Encode(id, body)
  {
    var messageSize := |body| % 65536;
    var length := (messageSize + 4) % 65536;
    var buffer := new Byte[length];
    buffer[0], buffer[1] := messageSize / 256, messageSize % 256;
    buffer[2], buffer[3] := id / 256, id % 256;
    forall i | 0 <= i < messageSize {
      buffer[4 + i] := body[i];
    }
    assert buffer[4..] == body;
    assert buffer[..4] == Wide(|body|) + Wide(id);
    assert buffer[..] == buffer[..4] + buffer[4..];
    wire := buffer[..];
  }

  /** readFully: as much as there is, up to `n`; less only at the end of the stream. */
  method ReadFully(fd: Source<Byte>, buf: array<Byte>, n: nat) returns (r: int)
    requires n <= buf.Length
    modifies fd, buf
    ensures r <= n
    ensures r == n ==> n <= |old(fd.input)| && fd.input == old(fd.input)[n..] && buf[..n] == old(fd.input)[..n]
    ensures fd.Reliable() ==> r == if |old(fd.input)| < n then |old(fd.input)| else n
  {
    var got := 0;
    while got < n
      invariant got <= n && got <= |old(fd.input)|
      invariant fd.input == old(fd.input)[got..] && buf[..got] == old(fd.input)[..got]
    {
      var len, data := fd.Read(n - got);
      if len < 0 {
        return len;
      }
      if len == 0 {
        return got;
      }
      forall i | 0 <= i < len {
        buf[got + i] := data[i];
      }
      assert old(fd.input)[..got + len] == old(fd.input)[..got] + data;
      assert buf[..got + len] == buf[..got] + data;
      got := got + len;
    }
    r := n;
  }

  /** ReadMessage: the id of the next message, whose body is read and dropped. */
  method ReadMessage(fd: Source<Byte>) returns (id: int)
    modifies fd
    ensures id == INVALID || 0 <= id < 65536
    ensures id != INVALID ==> Whole(old(fd.input)) && id == Id(old(fd.input)) && fd.input == Rest(old(fd.input))
    ensures fd.Reliable() ==> (id != INVALID <==> Whole(old(fd.input)))
  {
    ghost var s := fd.input;
    var wire := new Byte[2];
    var n := ReadFully(fd, wire, 2);
    if n != 2 {
      return INVALID;
    }
    assert wire[..2][0] == s[0] && wire[..2][1] == s[1];
    var length := Narrow(wire[0], wire[1]);
    n := ReadFully(fd, wire, 2);
    if n != 2 {
      return INVALID;
    }
    assert s[2..][..2] == s[2..4];
    assert wire[..2][0] == s[2] && wire[..2][1] == s[3];
    id := Narrow(wire[0], wire[1]);
    assert fd.input == s[4..];
    if length > 0 {
      var buffer := new Byte[length];
      n := ReadFully(fd, buffer, length);
      if n != length {
        return INVALID;
      }
      assert s[4..][length..] == s[4 + length..];
    }
  }

  /** The loop at the end of launch. */
  method DiscardUntilStart(fd: Source<Byte>) returns (started: bool)
    modifies fd
    ensures started ==> AfterStart(old(fd.input)) == Some(fd.input)
    ensures fd.Reliable() ==> (started <==> AfterStart(old(fd.input)).Some?)
  {
    while true
      invariant AfterStart(fd.input) == AfterStart(old(fd.input))
      decreases |fd.input|
    {
      var id := ReadMessage(fd);
      if id == INVALID {
        return false;
      }
      if id == WIFI_START_RESPONSE {
        return true;
      }
    }
  }

  /** An information request (id 2) and a start response, both without a body. */
  const PHONE: seq<Byte> := [0, 0, 0, 2, 0, 0, 0, 7]

  /** AAWirelessLauncher::launch, with the two serialised messages as given bodies. */
  method Launch(fd: Source<Byte>, startRequest: seq<Byte>, infoResponse: seq<Byte>)
    returns (sent: seq<seq<Byte>>, started: bool)
    requires |startRequest| <= MAX_BODY && |infoResponse| <= MAX_BODY
    modifies fd
    ensures var s := old(fd.input);
            && sent <= [Encode(WIFI_START_REQUEST, startRequest), Encode(WIFI_INFO_RESPONSE, infoResponse)]
            && |sent| >= 1
            && (|sent| == 2 ==> Whole(s) && Id(s) == WIFI_INFO_REQUEST)
            && (started ==> |sent| == 2 && AfterStart(Rest(s)) == Some(fd.input))
    ensures fd.Reliable() ==>
              var s := old(fd.input);
              && (|sent| == 2 <==> Whole(s) && Id(s) == WIFI_INFO_REQUEST)
              && (started <==> Whole(s) && Id(s) == WIFI_INFO_REQUEST && AfterStart(Rest(s)).Some?)
    // the shortest conversation that succeeds, byte by byte
    ensures forall tail {:trigger PHONE + tail} :: fd.Reliable() && old(fd.input) == PHONE + tail ==>
              && started && fd.input == tail
              && sent == [[|startRequest| / 256, |startRequest| % 256, 0, 1] + startRequest,
                          [|infoResponse| / 256, |infoResponse| % 256, 0, 3] + infoResponse]
  {
    forall tail {:trigger PHONE + tail} | fd.input == PHONE + tail
      ensures Whole(fd.input) && Id(fd.input) == WIFI_INFO_REQUEST && AfterStart(Rest(fd.input)) == Some(tail)
    {
      assert Rest(fd.input) == [0, 0, 0, 7] + tail;
      PhoneBytes([], tail);
    }
    var frame := SendMessage(WIFI_START_REQUEST, startRequest);
    assert frame == [|startRequest| / 256, |startRequest| % 256, 0, 1] + startRequest;
    sent, started := [frame], false;
    var id := ReadMessage(fd);
    if id != WIFI_INFO_REQUEST {
      return;
    }
    frame := SendMessage(WIFI_INFO_RESPONSE, infoResponse);
    assert frame == [|infoResponse| / 256, |infoResponse| % 256, 0, 3] + infoResponse;
    sent := sent + [frame];
    started := DiscardUntilStart(fd);
  }
}
