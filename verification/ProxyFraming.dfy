/** AAWProxy: cutting the TCP stream into Android Auto frames and forwarding each with one write. */
module ProxyFraming {
  import opened Errno
  import opened Sequences
  import opened Sockets
  import opened UsbTransfers
  import RxRead
  import opened RxPath
  import opened TxPool

  const HEADER := 4

  /** The length a frame header announces: a first-but-not-last frame has four more header bytes. */
  function Size(s: seq<Byte>): (n: nat)
    requires |s| >= HEADER
    ensures n >= HEADER
  {
    HEADER + (s[2] as int * 256 + s[3] as int) + (if s[1] % 4 == 1 then 4 else 0)
  }

  /** One frame, neither cut nor followed by anything. */
  predicate IsFrame(f: seq<Byte>) {
    |f| >= HEADER && |f| == Size(f)
  }

  /** A frame the proxy can forward: it fits the buffer and is not a bare four-byte header. */
  predicate Forwardable(f: seq<Byte>) {
    IsFrame(f) && HEADER < |f| <= BULK
  }

  predicate StartsFrame(s: seq<Byte>) {
    |s| >= HEADER && HEADER < Size(s) <= BULK && Size(s) <= |s|
  }

  /** The frames of a stream, up to the first place where there is none to forward. */
  function Split(s: seq<Byte>): seq<seq<Byte>>
    decreases |s|
  {
    if StartsFrame(s) then [s[..Size(s)]] + Split(s[Size(s)..]) else []
  }

  /** Where frames stand one behind the other, splitting finds them up to the first that cannot be forwarded. */
  function Good(frames: seq<seq<Byte>>): nat {
    if frames == [] || !Forwardable(frames[0]) then 0 else 1 + Good(frames[1..])
  }

  lemma {:induction false} GoodBound(frames: seq<seq<Byte>>)
    ensures Good(frames) <= |frames|
    ensures Good(frames) == |frames| <==> forall i :: 0 <= i < |frames| ==> Forwardable(frames[i])
  {
    if frames != [] {
      GoodBound(frames[1..]);
      assert forall i :: 0 < i < |frames| ==> frames[i] == frames[1..][i - 1];
      assert forall i :: 0 <= i < |frames| - 1 ==> frames[1..][i] == frames[i + 1];
    }
  }

  lemma {:induction false} SplitFrames(frames: seq<seq<Byte>>)
    requires forall i :: 0 <= i < |frames| ==> IsFrame(frames[i])
    ensures Good(frames) <= |frames| && Split(Flatten(frames)) == frames[..Good(frames)]
  {
    GoodBound(frames);
    if frames != [] {
      var f, rest := frames[0], Flatten(frames[1..]);
      var s := Flatten(frames);
      assert s == f + rest && s[..|f|] == f && s[|f|..] == rest;
      assert Size(s) == Size(f);
      SplitFrames(frames[1..]);
      if Forwardable(f) {
        assert frames[..Good(frames)] == [f] + frames[1..][..Good(frames[1..])];
      }
    }
  }

  /** Exactly when splitting gives back the frames the phone sent. */
  lemma SplitExact(frames: seq<seq<Byte>>)
    requires forall i :: 0 <= i < |frames| ==> IsFrame(frames[i])
    ensures Split(Flatten(frames)) == frames <==> forall i :: 0 <= i < |frames| ==> Forwardable(frames[i])
  {
    SplitFrames(frames);
    GoodBound(frames);
  }

  /** A frame with an empty payload stops the proxy: nothing behind it is forwarded. */
  lemma EmptyPayloadStops()
    ensures var ping, next := [0, 3, 0, 0], [0, 3, 0, 1, 9];
            IsFrame(ping) && IsFrame(next) && Split(Flatten([ping, next])) == []
  {
    var ping, next := [0, 3, 0, 0], [0, 3, 0, 1, 9];
    assert Flatten([ping, next]) == ping + Flatten([next]);
  }

  // ----- frames by their fields

  /** A frame of the protocol: its channel, whether it is the first and the last of its message, six further flag bits,
      the length of the whole message, which only a first frame with others behind it carries, and its payload. */
  datatype Frame = Frame(channel: Byte, first: bool, last: bool, others: Byte, total: seq<Byte>, payload: seq<Byte>)
  {
    predicate Valid() {
      others < 64 && |payload| < 0x1_0000 && |total| == (if first && !last then 4 else 0)
    }

    function Flags(): int {
      4 * others + (if last then 2 else 0) + (if first then 1 else 0)
    }

    /** The frame on the wire; the length of the payload is big-endian. */
    function Bytes(): seq<Byte>
      requires Valid()
    {
      [channel, Flags(), |payload| / 256, |payload| % 256] + (total + payload)
    }
  }

  /** Its size is read off the header, whatever follows. */
  lemma FrameSize(f: Frame, rest: seq<Byte>)
    requires f.Valid()
    ensures var s := f.Bytes() + rest;
            && |f.Bytes()| == 4 + |f.total| + |f.payload| && Size(s) == |f.Bytes()|
            && s[..|f.Bytes()|] == f.Bytes() && s[|f.Bytes()|..] == rest
            && (StartsFrame(s) <==> 4 < |f.Bytes()| <= 16384)
  {
    var s := f.Bytes() + rest;
    assert s[1] == f.Flags() && s[2] == |f.payload| / 256 && s[3] == |f.payload| % 256;
    assert f.Flags() % 4 == (if f.last then 2 else 0) + (if f.first then 1 else 0);
  }

  predicate FirstIs(s: seq<Byte>, f: Frame, rest: seq<Byte>) {
    && f.Valid() && |s| >= 4 && Size(s) == |f.Bytes()| <= |s|
    && s[..Size(s)] == f.Bytes() && s[Size(s)..] == rest
  }

  function AllBytes(fs: seq<Frame>): (r: seq<seq<Byte>>)
    requires forall i :: 0 <= i < |fs| ==> fs[i].Valid()
    ensures |r| == |fs| && forall i :: 0 <= i < |fs| ==> r[i] == fs[i].Bytes()
  {
    seq(|fs|, i requires 0 <= i < |fs| => fs[i].Bytes())
  }

  /** Exactly when the proxy recovers the frames of a stream: when each has something behind its first four bytes and
      fits the buffer. */
  lemma SplitStream(fs: seq<Frame>)
    requires forall i :: 0 <= i < |fs| ==> fs[i].Valid()
    ensures Split(Flatten(AllBytes(fs))) == AllBytes(fs) <==>
            forall i :: 0 <= i < |fs| ==> 0 < |fs[i].total| + |fs[i].payload| <= 16384 - 4
  {
    var frames := AllBytes(fs);
    forall i | 0 <= i < |fs|
      ensures IsFrame(frames[i]) && |frames[i]| == 4 + |fs[i].total| + |fs[i].payload|
    {
      FrameSize(fs[i], []);
      assert fs[i].Bytes() + [] == fs[i].Bytes();
    }
    SplitExact(frames);
    assert forall i :: 0 <= i < |fs| ==> (Forwardable(frames[i]) <==> 0 < |fs[i].total| + |fs[i].payload| <= 16384 - 4);
  }

  // ----- reading

  /** What read(2) does to the buffer behind the `got` bytes that are there; `s` is what is being read. */
  method Fill(buffer: array<Byte>, at: nat, got: nat, n: nat, data: seq<Byte>,
              ghost front: seq<Byte>, ghost s: seq<Byte>, ghost behind: seq<Byte>)
    requires at + n <= buffer.Length && got + |data| <= n && got + |data| <= |s|
    requires data == s[got..got + |data|]
    requires buffer[..at + got] == front + s[..got] && buffer[at + n..] == behind
    modifies buffer
    ensures buffer[..at + got + |data|] == front + s[..got + |data|] && buffer[at + n..] == behind
  {
    forall i | 0 <= i < |data| {
      buffer[at + got + i] := data[i];
    }
    assert buffer[..at + got + |data|] == (front + s[..got]) + data;
    assert s[..got + |data|] == s[..got] + data;
  }

  /** AAWProxy::readFully into `buffer` at offset `at`. */
  method ReadFully(fd: Source<Byte>, buffer: array<Byte>, at: nat, n: nat) returns (r: int)
    requires at + n <= buffer.Length
    modifies fd, buffer
    ensures r == n || (r <= 0 && 0 < n)
    ensures r == n ==> n <= |old(fd.input)| && fd.input == old(fd.input)[n..]
                       && buffer[at..at + n] == old(fd.input)[..n]
    ensures r != n && fd.Reliable() ==> r == 0 && |old(fd.input)| < n
    ensures buffer[..at] == old(buffer[..at]) && buffer[at + n..] == old(buffer[at + n..])
  {
    var remaining := n;
    ghost var s, front, behind := fd.input, buffer[..at], buffer[at + n..];
    while remaining > 0
      invariant 0 <= remaining <= n && n - remaining <= |s|
      invariant fd.input == s[n - remaining..]
      invariant buffer[..at + (n - remaining)] == front + s[..n - remaining] && buffer[at + n..] == behind
    {
      var got := n - remaining;
      var len, data := fd.Read(remaining);
      if len <= 0 {
        Kept(buffer, at, front, s[..got]);
        return len;
      }
      Fill(buffer, at, got, n, data, front, s, behind);
      remaining := remaining - len;
    }
    Kept(buffer, at, front, s[..n]);
    r := n;
  }

  lemma Kept(buffer: array<Byte>, at: nat, front: seq<Byte>, read: seq<Byte>)
    requires |front| == at && at + |read| <= buffer.Length && buffer[..at + |read|] == front + read
    ensures buffer[..at] == front && buffer[at..at + |read|] == read
  {
    assert buffer[..at] == buffer[..at + |read|][..at];
    assert buffer[at..at + |read|] == buffer[..at + |read|][at..];
  }

  /** AAWProxy::readMessage: one frame at the front of `buffer`. */
  method ReadMessage(fd: Source<Byte>, buffer: array<Byte>) returns (r: int)
    requires buffer.Length == BULK
    modifies fd, buffer
    ensures r <= BULK
    ensures r > 0 ==> StartsFrame(old(fd.input)) && r == Size(old(fd.input))
                      && buffer[..r] == old(fd.input)[..r] && fd.input == old(fd.input)[r..]
    ensures fd.Reliable() ==> (r > 0 <==> StartsFrame(old(fd.input)))
    ensures fd.Reliable() ==> (r < 0 <==> |old(fd.input)| >= HEADER && Size(old(fd.input)) > BULK)
    // the first frame of the stream, by its fields
    ensures forall f: Frame, rest {:trigger f.Bytes() + rest} ::
              f.Valid() && old(fd.input) == f.Bytes() + rest && fd.Reliable()
              ==> if 4 < |f.Bytes()| <= 16384 then r == |f.Bytes()| && buffer[..r] == f.Bytes() && fd.input == rest
                  else if |f.Bytes()| == 4 then r == 0 else r < 0
  {
    forall f: Frame, rest {:trigger f.Bytes() + rest} | f.Valid() && fd.input == f.Bytes() + rest
      ensures FirstIs(fd.input, f, rest)
    {
      FrameSize(f, rest);
    }
    var len := ReadFully(fd, buffer, 0, HEADER);
    if len <= 0 {
      return len;
    }
    ghost var s := old(fd.input);
    assert forall i :: 0 <= i < HEADER ==> buffer[i] == buffer[0..HEADER][i] == s[i];
    var length := buffer[2] as int * 256 + buffer[3] as int;
    if buffer[1] % 4 == 1 {
      length := length + 4;
    }
    assert HEADER + length == Size(s);
    if HEADER + length > buffer.Length {
      return -1;
    }
    len := ReadFully(fd, buffer, HEADER, length);
    if len <= 0 {
      return len;
    }
    r := HEADER + length;
    assert buffer[..HEADER] == s[..HEADER];
    assert s[..r] == s[..HEADER] + s[HEADER..][..length];
    assert buffer[..r] == buffer[..HEADER] + buffer[HEADER..r];
    assert s[HEADER..][length..] == s[r..];
  }

  // ----- forwarding

  /** When the other thread sets should_exit, on the clock of this thread's own steps; None is never. */
  predicate Stopped(stopAt: Option<nat>, now: nat) {
    stopAt.Some? && now >= stopAt.value
  }

  /** The frames whose write to the accessory reported the whole frame. */
  function Delivered(frames: seq<seq<Byte>>, results: seq<int>): seq<seq<Byte>>
    requires |results| <= |frames|
  {
    if results == [] then []
    else (if results[0] == |frames[0]| then [frames[0]] else []) + Delivered(frames[1..], results[1..])
  }

  lemma {:induction false} DeliveredSnoc(frames: seq<seq<Byte>>, results: seq<int>, f: seq<Byte>, r: int)
    requires |results| == |frames|
    ensures Delivered(frames + [f], results + [r]) == Delivered(frames, results) + (if r == |f| then [f] else [])
  {
    if results == [] {
      assert [] + [r] == [r] && [r][1..] == [] && [] + [f] == [f] && [f][1..] == [];
    } else {
      assert (frames + [f])[1..] == frames[1..] + [f] && (results + [r])[1..] == results[1..] + [r];
      DeliveredSnoc(frames[1..], results[1..], f, r);
    }
  }

  /** Frames beyond the last result do not matter. */
  lemma {:induction false} DeliveredPrefix(frames: seq<seq<Byte>>, later: seq<seq<Byte>>, results: seq<int>)
    requires |results| == |frames|
    ensures Delivered(frames + later, results) == Delivered(frames, results)
  {
    if results != [] {
      assert (frames + later)[1..] == frames[1..] + later;
      DeliveredPrefix(frames[1..], later, results[1..]);
    }
  }

  /** Without a write that reports nothing or fails, the delivered frames are all that were tried. */
  lemma {:induction false} AllDelivered(frames: seq<seq<Byte>>, results: seq<int>)
    requires |results| <= |frames| && forall i :: 0 <= i < |results| ==> results[i] == |frames[i]|
    ensures Delivered(frames, results) == frames[..|results|]
  {
    if results != [] {
      assert forall i :: 0 <= i < |results| - 1 ==> results[1..][i] == results[i + 1] && frames[1..][i] == frames[i + 1];
      AllDelivered(frames[1..], results[1..]);
      assert frames[..|results|] == [frames[0]] + frames[1..][..|results| - 1];
    }
  }

  lemma {:induction false} RequestsSnoc(frames: seq<seq<Byte>>, f: seq<Byte>, maxpacket: nat)
    requires maxpacket > 0
    ensures Requests(frames + [f], maxpacket) == Requests(frames, maxpacket) + Chunks(f, maxpacket)
  {
    if frames == [] {
      assert [] + [f] == [f] && [f][1..] == [];
    } else {
      assert (frames + [f])[1..] == frames[1..] + [f];
      RequestsSnoc(frames[1..], f, maxpacket);
    }
  }

  /** What one write of a frame adds to the requests, when the frames before it are accounted for. */
  lemma WriteStep(frames: seq<seq<Byte>>, results: seq<int>, f: seq<Byte>, r: int, out: seq<Transfer>, maxpacket: nat)
    requires maxpacket > 0 && 0 < |f| <= BULK && |results| == |frames|
    requires out <= Chunks(f, maxpacket) && (r == |f| <==> out == Chunks(f, maxpacket))
    ensures Requests(Delivered(frames + [f], results + [r]), maxpacket)
         == Requests(Delivered(frames, results), maxpacket) + out
  {
    hide Chunks, Requests, Delivered;
    SmallWrite(f, maxpacket);
    DeliveredSnoc(frames, results, f, r);
    var d := Delivered(frames, results);
    if r == |f| {
      RequestsSnoc(d, f, maxpacket);
    } else {
      assert out == [] && d + [] == d;
    }
  }

  // ----- what the accessory makes of one frame

  /** What happens on the port while the thread reads a frame, between the two flags tested when acc_write begins, and
      while it then waits and writes. */
  datatype Meanwhile = Meanwhile(reading: seq<TxPool.Event>, entering: seq<TxPool.Event>, writing: Turn)

  /** What the write of a frame of `n` bytes returns. */
  function WriteResult(p: Pool, n: nat, m: Meanwhile, me: nat): int {
    if !Allowed(p, m.entering, me) then -ENODEV
    else match RoundOutcome(Flags(p, m.entering, me), m.writing, me) case Queued => n case Stops(r) => r
  }

  function WriteAfter(p: Pool, m: Meanwhile, me: nat): Pool {
    var q := Flags(p, m.entering, me);
    if Allowed(p, m.entering, me) then RoundAfter(q, m.writing, me) else q
  }

  /** The pool when the write of frame `i` begins. */
  function PoolAt(p: Pool, world: nat -> Meanwhile, me: nat, i: nat): Pool
    decreases i, 1
  {
    Others(Between(p, world, me, i), world(i).reading, me)
  }

  /** The pool between two writes. */
  function Between(p: Pool, world: nat -> Meanwhile, me: nat, i: nat): Pool
    decreases i, 0
  {
    if i == 0 then p else WriteAfter(PoolAt(p, world, me, i - 1), world(i - 1), me)
  }

  /** While frame `i` waits no request is idle when one is asked for, the function is offline when the wait condition
      then looks, and it is back when the flags are tested: acc_write returns 0. */
  predicate Blinks(p: Pool, world: nat -> Meanwhile, me: nat, i: nat) {
    var q, m := PoolAt(p, world, me, i), world(i);
    Allowed(q, m.entering, me) && Blink(Flags(q, m.entering, me), m.writing, me)
  }

  predicate Blink(p: Pool, turn: Turn, me: nat) {
    && Others(p, turn.waiting, me).idle == [] && !Looked(p, turn, me).online
    && Allowed(Tested(p, turn, me), turn.flags, me)
  }

  /** One write(2) of a frame to the accessory. */
  method WriteFrame(usb: TxPort, me: nat, frame: seq<Byte>, maxpacket: nat, m: Meanwhile) returns (r: int, out: seq<Transfer>)
    requires usb.Valid() && me !in usb.held && maxpacket > 0 && 0 < |frame| <= BULK
    modifies usb
    ensures usb.Valid() && me !in usb.held && usb.View() == WriteAfter(old(usb.View()), m, me)
    ensures r == WriteResult(old(usb.View()), |frame|, m, me)
    ensures r <= 0 || r == |frame|
    ensures out <= Chunks(frame, maxpacket) && (r == |frame| <==> out == Chunks(frame, maxpacket))
  {
    hide Conserved, RoundOutcome, RoundAfter, Chunks, Flags, Allowed;
    var env := (k: nat) => m.writing;
    RoundSteps(Flags(usb.View(), m.entering, me), env, me, 0);
    r, out := usb.AccWrite(me, frame, maxpacket, m.entering, env);
    SmallWrite(frame, maxpacket);
    assert out == [] || out == Chunks(frame, maxpacket);
  }

  /** Behind a frame that is not delivered none is. */
  predicate GapFree(frames: seq<seq<Byte>>, results: seq<int>)
    requires |results| <= |frames|
  {
    forall i, j :: 0 <= i < j < |results| && results[j] == |frames[j]| ==> results[i] == |frames[i]|
  }

  /** Then the delivered frames are the first ones. */
  lemma {:induction false} GapFreePrefix(frames: seq<seq<Byte>>, results: seq<int>)
    requires |results| <= |frames| && GapFree(frames, results)
    ensures Delivered(frames, results) <= frames
  {
    if results != [] {
      assert GapFree(frames[1..], results[1..]) by {
        assert forall i :: 0 <= i < |results| - 1 ==> results[1..][i] == results[i + 1] && frames[1..][i] == frames[i + 1];
      }
      if results[0] == |frames[0]| {
        GapFreePrefix(frames[1..], results[1..]);
        assert frames == [frames[0]] + frames[1..];
      } else {
        NoneDelivered(frames, results);
      }
    }
  }

  lemma {:induction false} NoneDelivered(frames: seq<seq<Byte>>, results: seq<int>)
    requires |results| <= |frames| && forall i :: 0 <= i < |results| ==> results[i] != |frames[i]|
    ensures Delivered(frames, results) == []
  {
    if results != [] {
      assert forall i :: 0 <= i < |results| - 1 ==> results[1..][i] == results[i + 1] && frames[1..][i] == frames[i + 1];
      NoneDelivered(frames[1..], results[1..]);
    }
  }

  /** What the results of a run of `forward` are: those of the writes, and only the last can be an error. */
  predicate Results(frames: seq<seq<Byte>>, results: seq<int>, p: Pool, world: nat -> Meanwhile, me: nat)
    requires |results| <= |frames|
  {
    forall i :: 0 <= i < |results| ==>
      && results[i] == WriteResult(PoolAt(p, world, me, i), |frames[i]|, world(i), me)
      && (results[i] <= 0 || results[i] == |frames[i]|)
      && (results[i] < 0 ==> i == |results| - 1)
  }

  /** Exactly when a frame is skipped: when the function blinks while its write waits. */
  lemma SkipExact(frames: seq<seq<Byte>>, results: seq<int>, p: Pool, world: nat -> Meanwhile, me: nat, i: nat)
    requires |results| <= |frames| && Results(frames, results, p, world, me) && i < |results|
    requires frames[i] != [] && me !in PoolAt(p, world, me, i).held
    ensures results[i] == 0 <==> Blinks(p, world, me, i)
  {
    hide PoolAt, RoundOutcome, Flags, Allowed;
    var q, m := PoolAt(p, world, me, i), world(i);
    FlagsKeep(q, m.entering, me);
    ZeroExact(Flags(q, m.entering, me), m.writing, me);
  }

  lemma FlagsKeep(p: Pool, between: seq<TxPool.Event>, me: nat)
    requires me !in p.held
    ensures me !in Flags(p, between, me).held
  {
    OthersKeep(p, between, me);
  }

  lemma RoundKeeps(p: Pool, turn: Turn, me: nat)
    requires me !in p.held
    ensures me !in RoundAfter(p, turn, me).held
  {
    hide RoundOutcome, Others;
    OthersKeep(p, turn.waiting, me);
    OthersKeep(Waited(p, turn, me), turn.looking, me);
    OthersKeep(Looked(p, turn, me), turn.testing, me);
    OthersKeep(Tested(p, turn, me), turn.flags, me);
  }

  /** The writer holds no request between two writes. */
  lemma {:induction false} HandsEmpty(p: Pool, world: nat -> Meanwhile, me: nat, i: nat)
    requires me !in p.held
    ensures me !in PoolAt(p, world, me, i).held
  {
    hide RoundOutcome, RoundAfter, Allowed, Flags;
    if i > 0 {
      var q, m := PoolAt(p, world, me, i - 1), world(i - 1);
      HandsEmpty(p, world, me, i - 1);
      FlagsKeep(q, m.entering, me);
      RoundKeeps(Flags(q, m.entering, me), m.writing, me);
    }
    OthersKeep(Between(p, world, me, i), world(i).reading, me);
  }

  /** And exactly when frames are delivered behind a gap: when one is skipped and a later write succeeds. */
  lemma GapExact(frames: seq<seq<Byte>>, results: seq<int>, p: Pool, world: nat -> Meanwhile, me: nat)
    requires |results| <= |frames| && Results(frames, results, p, world, me) && me !in p.held
    requires forall i :: 0 <= i < |results| ==> frames[i] != []
    ensures GapFree(frames, results) <==>
            forall i, j :: 0 <= i < j < |results| && Blinks(p, world, me, i) ==> results[j] <= 0
  {
    hide PoolAt, WriteResult, Blinks;
    forall i: nat | i < |results| ensures results[i] == 0 <==> Blinks(p, world, me, i) {
      HandsEmpty(p, world, me, i);
      SkipExact(frames, results, p, world, me, i);
    }
  }

  /** AAWProxy::forward from TCP to USB, on the driver's transmit path.  `results` is what each write returned,
      `sent` the USB requests they queued, `late` counts the writes begun after should_exit was set. */
  method ForwardToUsb(tcp: Source<Byte>, usb: TxPort, me: nat, maxpacket: nat, world: nat -> Meanwhile,
                      stopAt: Option<nat>)
    returns (results: seq<int>, sent: seq<Transfer>, late: nat)
    requires usb.Valid() && me !in usb.held && maxpacket > 0
    modifies tcp, usb
    ensures usb.Valid() && me !in usb.held
    ensures |results| <= |Split(old(tcp.input))|
    ensures sent == Requests(Delivered(Split(old(tcp.input)), results), maxpacket)
    ensures Results(Split(old(tcp.input)), results, old(usb.View()), world, me)
    // no frame is skipped, and what is delivered is the beginning of the stream, if the function does not blink
    ensures (forall i :: 0 <= i < |results| ==> !Blinks(old(usb.View()), world, me, i))
            ==> Delivered(Split(old(tcp.input)), results) <= Split(old(tcp.input))
    ensures GapFree(Split(old(tcp.input)), results) <==>
            forall i, j :: 0 <= i < j < |results| && Blinks(old(usb.View()), world, me, i) ==> results[j] <= 0
    ensures tcp.Reliable() && stopAt.None? && (results == [] || results[|results| - 1] >= 0)
            ==> |results| == |Split(old(tcp.input))|
    ensures late <= 1
  {
    hide Split, StartsFrame, Sofar, Conserved, Others, WriteAfter, Requests, Delivered, Results, Blinks, GapFree, PoolAt, WriteResult, Chunks;
    var buffer := new Byte[BULK];
    var now := 0;
    ghost var all, p := Split(tcp.input), usb.View();
    ghost var tried: seq<seq<Byte>> := [];
    results, sent, late := [], [], 0;
    NothingYet(p, world, me, maxpacket);
    while !Stopped(stopAt, now)
      invariant usb.Valid() && me !in usb.held && late == 0
      invariant tried + Split(tcp.input) == all && Sofar(tried, results, sent, p, world, me, maxpacket)
      invariant usb.View() == Between(p, world, me, |results|)
      invariant |results| == |tried| && (results == [] || results[|results| - 1] >= 0)
      decreases |tcp.input|
    {
      ghost var s := tcp.input;
      var len := ReadMessage(tcp, buffer);
      now := now + 1;
      if len <= 0 {
        assert tcp.Reliable() ==> tried == all by { if tcp.Reliable() { SplitEnds(s); } }
        break;
      }
      SplitStep(s, len);
      assert all == (tried + [buffer[..len]]) + Split(tcp.input);
      if Stopped(stopAt, now) {
        break;
      }
      now := now + 1;
      late := if Stopped(stopAt, now) then late + 1 else late;
      var frame := buffer[..len];
      var i := |results|;
      usb.Interfere(world(i).reading, me);
      PoolStep(p, world, me, i);
      var wlen, out := WriteFrame(usb, me, frame, maxpacket, world(i));
      SofarStep(tried, results, sent, p, world, me, maxpacket, frame, wlen, out);
      sent, results, tried := sent + out, results + [wlen], tried + [frame];
      if wlen < 0 || Stopped(stopAt, now) {
        break;
      }
    }
    Finish(all, tried, results, sent, p, world, me, maxpacket);
  }

  /** What holds of the frames tried so far. */
  ghost predicate Sofar(tried: seq<seq<Byte>>, results: seq<int>, sent: seq<Transfer>,
                        p: Pool, world: nat -> Meanwhile, me: nat, maxpacket: nat)
  {
    && maxpacket > 0 && |results| == |tried|
    && sent == Requests(Delivered(tried, results), maxpacket)
    && Results(tried, results, p, world, me)
    && forall i :: 0 <= i < |tried| ==> tried[i] != []
  }

  lemma NothingYet(p: Pool, world: nat -> Meanwhile, me: nat, maxpacket: nat)
    requires maxpacket > 0
    ensures Sofar([], [], [], p, world, me, maxpacket)
  {
  }

  lemma PoolStep(p: Pool, world: nat -> Meanwhile, me: nat, i: nat)
    ensures Others(Between(p, world, me, i), world(i).reading, me) == PoolAt(p, world, me, i)
    ensures WriteAfter(PoolAt(p, world, me, i), world(i), me) == Between(p, world, me, i + 1)
  {
  }

  lemma SofarStep(tried: seq<seq<Byte>>, results: seq<int>, sent: seq<Transfer>,
                  p: Pool, world: nat -> Meanwhile, me: nat, maxpacket: nat,
                  frame: seq<Byte>, r: int, out: seq<Transfer>)
    requires Sofar(tried, results, sent, p, world, me, maxpacket)
    requires (results == [] || results[|results| - 1] >= 0) && 0 < |frame| <= BULK
    requires r == WriteResult(PoolAt(p, world, me, |results|), |frame|, world(|results|), me)
    requires (r <= 0 || r == |frame|)
    requires out <= Chunks(frame, maxpacket) && (r == |frame| <==> out == Chunks(frame, maxpacket))
    ensures Sofar(tried + [frame], results + [r], sent + out, p, world, me, maxpacket)
  {
    hide PoolAt, WriteResult, Chunks, Requests, Delivered;
    WriteStep(tried, results, frame, r, out, maxpacket);
  }

  lemma Finish(all: seq<seq<Byte>>, tried: seq<seq<Byte>>, results: seq<int>, sent: seq<Transfer>,
               p: Pool, world: nat -> Meanwhile, me: nat, maxpacket: nat)
    requires tried <= all && me !in p.held && Sofar(tried, results, sent, p, world, me, maxpacket)
    ensures |results| <= |all| && sent == Requests(Delivered(all, results), maxpacket)
    ensures Results(all, results, p, world, me)
    ensures (forall i :: 0 <= i < |results| ==> !Blinks(p, world, me, i)) ==> Delivered(all, results) <= all
    ensures GapFree(all, results) <==>
            forall i, j :: 0 <= i < j < |results| && Blinks(p, world, me, i) ==> results[j] <= 0
  {
    hide PoolAt, WriteResult, Requests, Delivered, Blinks, GapFree;
    assert all == tried + all[|tried|..];
    DeliveredPrefix(tried, all[|tried|..], results);
    NoGap(all, results, p, world, me);
  }

  lemma NoGap(frames: seq<seq<Byte>>, results: seq<int>, p: Pool, world: nat -> Meanwhile, me: nat)
    requires |results| <= |frames| && Results(frames, results, p, world, me) && me !in p.held
    requires forall i :: 0 <= i < |results| ==> frames[i] != []
    ensures (forall i :: 0 <= i < |results| ==> !Blinks(p, world, me, i)) ==> Delivered(frames, results) <= frames
    ensures GapFree(frames, results) <==>
            forall i, j :: 0 <= i < j < |results| && Blinks(p, world, me, i) ==> results[j] <= 0
  {
    GapExact(frames, results, p, world, me);
    if forall i :: 0 <= i < |results| ==> !Blinks(p, world, me, i) {
      GapFreePrefix(frames, results);
    }
  }

  lemma SplitStep(s: seq<Byte>, n: nat)
    requires StartsFrame(s) && n == Size(s)
    ensures Split(s) == [s[..n]] + Split(s[n..])
  {
  }

  lemma SplitEnds(s: seq<Byte>)
    requires !StartsFrame(s)
    ensures Split(s) == []
  {
  }

  // ----- a skipped frame, concretely

  /** Another writer takes a request and queues it. */
  const OTHER := [TxPool.Event.Take(1), TxPool.Event.Queue(1)]

  /** A request completes. */
  const DONE := [TxPool.Event.Complete(0)]

  /** The other writer empties the pool.  Behind the req_get a request completes and the function is disabled; the
      endpoint gives the others back, and the function is set up again before the flags are tested. */
  const BLINK := Turn(OTHER + (OTHER + (OTHER + OTHER)), DONE + DISABLE, DONE + (DONE + (DONE + SET_ALT)), [], true, true)

  /** Only the first frame meets this. */
  function OneBlink(i: nat): Meanwhile {
    Meanwhile([], [], if i == 0 then BLINK else Turn([], [], [], [], true, true))
  }

  const ONLINE := Pool([0, 1, 2, 3], [], map[], true, false)
  const BUSY := Pool([], [0, 1, 2, 3], map[], true, false)
  const DOWN := Pool([0], [1, 2, 3], map[], false, true)

  lemma OtherTakes(p: Pool, later: seq<TxPool.Event>)
    requires p.idle != [] && p.held == map[]
    ensures Others(p, OTHER + later, 0) ==
            Others(p.(idle := p.idle[1..], queued := p.queued + [p.idle[0]]), later, 0)
  {
    var es := OTHER + later;
    var p1 := p.(idle := p.idle[1..], held := map[1 := p.idle[0]]);
    assert es[1..] == [TxPool.Event.Queue(1)] + later && es[1..][1..] == later;
    assert Step(p, es[0]) == p1 && p1.held - {1} == map[];
    assert Others(p, es, 0) == Others(p1, es[1..], 0);
  }

  lemma PoolEmptied()
    ensures Others(ONLINE, BLINK.waiting, 0) == BUSY
  {
    hide Others, Step;
    assert [0, 1, 2, 3][1..] == [1, 2, 3] && [1, 2, 3][1..] == [2, 3] && [2, 3][1..] == [3] && [3][1..] == [];
    assert [] + [0] == [0] && [0] + [1] == [0, 1] && [0, 1] + [2] == [0, 1, 2] && [0, 1, 2] + [3] == BUSY.queued;
    OtherTakes(ONLINE, OTHER + (OTHER + OTHER));
    OtherTakes(Pool([1, 2, 3], [0], map[], true, false), OTHER + OTHER);
    OtherTakes(Pool([2, 3], [0, 1], map[], true, false), OTHER);
    OtherTakes(Pool([3], [0, 1, 2], map[], true, false), []);
    assert OTHER + [] == OTHER;
    Nothing(BUSY);
  }

  lemma Nothing(p: Pool)
    ensures Others(p, [], 0) == p
  {
  }

  lemma OneOther(p: Pool, e: TxPool.Event, later: seq<TxPool.Event>)
    requires !ByWriter(e, 0)
    ensures Others(p, [e] + later, 0) == Others(Step(p, e), later, 0)
  {
    assert ([e] + later)[1..] == later;
  }

  lemma Completes(p: Pool, later: seq<TxPool.Event>)
    requires p.queued != []
    ensures Others(p, DONE + later, 0) == Others(p.(queued := p.queued[1..], idle := p.idle + [p.queued[0]]), later, 0)
  {
    OneOther(p, DONE[0], later);
    assert Without(p.queued, 0) == p.queued[1..];
  }

  lemma TwoFlags(p: Pool, a: TxPool.Event, b: TxPool.Event)
    requires !ByWriter(a, 0) && !ByWriter(b, 0)
    ensures Others(p, [a, b], 0) == Step(Step(p, a), b)
  {
    hide Others, Step;
    assert [a, b] == [a] + ([b] + []);
    OneOther(p, a, [b] + []);
    OneOther(Step(p, a), b, []);
    Nothing(Step(Step(p, a), b));
  }

  /** When the wait ends without a request, one is idle. */
  lemma FreedUnseen()
    ensures Others(BUSY, BLINK.looking, 0) == DOWN
  {
    hide Others;
    Completes(BUSY, DISABLE);
    assert [0, 1, 2, 3][1..] == [1, 2, 3] && [] + [0] == [0];
    TwoFlags(Pool([0], [1, 2, 3], map[], true, false), DISABLE[0], DISABLE[1]);
    assert DISABLE == [DISABLE[0], DISABLE[1]];
  }

  lemma BackAgain()
    ensures Others(DOWN, BLINK.testing, 0) == ONLINE
  {
    hide Others;
    assert [1, 2, 3][1..] == [2, 3] && [2, 3][1..] == [3] && [3][1..] == [];
    assert [0] + [1] == [0, 1] && [0, 1] + [2] == [0, 1, 2] && [0, 1, 2] + [3] == ONLINE.idle;
    Completes(DOWN, DONE + (DONE + SET_ALT));
    Completes(Pool([0, 1], [2, 3], map[], false, true), DONE + SET_ALT);
    Completes(Pool([0, 1, 2], [3], map[], false, true), SET_ALT);
    TwoFlags(Pool([0, 1, 2, 3], [], map[], false, true), SET_ALT[0], SET_ALT[1]);
    assert SET_ALT == [SET_ALT[0], SET_ALT[1]];
  }

  /** The first write returns 0 and leaves the pool as it was; the second takes a request. */
  lemma BlinkReturnsZero()
    ensures RoundOutcome(ONLINE, BLINK, 0) == Stops(0) && RoundAfter(ONLINE, BLINK, 0) == ONLINE
    ensures RoundOutcome(ONLINE, OneBlink(1).writing, 0) == Queued
  {
    hide Others;
    PoolEmptied();
    FreedUnseen();
    BackAgain();
    Nothing(ONLINE);
    Nothing(Next(ONLINE, TxPool.Event.Take(0)));
  }

  lemma BlinkResults(n: nat, k: nat)
    ensures WriteResult(PoolAt(ONLINE, OneBlink, 0, 0), n, OneBlink(0), 0) == 0
    ensures WriteResult(PoolAt(ONLINE, OneBlink, 0, 1), k, OneBlink(1), 0) == k
  {
    hide RoundOutcome, RoundAfter, Others;
    BlinkReturnsZero();
    Nothing(ONLINE);
  }

  /** Two frames on a sound connection, an accessory that is usable before and after: the first frame is lost although
      a request is idle, the second is sent, and `forward` goes on as if nothing had happened. */
  method SkippedFrame(f: seq<Byte>, g: seq<Byte>, maxpacket: nat) returns (results: seq<int>, sent: seq<Transfer>)
    requires Forwardable(f) && Forwardable(g) && maxpacket > 0
    ensures results == [0, |g|] && sent == [Transfer(g, |g| % maxpacket == 0)]
  {
    hide Conserved, WriteResult, PoolAt, Split;
    var usb := new TxPort();
    usb.Do(TxPool.Event.SetOnline(true));
    usb.Do(TxPool.Event.SetDisconnected(false));
    assert usb.View() == ONLINE;
    var tcp := new Source(f + g, _ => 0, _ => false);
    TwoFrames(f, g);
    BlinkResults(|f|, |g|);
    var late;
    results, sent, late := ForwardToUsb(tcp, usb, 0, maxpacket, OneBlink, None);
    assert |results| > 0 ==> results[0] == 0;
    assert |results| == 2;
    assert results == [0, |g|];
    OnlySecond(f, g);
    OneRequestEach([g], maxpacket);
    assert Requests([g], maxpacket) == [Transfer(g, |g| % maxpacket == 0)];
  }

  lemma TwoFrames(f: seq<Byte>, g: seq<Byte>)
    requires Forwardable(f) && Forwardable(g)
    ensures Split(f + g) == [f, g]
  {
    hide Split;
    assert [f, g][1..] == [g] && Flatten([g]) == g + Flatten([]);
    assert Flatten([f, g]) == f + g;
    SplitExact([f, g]);
  }

  lemma OnlySecond(f: seq<Byte>, g: seq<Byte>)
    requires f != []
    ensures Delivered([f, g], [0, |g|]) == [g]
  {
    assert [f, g][1..] == [g] && [0, |g|][1..] == [|g|];
    assert [g][1..] == [] && [|g|][1..] == [] && [g] + [] == [g] && [] + [g] == [g];
    assert Delivered([g], [|g|]) == [g];
  }

  /** What a socket that is offered `n` bytes takes, when it would take `most`. */
  function Taken(most: nat, n: nat): (r: nat)
    ensures r <= most && r <= n && (r < n ==> r == most)
  {
    if most < n then most else n
  }

  /** The bytes on the TCP stream: of each message that was written, as many as the socket took. */
  function Stream(written: seq<seq<Byte>>, lens: seq<nat>): seq<Byte>
    requires |lens| == |written| && forall i :: 0 <= i < |lens| ==> lens[i] <= |written[i]|
  {
    if written == [] then [] else written[0][..lens[0]] + Stream(written[1..], lens[1..])
  }

  lemma {:induction false} StreamLength(written: seq<seq<Byte>>, lens: seq<nat>)
    requires |lens| == |written| && forall i :: 0 <= i < |lens| ==> lens[i] <= |written[i]|
    ensures |Stream(written, lens)| <= |Flatten(written)|
    ensures |Stream(written, lens)| == |Flatten(written)| <==> forall i :: 0 <= i < |lens| ==> lens[i] == |written[i]|
    ensures |Stream(written, lens)| == |Flatten(written)| ==> Stream(written, lens) == Flatten(written)
  {
    if written != [] {
      assert forall i :: 0 <= i < |lens| - 1 ==> lens[1..][i] == lens[i + 1] && written[1..][i] == written[i + 1];
      StreamLength(written[1..], lens[1..]);
    }
  }

  /** A short write is not repeated: the stream carries the written messages whole exactly when no write was short. */
  lemma StreamExact(written: seq<seq<Byte>>, lens: seq<nat>)
    requires |lens| == |written| && forall i :: 0 <= i < |lens| ==> lens[i] <= |written[i]|
    ensures Stream(written, lens) == Flatten(written) <==> forall i :: 0 <= i < |lens| ==> lens[i] == |written[i]|
  {
    StreamLength(written, lens);
  }

  /** Of each message the socket took what it would take of it. */
  predicate AsTaken(written: seq<seq<Byte>>, lens: seq<nat>, socket: nat -> Option<nat>) {
    && |lens| == |written|
    && forall i :: 0 <= i < |lens| ==> socket(i).Some? && lens[i] == Taken(socket(i).value, |written[i]|)
  }

  /** What the reads took is written, dropped or lost, and what they return is written, dropped or left. */
  ghost predicate Ledger(before: seq<Fate>, fates: seq<Fate>, whole: seq<seq<Byte>>, left: seq<seq<Byte>>,
                         written: seq<seq<Byte>>, dropped: seq<seq<Byte>>, lost: seq<seq<Byte>>)
  {
    && Datas(fates) == Datas(before) + (written + dropped + lost)
    && whole == (written + dropped) + left
  }

  lemma NothingForwarded(fates: seq<Fate>, whole: seq<seq<Byte>>, socket: nat -> Option<nat>)
    ensures Ledger(fates, fates, whole, whole, [], [], []) && AsTaken([], [], socket)
  {
    hide Datas;
  }

  lemma ReadFails(before: seq<Fate>, earlier: seq<Fate>, fates: seq<Fate>, whole: seq<seq<Byte>>,
                  written: seq<seq<Byte>>, lost: seq<seq<Byte>>)
    requires Ledger(before, earlier, whole, [], written, [], []) && Datas(fates) == Datas(earlier) + lost
    ensures Ledger(before, fates, whole, [], written, [], lost)
  {
    hide Datas;
    assert written + [] + [] == written;
    assert written + [] + lost == written + lost;
  }

  lemma ReadSucceeds(before: seq<Fate>, earlier: seq<Fate>, fates: seq<Fate>, whole: seq<seq<Byte>>,
                     left: seq<seq<Byte>>, written: seq<seq<Byte>>, next: seq<Byte>)
    requires Ledger(before, earlier, whole, [next] + left, written, [], [])
    requires Datas(fates) == Datas(earlier) + [next]
    ensures Ledger(before, fates, whole, left, written + [next], [], [])
    ensures Ledger(before, fates, whole, left, written, [next], [])
  {
    hide Datas;
    assert written + [] + [] == written;
    assert (written + [next]) + [] + [] == written + [next] == written + [next] + [];
    assert written + ([next] + left) == (written + [next]) + left;
  }

  lemma Balance(before: seq<Fate>, fates: seq<Fate>, whole: seq<seq<Byte>>, left: seq<seq<Byte>>,
                written: seq<seq<Byte>>, dropped: seq<seq<Byte>>, lost: seq<seq<Byte>>,
                pendingBefore: seq<seq<Byte>>, pending: seq<seq<Byte>>, received: seq<seq<Byte>>, after: seq<seq<Byte>>)
    requires Ledger(before, fates, whole, left, written, dropped, lost)
    requires received <= after && received == Datas(before) + pendingBefore && after == Datas(fates) + pending
    ensures (written + dropped + lost) + pending == pendingBefore + after[|received|..]
    ensures written + dropped <= whole && (dropped == left == [] ==> written == whole)
  {
    hide Datas;
    assert written + dropped <= whole;
    if dropped == left == [] {
      assert written + dropped == written && written + left == written;
    }
    Account(Datas(before), written + dropped + lost, pending, received, pendingBefore, after);
  }

  lemma AppendLen(written: seq<seq<Byte>>, lens: seq<nat>, socket: nat -> Option<nat>, next: seq<Byte>)
    requires AsTaken(written, lens, socket) && socket(|written|).Some?
    ensures AsTaken(written + [next], lens + [Taken(socket(|written|).value, |next|)], socket)
  {
  }

  /** AAWProxy::forward from USB to TCP, on the driver's receive path.  `socket` says how many bytes the k-th write
      takes at most; None is an error.  `written` are the messages whose write succeeded, `lens` what it took of each.
      A message that was read and then not written, because of should_exit or an error, is `dropped`; one that a read
      took and did not return, because the function went offline or copying failed, is `lost`. */
  method ForwardToTcp(usb: RxPort, calls: seq<RxRead.Read>, socket: nat -> Option<nat>, stopAt: Option<nat>)
    returns (written: seq<seq<Byte>>, lens: seq<nat>, dropped: seq<seq<Byte>>, late: nat, ghost lost: seq<seq<Byte>>)
    requires usb.Valid() && !usb.queued
    requires forall i :: 0 <= i < |calls| ==> calls[i].wanted == BULK
    modifies usb
    ensures usb.Valid() && !usb.queued && old(usb.received) <= usb.received
    ensures (written + dropped + lost) + usb.Pending() == old(usb.Pending()) + usb.received[|old(usb.received)|..]
    ensures AsTaken(written, lens, socket)
    ensures |dropped| + |lost| <= 1 && late <= 1
    ensures dropped != [] ==> stopAt.Some? || socket(|written|).None?
    ensures (forall i :: 0 <= i < |calls| ==> RxRead.Calm(calls[i])) ==> lost == []
    // what goes out is what the reads return, up to the first that fails, all of it if nothing else stops the thread
    ensures written + dropped <= RxRead.UntilFailure(old(usb.View()), usb.maxpacket, calls)
    ensures stopAt.None? && written != RxRead.UntilFailure(old(usb.View()), usb.maxpacket, calls)
            ==> socket(|written|).None?
    // so a port that is ready, calls that bring messages and a socket that works put these messages on the stream
    ensures RxRead.Ready(old(usb.View())) && old(usb.Pending()) == [] && stopAt.None?
            ==> forall ds :: RxRead.Feeds(calls, ds) && (forall k: nat :: socket(k).Some?) ==> written == ds
  {
    hide RxPort.Valid, RxPort.View, RxPort.Pending, RxRead.Ready, RxRead.Feeds, Datas, RxRead.Calm, RxRead.UntilFailure, RxRead.ReadEnd, AsTaken, Ledger;
    usb.Accounted();
    var now, i := 0, 0;
    ghost var mp, fates := usb.maxpacket, usb.fates;
    ghost var whole := RxRead.UntilFailure(usb.View(), mp, calls);
    ghost var left := whole;
    written, lens, dropped, lost, late := [], [], [], [], 0;
    assert calls[0..] == calls;
    NothingForwarded(fates, whole, socket);
    forall ds | RxRead.Ready(usb.View()) && usb.Pending() == [] && RxRead.Feeds(calls, ds) ensures whole == ds {
      usb.NothingPending();
      RxRead.ReadsDeliver(usb.View(), mp, calls, ds);
    }
    while !Stopped(stopAt, now) && i < |calls|
      invariant i <= |calls| && usb.Valid() && !usb.queued && old(usb.received) <= usb.received
      invariant dropped == lost == [] && late == 0 && AsTaken(written, lens, socket)
      invariant left == RxRead.UntilFailure(usb.View(), mp, calls[i..])
      invariant Ledger(fates, usb.fates, whole, left, written, [], [])
      decreases |calls| - i
    {
      assert calls[i..][1..] == calls[i + 1..];
      RxRead.UntilFailureStep(usb.View(), mp, calls[i..]);
      ghost var earlier := usb.fates;
      var len, buffer;
      len, buffer, lost := usb.FullRead(calls[i]);
      i, now := i + 1, now + 1;
      if len <= 0 {
        ReadFails(fates, earlier, usb.fates, whole, written, lost);
        break;
      }
      left := RxRead.UntilFailure(usb.View(), mp, calls[i..]);
      ReadSucceeds(fates, earlier, usb.fates, whole, left, written, buffer);
      if Stopped(stopAt, now) {
        dropped := [buffer];
        break;
      }
      now := now + 1;
      late := if Stopped(stopAt, now) then late + 1 else late;
      var wlen := socket(|written|);
      if wlen == None {
        dropped := [buffer];
        break;
      }
      AppendLen(written, lens, socket, buffer);
      written, lens := written + [buffer], lens + [Taken(wlen.value, |buffer|)];
      if Stopped(stopAt, now) {
        break;
      }
    }
    if i == |calls| {
      assert calls[i..] == [];
      RxRead.UntilFailureNone(usb.View(), mp);
    }
    usb.Accounted();
    Balance(fates, usb.fates, whole, left, written, dropped, lost, old(usb.Pending()), usb.Pending(), old(usb.received), usb.received);
  }

  // ----- from the phone's stream to the car's messages

  lemma {:induction false} OneRequestEach(frames: seq<seq<Byte>>, maxpacket: nat)
    requires maxpacket > 0 && forall i :: 0 <= i < |frames| ==> Forwardable(frames[i])
    ensures var r := Requests(frames, maxpacket);
            |r| == |frames| && forall i :: 0 <= i < |frames| ==>
              r[i] == Transfer(frames[i], |frames[i]| % maxpacket == 0)
  {
    if frames != [] {
      SmallWrite(frames[0], maxpacket);
      OneRequestEach(frames[1..], maxpacket);
      var r, t := Requests(frames, maxpacket), Requests(frames[1..], maxpacket);
      assert r == [Transfer(frames[0], |frames[0]| % maxpacket == 0)] + t;
      assert forall i :: 0 < i < |frames| ==> r[i] == t[i - 1] && frames[i] == frames[1..][i - 1];
    }
  }

  lemma {:induction false} DeliveredForwardable(frames: seq<seq<Byte>>, results: seq<int>)
    requires |results| <= |frames| && forall i :: 0 <= i < |frames| ==> Forwardable(frames[i])
    ensures forall i :: 0 <= i < |Delivered(frames, results)| ==> Forwardable(Delivered(frames, results)[i])
  {
    if results != [] {
      assert forall i :: 0 <= i < |frames| - 1 ==> frames[1..][i] == frames[i + 1];
      DeliveredForwardable(frames[1..], results[1..]);
    }
  }

  /** The phone's frames, concatenated on the TCP stream, split by the proxy, written to the accessory with whatever
      results, cut into requests by acc_write and into packets by the controller: the host gets exactly the
      delivered frames, each as one request and one message; and all of them if every write was whole. */
  lemma EndToEnd(frames: seq<seq<Byte>>, results: seq<int>, maxpacket: nat)
    requires maxpacket > 0 && BULK % maxpacket == 0 && |results| <= |frames|
    requires forall i :: 0 <= i < |frames| ==> Forwardable(frames[i])
    ensures Split(Flatten(frames)) == frames
    ensures var d := Delivered(Split(Flatten(frames)), results);
            var requests := Requests(d, maxpacket);
            && |requests| == |d|
            && Messages(Wire(requests, maxpacket), maxpacket, []) == (d, [])
            && (|results| == |frames| && (forall i :: 0 <= i < |results| ==> results[i] == |frames[i]|) ==> d == frames)
  {
    SplitExact(frames);
    var d := Delivered(frames, results);
    DeliveredForwardable(frames, results);
    OneRequestEach(d, maxpacket);
    HostSeesWrites(d, maxpacket);
    if |results| == |frames| && forall i :: 0 <= i < |results| ==> results[i] == |frames[i]| {
      AllDelivered(frames, results);
    }
  }
}
