/** What one call of acc_read returns and leaves behind, as a function of the receive side it finds and of what happens
    while it runs; and when it returns a message, and when it fails. */
module RxRead {
  import opened Errno
  import opened Sequences
  import opened UsbTransfers

  /** The receive side: the flags, rx_done, whether the request is with the controller, its length and its buffer. */
  datatype Rx = Rx(online: bool, disconnected: bool, rxDone: bool, queued: bool, length: nat, buf: seq<Byte>)

  /** What can happen around a read; a signal only matters to a wait.  The flags are written one at a time. */
  datatype Event =
    | Data(data: seq<Byte>)         // acc_complete_out: the request comes back with what it has
    | SetOnline(value: bool)        // acc_function_set_alt and acc_function_disable
    | SetDisconnected(value: bool)  // these, acc_open, acc_release, and acc_complete_out at -ESHUTDOWN
    | Signal

  /** One turn from the label requeue_req: what happens before the request is queued, whether that works, and what
      happens from then to the read of `online`. */
  datatype Cycle = Cycle(before: seq<Event>, queueOk: bool, waiting: seq<Event>)

  /** One call of acc_read: what happens before it, from the wait for `online` to the test of rx_done, and in its turns;
      what a request holds when it is dequeued; and whether copy_to_user works.  A wait for which nothing is left to
      happen is interrupted. */
  datatype Read = Read(before: seq<Event>, wanted: nat, opening: seq<Event>, cycles: seq<Cycle>,
                       part: seq<Byte>, copyOk: bool)

  function Step(p: Rx, e: Event): Rx {
    match e
    case Data(d) => if p.queued && |d| <= p.length then p.(rxDone := true, queued := false, buf := d) else p
    case SetOnline(v) => p.(online := v)
    case SetDisconnected(v) => p.(disconnected := v)
    case Signal => p
  }

  function All(p: Rx, es: seq<Event>): Rx
    decreases |es|
  {
    if es == [] then p else All(Step(p, es[0]), es[1..])
  }

  /** The data length of a request: the count rounded up to whole packets. */
  function RoundUp(count: nat, maxpacket: nat): nat
    requires maxpacket > 0
  {
    var n := count + maxpacket - 1;
    n - n % maxpacket
  }

  /** Rounding up asks for the fewest whole packets that hold what the reader wants, and never for more than the
      buffer holds. */
  lemma RoundUpFits(count: nat, maxpacket: nat)
    requires maxpacket > 0 && BULK % maxpacket == 0 && count <= BULK
    ensures count <= RoundUp(count, maxpacket) <= BULK
    ensures RoundUp(count, maxpacket) < count + maxpacket && RoundUp(count, maxpacket) % maxpacket == 0
  {
    var n := count + maxpacket - 1;
    WholePart(n, maxpacket);
    WholeBelow(RoundUp(count, maxpacket), BULK, maxpacket);
  }

  lemma WholePart(n: nat, m: nat)
    requires m > 0
    ensures 0 <= n % m < m && n - n % m >= 0 && (n - n % m) % m == 0
  {
    assert n - n % m == n / m * m;
    Whole(n / m, m);
  }

  /** Two multiples of `m` less than `m` apart the wrong way round are in order after all. */
  lemma WholeBelow(a: nat, b: nat, m: nat)
    requires m > 0 && a % m == 0 && b % m == 0 && a < b + m
    ensures a <= b
  {
    var q, k := a / m, b / m;
    assert a == q * m && b == k * m;
    assert a - b == (q - k) * m;
    Scale(q - k, m);
  }

  lemma Scale(d: int, m: nat)
    requires m > 0
    ensures d >= 1 ==> d * m >= m
    ensures d <= 0 ==> d * m <= 0
  {
  }

  lemma {:induction false} Whole(q: nat, m: nat)
    requires m > 0
    ensures (q * m) % m == 0
  {
    if q > 0 {
      Whole(q - 1, m);
      assert q * m == (q - 1) * m + m;
      ModStep((q - 1) * m, m);
    }
  }

  // ----- acc_read

  /** A wait: whether it was not interrupted, and what it leaves. */
  datatype Wait = Wait(ok: bool, p: Rx)

  /** wait_event_interruptible(read_wq, online), and what happens behind it. */
  function OnlineWait(p: Rx, es: seq<Event>): Wait
    decreases |es|
  {
    if p.online then Wait(true, All(p, es))
    else if es == [] || es[0].Signal? then Wait(false, p)
    else OnlineWait(Step(p, es[0]), es[1..])
  }

  /** wait_event_interruptible(read_wq, rx_done), and what happens behind it. */
  function DoneWait(p: Rx, es: seq<Event>): Wait
    decreases |es|
  {
    if p.rxDone then Wait(true, All(p, es))
    else if es == [] || es[0].Signal? then Wait(false, p)
    else DoneWait(Step(p, es[0]), es[1..])
  }

  /** Another turn, or the return from acc_read. */
  datatype End = Again(p: Rx) | Returns(p: Rx, r: int, out: seq<Byte>)

  /** The label copy_data. */
  function Copied(p: Rx, count: nat, copyOk: bool): End {
    var q := p.(rxDone := false);
    if !p.online then Returns(q, -EIO, [])
    else if p.buf == [] then Again(q)
    else if !copyOk then Returns(q, -EFAULT, [])
    else
      var xfer := if |p.buf| < count then |p.buf| else count;
      Returns(q, xfer, p.buf[..xfer])
  }

  /** usb_ep_dequeue: a request that is still with the controller comes back with what it has. */
  function Dequeued(p: Rx, part: seq<Byte>): Rx {
    Step(p, Data(if |part| <= p.length then part else []))
  }

  /** One turn from the label requeue_req. */
  function Turn(p: Rx, length: nat, c: Cycle, call: Read, count: nat): End {
    var q := All(p, c.before).(length := length, rxDone := false);
    if !c.queueOk then Returns(q, -EIO, [])
    else
      var w := DoneWait(q.(queued := true), c.waiting);
      if w.ok then Copied(w.p, count, call.copyOk) else Returns(Dequeued(w.p, call.part), -ERESTARTSYS, [])
  }

  /** A turn in which nothing happens. */
  const NOTHING := Cycle([], true, [])

  function Turns(p: Rx, length: nat, cs: seq<Cycle>, call: Read, count: nat): End
    decreases |cs|
  {
    if cs == [] then Turn(p, length, NOTHING, call, count)
    else
      match Turn(p, length, cs[0], call, count)
      case Again(q) => Turns(q, length, cs[1..], call, count)
      case e => e
  }

  /** From the test of rx_done on: a completed request is copied, otherwise one is queued. */
  function FromHere(p: Rx, length: nat, cs: seq<Cycle>, call: Read, count: nat): End {
    if !p.rxDone then Turns(p, length, cs, call, count)
    else
      match Copied(p, count, call.copyOk)
      case Again(q) => Turns(q, length, cs, call, count)
      case e => e
  }

  function Wanted(call: Read): nat { if call.wanted > BULK then BULK else call.wanted }

  function ReadEnd(p: Rx, maxpacket: nat, call: Read): End
    requires maxpacket > 0
  {
    var q := All(p, call.before);
    if q.disconnected then Returns(q, -ENODEV, [])
    else
      var w := OnlineWait(q, call.opening);
      var count := Wanted(call);
      var length := RoundUp(count, maxpacket);
      if w.ok then FromHere(w.p, length, call.cycles, call, count) else Returns(w.p, -ERESTARTSYS, [])
  }

  // ----- what the events do

  /** Nothing but a completion touches the request, and nothing is completed that is not with the controller. */
  lemma {:induction false} AllIdle(p: Rx, es: seq<Event>)
    requires !p.queued
    ensures var q := All(p, es); q == p.(online := q.online, disconnected := q.disconnected)
    decreases |es|
  {
    if es != [] {
      AllIdle(Step(p, es[0]), es[1..]);
    }
  }

  /** The flag is what was written to it last. */
  lemma {:induction false} OnlineLast(p: Rx, es: seq<Event>, v: bool)
    requires SetOnline(!v) !in es && (SetOnline(v) in es || p.online == v)
    ensures All(p, es).online == v
    decreases |es|
  {
    if es != [] {
      assert SetOnline(v) in es ==> es[0] == SetOnline(v) || SetOnline(v) in es[1..];
      OnlineLast(Step(p, es[0]), es[1..], v);
    }
  }

  lemma {:induction false} ConnectedStays(p: Rx, es: seq<Event>)
    requires SetDisconnected(true) !in es && !p.disconnected
    ensures !All(p, es).disconnected
    decreases |es|
  {
    if es != [] {
      ConnectedStays(Step(p, es[0]), es[1..]);
    }
  }

  // ----- when a wait succeeds

  /** Exactly when the wait for the function succeeds: it is online, or is set online ahead of any signal. */
  lemma {:induction false} OnlineWaitExact(p: Rx, es: seq<Event>)
    ensures OnlineWait(p, es).ok <==>
            p.online || exists k :: 0 <= k < |es| && es[k] == SetOnline(true) && Signal !in es[..k]
    ensures OnlineWait(p, es).ok ==> OnlineWait(p, es).p == All(p, es)
    decreases |es|
  {
    if !p.online && es != [] && es[0] != Signal {
      var q, later := Step(p, es[0]), es[1..];
      OnlineWaitExact(q, later);
      if k :| 0 <= k < |es| && es[k] == SetOnline(true) && Signal !in es[..k] {
        if k > 0 {
          assert later[k - 1] == es[k] && later[..k - 1] == es[..k][1..];
        }
      }
      if k :| 0 <= k < |later| && later[k] == SetOnline(true) && Signal !in later[..k] {
        assert es[k + 1] == SetOnline(true) && es[..k + 1] == [es[0]] + later[..k];
      }
      if es[0] == SetOnline(true) {
        assert es[..0] == [];
      }
    }
  }

  predicate Fits(e: Event, length: nat) { e.Data? && |e.data| <= length }

  /** The completion that ends the wait for a queued request: the first one, ahead of any signal. */
  predicate CompletesAt(es: seq<Event>, length: nat, k: nat) {
    k < |es| && Fits(es[k], length) && forall j :: 0 <= j < k ==> !es[j].Signal? && !Fits(es[j], length)
  }

  lemma {:induction false} DoneWaitAt(p: Rx, es: seq<Event>, k: nat)
    requires p.queued && !p.rxDone && CompletesAt(es, p.length, k)
    ensures var w := DoneWait(p, es);
            && w.ok && w.p.rxDone && !w.p.queued && w.p.buf == es[k].data && w.p.length == p.length
            && w.p.online == All(p, es).online && w.p.disconnected == All(p, es).disconnected
    decreases |es|
  {
    var q, later := Step(p, es[0]), es[1..];
    if k == 0 {
      AllIdle(q, later);
    } else {
      assert later[k - 1] == es[k];
      assert forall j :: 0 <= j < k - 1 ==> later[j] == es[j + 1];
      DoneWaitAt(q, later, k - 1);
    }
  }

  lemma {:induction false} DoneWaitNever(p: Rx, es: seq<Event>)
    requires p.queued && !p.rxDone && forall k :: 0 <= k < |es| ==> !CompletesAt(es, p.length, k)
    ensures var w := DoneWait(p, es); !w.ok && w.p.queued && !w.p.rxDone && w.p.length == p.length
    decreases |es|
  {
    if es != [] && !es[0].Signal? {
      var q, later := Step(p, es[0]), es[1..];
      assert !CompletesAt(es, p.length, 0);
      forall k | 0 <= k < |later| ensures !CompletesAt(later, p.length, k) {
        assert !CompletesAt(es, p.length, k + 1);
        assert forall j :: 0 < j <= k + 1 ==> es[j] == later[j - 1];
      }
      DoneWaitNever(q, later);
    }
  }

  lemma {:induction false} DoneWaitOnline(p: Rx, es: seq<Event>)
    requires p.online && Staying(es)
    ensures DoneWait(p, es).p.online
    decreases |es|
  {
    if p.rxDone {
      OnlineLast(p, es, true);
    } else if es != [] && !es[0].Signal? {
      DoneWaitOnline(Step(p, es[0]), es[1..]);
    }
  }

  lemma {:induction false} DoneWaitConnected(p: Rx, es: seq<Event>)
    requires !p.disconnected && SetDisconnected(true) !in es
    ensures !DoneWait(p, es).p.disconnected
    decreases |es|
  {
    if p.rxDone {
      ConnectedStays(p, es);
    } else if es != [] && !es[0].Signal? {
      DoneWaitConnected(Step(p, es[0]), es[1..]);
    }
  }

  // ----- how a turn ends

  /** The request of this turn is completed, with `d`. */
  ghost predicate Completed(c: Cycle, length: nat, d: seq<Byte>) {
    exists k: nat :: CompletesAt(c.waiting, length, k) && c.waiting[k].data == d
  }

  /** Whether the function is online when the turn looks. */
  function OnlineAtEnd(p: Rx, c: Cycle): bool { All(All(p, c.before), c.waiting).online }

  lemma TurnCompleted(p: Rx, length: nat, c: Cycle, call: Read, count: nat, d: seq<Byte>)
    requires !p.queued && c.queueOk && Completed(c, length, d)
    ensures var e := Turn(p, length, c, call, count);
            && !e.p.queued && !e.p.rxDone && e.p.online == OnlineAtEnd(p, c)
            && e.p.disconnected == All(All(p, c.before), c.waiting).disconnected
            && if !OnlineAtEnd(p, c) then e == Returns(e.p, -EIO, [])
               else if d == [] then e.Again?
               else if !call.copyOk then e == Returns(e.p, -EFAULT, [])
               else
                 var n := if |d| < count then |d| else count;
                 e == Returns(e.p, n, d[..n])
  {
    var k: nat :| CompletesAt(c.waiting, length, k) && c.waiting[k].data == d;
    var b := All(p, c.before);
    var q := b.(length := length, rxDone := false, queued := true);
    DoneWaitAt(q, c.waiting, k);
    FlagsAlike(q, b, c.waiting);
  }

  lemma {:induction false} FlagsAlike(p: Rx, q: Rx, es: seq<Event>)
    requires p.online == q.online && p.disconnected == q.disconnected
    ensures All(p, es).online == All(q, es).online && All(p, es).disconnected == All(q, es).disconnected
    decreases |es|
  {
    if es != [] {
      FlagsAlike(Step(p, es[0]), Step(q, es[0]), es[1..]);
    }
  }

  lemma TurnInterrupted(p: Rx, length: nat, c: Cycle, call: Read, count: nat)
    requires !p.queued && c.queueOk && forall d :: !Completed(c, length, d)
    ensures var e := Turn(p, length, c, call, count);
            && e == Returns(e.p, -ERESTARTSYS, []) && !e.p.queued && e.p.rxDone
            && e.p.buf == (if |call.part| <= length then call.part else [])
  {
    var q := All(p, c.before).(length := length, rxDone := false, queued := true);
    forall k | 0 <= k < |c.waiting| ensures !CompletesAt(c.waiting, length, k) {
      if CompletesAt(c.waiting, length, k) {
        assert Completed(c, length, c.waiting[k].data);
      }
    }
    DoneWaitNever(q, c.waiting);
  }

  /** There is at most one completion that ends the wait. */
  lemma CompletedOnce(c: Cycle, length: nat, d: seq<Byte>, d': seq<Byte>)
    requires Completed(c, length, d) && Completed(c, length, d')
    ensures d == d'
  {
    var k: nat :| CompletesAt(c.waiting, length, k) && c.waiting[k].data == d;
    var k': nat :| CompletesAt(c.waiting, length, k') && c.waiting[k'].data == d';
    assert k == k';
  }

  /** Exactly when a turn ends how. */
  lemma TurnExact(p: Rx, length: nat, c: Cycle, call: Read, count: nat)
    requires !p.queued && count > 0
    ensures var e, online := Turn(p, length, c, call, count), OnlineAtEnd(p, c);
            && (e.Again? <==> c.queueOk && Completed(c, length, []) && online)
            && (e.Returns? && e.r == -EIO <==>
                  !c.queueOk || (!online && exists d :: Completed(c, length, d)))
            && (e.Returns? && e.r == -ERESTARTSYS <==> c.queueOk && forall d :: !Completed(c, length, d))
            && (e.Returns? && e.r == -EFAULT <==>
                  c.queueOk && online && !call.copyOk && exists d :: d != [] && Completed(c, length, d))
            && (e.Returns? && e.r > 0 <==>
                  c.queueOk && online && call.copyOk && exists d :: d != [] && Completed(c, length, d))
  {
    if c.queueOk {
      if d :| Completed(c, length, d) {
        TurnCompleted(p, length, c, call, count, d);
        forall d' | Completed(c, length, d') ensures d' == d {
          CompletedOnce(c, length, d, d');
        }
      } else {
        TurnInterrupted(p, length, c, call, count);
      }
    }
  }

  lemma {:induction false} AllConcat(p: Rx, a: seq<Event>, b: seq<Event>)
    ensures All(p, a + b) == All(All(p, a), b)
    decreases |a|
  {
    if a == [] {
      assert a + b == b;
    } else {
      assert (a + b)[1..] == a[1..] + b;
      AllConcat(Step(p, a[0]), a[1..], b);
    }
  }

  /** What happens in some turns. */
  function During(cs: seq<Cycle>): seq<Event> {
    if cs == [] then [] else (cs[0].before + cs[0].waiting) + During(cs[1..])
  }

  /** The turn that ends the call, the events up to its end taken together. */
  function CycleAt(cs: seq<Cycle>, k: nat): Cycle { if k < |cs| then cs[k] else NOTHING }

  function OnlineUpTo(p: Rx, cs: seq<Cycle>, k: nat): bool
    requires k <= |cs|
  {
    All(p, During(cs[..k]) + (CycleAt(cs, k).before + CycleAt(cs, k).waiting)).online
  }

  lemma OnlineUpToNone(p: Rx, cs: seq<Cycle>)
    ensures OnlineUpTo(p, cs, 0) == OnlineAtEnd(p, CycleAt(cs, 0))
  {
    var c := CycleAt(cs, 0);
    assert During(cs[..0]) + (c.before + c.waiting) == c.before + c.waiting;
    AllConcat(p, c.before, c.waiting);
  }

  /** A turn that only brings a zero-length packet leaves the flags as its events do. */
  lemma OnlineUpToMore(p: Rx, q: Rx, cs: seq<Cycle>, k: nat)
    requires cs != [] && k < |cs| && q.online == OnlineAtEnd(p, cs[0])
    ensures OnlineUpTo(p, cs, k + 1) == OnlineUpTo(q, cs[1..], k)
  {
    var c, d := cs[0], CycleAt(cs, k + 1);
    assert cs[..k + 1][1..] == cs[1..][..k] && CycleAt(cs[1..], k) == d;
    var first, later := c.before + c.waiting, During(cs[1..][..k]);
    assert During(cs[..k + 1]) == first + later;
    assert (first + later) + (d.before + d.waiting) == first + (later + (d.before + d.waiting));
    AllConcat(p, first, later + (d.before + d.waiting));
    AllConcat(p, c.before, c.waiting);
    OnlineAlike(All(p, first), q, later + (d.before + d.waiting));
  }

  lemma {:induction false} OnlineAlike(p: Rx, q: Rx, es: seq<Event>)
    requires p.online == q.online
    ensures All(p, es).online == All(q, es).online
    decreases |es|
  {
    if es != [] {
      OnlineAlike(Step(p, es[0]), Step(q, es[0]), es[1..]);
    }
  }

  /** How turn `c` ends the call. */
  ghost predicate Decides(c: Cycle, length: nat, online: bool, call: Read, count: nat, e: End) {
    && e.Returns? && !(c.queueOk && online && Completed(c, length, []))
    && (e.r == -EIO <==> !c.queueOk || (!online && exists d :: Completed(c, length, d)))
    && (e.r == -ERESTARTSYS <==> c.queueOk && forall d :: !Completed(c, length, d))
    && (e.r == -EFAULT <==> c.queueOk && online && !call.copyOk && exists d :: d != [] && Completed(c, length, d))
    && (e.r > 0 <==> c.queueOk && online && call.copyOk && exists d :: d != [] && Completed(c, length, d))
    && (e.r > 0 ==> forall d :: Completed(c, length, d) ==>
          e.r == (if |d| < count then |d| else count) && e.r <= |d| && e.out == d[..e.r])
  }

  lemma TurnDecides(p: Rx, length: nat, c: Cycle, call: Read, count: nat)
    requires !p.queued && count > 0 && Turn(p, length, c, call, count).Returns?
    ensures Decides(c, length, OnlineAtEnd(p, c), call, count, Turn(p, length, c, call, count))
  {
    TurnExact(p, length, c, call, count);
    var e := Turn(p, length, c, call, count);
    forall d | Completed(c, length, d) && e.r > 0
      ensures e.r == (if |d| < count then |d| else count) && e.out == d[..e.r]
    {
      TurnCompleted(p, length, c, call, count, d);
    }
  }

  lemma TurnsFirst(p: Rx, length: nat, cs: seq<Cycle>, call: Read, count: nat)
    requires !p.queued
    ensures cs == [] ==> Turn(p, length, NOTHING, call, count).Returns? && Turns(p, length, cs, call, count).r == -ERESTARTSYS
    ensures var e := Turn(p, length, CycleAt(cs, 0), call, count);
            Turns(p, length, cs, call, count) == if cs != [] && e.Again? then Turns(e.p, length, cs[1..], call, count) else e
  {
  }

  /** Exactly how the turns of a call end: some bring nothing but a zero-length packet, with the function online, and the
      one behind them, which does not, decides. */
  lemma {:induction false} TurnsExact(p: Rx, length: nat, cs: seq<Cycle>, call: Read, count: nat) returns (k: nat)
    requires !p.queued && count > 0
    ensures k <= |cs|
    ensures forall i :: 0 <= i < k ==> cs[i].queueOk && Completed(cs[i], length, []) && OnlineUpTo(p, cs, i)
    ensures Decides(CycleAt(cs, k), length, OnlineUpTo(p, cs, k), call, count, Turns(p, length, cs, call, count))
    decreases |cs|
  {
    hide All, Turns, Turn, Completed, OnlineUpTo, Decides;
    var c := CycleAt(cs, 0);
    var e := Turn(p, length, c, call, count);
    OnlineUpToNone(p, cs);
    TurnExact(p, length, c, call, count);
    TurnsFirst(p, length, cs, call, count);
    if e.Again? {
      TurnCompleted(p, length, c, call, count, []);
      var j := TurnsExact(e.p, length, cs[1..], call, count);
      k := j + 1;
      forall i | 0 <= i <= j ensures OnlineUpTo(p, cs, i + 1) == OnlineUpTo(e.p, cs[1..], i) {
        OnlineUpToMore(p, e.p, cs, i);
      }
      forall i | 0 <= i < k ensures cs[i].queueOk && Completed(cs[i], length, []) && OnlineUpTo(p, cs, i) {
        if i > 0 {
          assert cs[i] == cs[1..][i - 1];
          assert OnlineUpTo(p, cs, (i - 1) + 1) == OnlineUpTo(e.p, cs[1..], i - 1);
        }
      }
    } else {
      k := 0;
      TurnDecides(p, length, c, call, count);
    }
  }

  // ----- when a read returns a message

  predicate Staying(es: seq<Event>) { SetOnline(false) !in es }

  predicate StayingTurns(cs: seq<Cycle>) {
    forall i :: 0 <= i < |cs| ==> Staying(cs[i].before) && Staying(cs[i].waiting)
  }

  /** The function does not go offline during the call, and copying works. */
  predicate Calm(call: Read) {
    call.wanted >= BULK && Staying(call.opening) && StayingTurns(call.cycles) && call.copyOk
  }

  /** And nobody calls it disconnected, and no flag is cleared before the call either. */
  predicate Steady(call: Read) {
    && Calm(call) && Staying(call.before)
    && SetDisconnected(true) !in call.before && SetDisconnected(true) !in call.opening
    && forall i :: 0 <= i < |call.cycles| ==>
         SetDisconnected(true) !in call.cycles[i].before && SetDisconnected(true) !in call.cycles[i].waiting
  }

  /** The turns bring the message `d`: possibly behind zero-length packets, its request is queued and completed ahead of
      any signal. */
  ghost predicate Brings(cs: seq<Cycle>, length: nat, d: seq<Byte>)
    decreases |cs|
  {
    && cs != [] && cs[0].queueOk
    && (Completed(cs[0], length, d) || (Completed(cs[0], length, []) && Brings(cs[1..], length, d)))
  }

  predicate Ready(p: Rx) { p.online && !p.disconnected && !p.queued }

  lemma StepsReady(p: Rx, es: seq<Event>)
    requires Ready(p) && Staying(es) && SetDisconnected(true) !in es
    ensures Ready(All(p, es)) && All(p, es) == p.(online := true, disconnected := false)
  {
    AllIdle(p, es);
    OnlineLast(p, es, true);
    ConnectedStays(p, es);
  }

  lemma {:induction false} TurnsDeliver(p: Rx, length: nat, cs: seq<Cycle>, call: Read, count: nat, d: seq<Byte>)
    requires Ready(p) && call.copyOk && d != [] && Brings(cs, length, d) && StayingTurns(cs)
    requires forall i :: 0 <= i < |cs| ==> SetDisconnected(true) !in cs[i].before && SetDisconnected(true) !in cs[i].waiting
    ensures var e, n := Turns(p, length, cs, call, count), if |d| < count then |d| else count;
            e == Returns(e.p, n, d[..n]) && Ready(e.p) && !e.p.rxDone
    decreases |cs|
  {
    var c := cs[0];
    var b := All(p, c.before);
    StepsReady(p, c.before);
    OnlineLast(b, c.waiting, true);
    ConnectedStays(b, c.waiting);
    if Completed(c, length, d) {
      TurnCompleted(p, length, c, call, count, d);
    } else {
      TurnCompleted(p, length, c, call, count, []);
      var q := Turn(p, length, c, call, count).p;
      assert forall i :: 0 <= i < |cs| - 1 ==> cs[1..][i] == cs[i + 1];
      TurnsDeliver(q, length, cs[1..], call, count, d);
    }
  }

  /** A full-buffer read on a function that stays online and connected returns the message that waits, whatever else
      happens; and if none waits, the one that its turns bring. */
  lemma ReadDelivers(p: Rx, maxpacket: nat, call: Read, d: seq<Byte>)
    requires maxpacket > 0 && BULK % maxpacket == 0 && Ready(p) && Steady(call) && 0 < |d| <= BULK
    requires if p.rxDone && p.buf != [] then d == p.buf else Brings(call.cycles, BULK, d)
    ensures var e := ReadEnd(p, maxpacket, call);
            e == Returns(e.p, |d|, d) && Ready(e.p) && !e.p.rxDone
  {
    hide Turns, Brings;
    StepsReady(p, call.before);
    var q := All(p, call.before);
    StepsReady(q, call.opening);
    OnlineWaitExact(q, call.opening);
    RoundUpFits(BULK, maxpacket);
    assert RoundUp(Wanted(call), maxpacket) == BULK;
    var w := All(q, call.opening);
    assert d[..|d|] == d;
    if !(p.rxDone && p.buf != []) {
      var q := if w.rxDone then w.(rxDone := false) else w;
      TurnsDeliver(q, BULK, call.cycles, call, BULK, d);
    }
  }

  /** Exactly how a call ends: refused by the flags, interrupted while it waits for the function, with the message that
      is there already, or as its turns (`TurnsExact`) end.  -ENODEV comes from the first test and from nowhere else. */
  lemma ReadExact(p: Rx, maxpacket: nat, call: Read)
    requires maxpacket > 0
    ensures var e, q := ReadEnd(p, maxpacket, call), All(p, call.before);
            var w := All(q, call.opening);
            var up := q.online || exists k :: 0 <= k < |call.opening| && call.opening[k] == SetOnline(true)
                                              && Signal !in call.opening[..k];
            && (e.Returns? && e.r == -ENODEV <==> q.disconnected)
            && (!q.disconnected && !up ==> e == Returns(e.p, -ERESTARTSYS, []))
            && (!q.disconnected && up && w.rxDone && !w.online ==> e == Returns(e.p, -EIO, []))
            && (!q.disconnected && up && w.rxDone && w.online && w.buf != [] ==>
                  var n := if |w.buf| < Wanted(call) then |w.buf| else Wanted(call);
                  if call.copyOk then e == Returns(e.p, n, w.buf[..n]) else e == Returns(e.p, -EFAULT, []))
            && (!q.disconnected && up && (!w.rxDone || (w.online && w.buf == [])) ==>
                  e == Turns(w.(rxDone := false), RoundUp(Wanted(call), maxpacket), call.cycles, call, Wanted(call)))
  {
    hide Turns, RoundUp;
    var q := All(p, call.before);
    OnlineWaitExact(q, call.opening);
    var w := OnlineWait(q, call.opening).p;
    NeverNoDevice(w, RoundUp(Wanted(call), maxpacket), call.cycles, call, Wanted(call));
    NeverNoDevice(w.(rxDone := false), RoundUp(Wanted(call), maxpacket), call.cycles, call, Wanted(call));
    assert !w.rxDone ==> w.(rxDone := false) == w;
  }

  lemma {:induction false} NeverNoDevice(p: Rx, length: nat, cs: seq<Cycle>, call: Read, count: nat)
    ensures var e := Turns(p, length, cs, call, count); e.Returns? ==> e.r != -ENODEV
    decreases |cs|
  {
    if cs != [] {
      var e := Turn(p, length, cs[0], call, count);
      if e.Again? { NeverNoDevice(e.p, length, cs[1..], call, count); }
    }
  }

  /** An interrupted read loses nothing: what had arrived when its request was dequeued is what the next read returns. */
  lemma PartKept(p: Rx, maxpacket: nat, call: Read, next: Read)
    requires maxpacket > 0 && BULK % maxpacket == 0 && Ready(p) && !p.rxDone && Steady(call) && Steady(next)
    requires |call.cycles| == 1 && call.cycles[0].queueOk && forall d :: !Completed(call.cycles[0], BULK, d)
    requires 0 < |call.part| <= BULK
    ensures var e := ReadEnd(p, maxpacket, call);
            && e == Returns(e.p, -ERESTARTSYS, []) && e.p.rxDone && e.p.buf == call.part
            && var f := ReadEnd(e.p, maxpacket, next); f == Returns(f.p, |call.part|, call.part)
  {
    hide Completed;
    StepsReady(p, call.before);
    var q := All(p, call.before);
    StepsReady(q, call.opening);
    OnlineWaitExact(q, call.opening);
    RoundUpFits(BULK, maxpacket);
    var w := All(q, call.opening);
    TurnInterrupted(w, BULK, call.cycles[0], call, BULK);
    var b := All(w, call.cycles[0].before);
    StepsReady(w, call.cycles[0].before);
    DoneWaitConnected(b.(length := BULK, rxDone := false, queued := true), call.cycles[0].waiting);
    DoneWaitOnline(b.(length := BULK, rxDone := false, queued := true), call.cycles[0].waiting);
    ReadDelivers(ReadEnd(p, maxpacket, call).p, maxpacket, next, call.part);
  }

  // ----- several reads

  /** What a reader gets from several calls, until one of them fails. */
  function UntilFailure(p: Rx, maxpacket: nat, calls: seq<Read>): seq<seq<Byte>>
    requires maxpacket > 0
    decreases |calls|
  {
    if calls == [] then []
    else
      match ReadEnd(p, maxpacket, calls[0])
      case Returns(q, r, out) => if r > 0 then [out] + UntilFailure(q, maxpacket, calls[1..]) else []
      case Again(_) => []
  }

  lemma UntilFailureNone(p: Rx, maxpacket: nat)
    requires maxpacket > 0
    ensures UntilFailure(p, maxpacket, []) == []
  {
  }

  lemma UntilFailureStep(p: Rx, maxpacket: nat, calls: seq<Read>)
    requires maxpacket > 0 && calls != []
    ensures var e := ReadEnd(p, maxpacket, calls[0]);
            UntilFailure(p, maxpacket, calls) ==
            if e.Returns? && e.r > 0 then [e.out] + UntilFailure(e.p, maxpacket, calls[1..]) else []
  {
    hide ReadEnd;
  }

  /** What it gets if it goes on calling. */
  function Collected(p: Rx, maxpacket: nat, calls: seq<Read>): seq<seq<Byte>>
    requires maxpacket > 0
    decreases |calls|
  {
    if calls == [] then []
    else
      var e := ReadEnd(p, maxpacket, calls[0]);
      (if e.Returns? && e.r > 0 then [e.out] else []) + Collected(e.p, maxpacket, calls[1..])
  }

  /** Each call brings its message. */
  ghost predicate Feeds(calls: seq<Read>, ds: seq<seq<Byte>>) {
    && |calls| == |ds|
    && forall i :: 0 <= i < |calls| ==> Steady(calls[i]) && 0 < |ds[i]| <= BULK && Brings(calls[i].cycles, BULK, ds[i])
  }

  /** So many calls return so many messages, these and in this order. */
  lemma {:induction false} ReadsDeliver(p: Rx, maxpacket: nat, calls: seq<Read>, ds: seq<seq<Byte>>)
    requires maxpacket > 0 && BULK % maxpacket == 0 && Ready(p) && (p.rxDone ==> p.buf == []) && Feeds(calls, ds)
    ensures UntilFailure(p, maxpacket, calls) == ds && Collected(p, maxpacket, calls) == ds
    decreases |calls|
  {
    hide ReadEnd, Steady, Brings;
    if calls != [] {
      ReadDelivers(p, maxpacket, calls[0], ds[0]);
      var e := ReadEnd(p, maxpacket, calls[0]);
      assert forall i :: 0 <= i < |calls| - 1 ==> calls[1..][i] == calls[i + 1] && ds[1..][i] == ds[i + 1];
      ReadsDeliver(e.p, maxpacket, calls[1..], ds[1..]);
      assert ds == [ds[0]] + ds[1..];
    }
  }
}
