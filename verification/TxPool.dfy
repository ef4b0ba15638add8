/** The fixed pool of TX requests, shared by any number of writers and the USB controller, and acc_write. */
module TxPool {
  import opened Errno
  import opened Sequences
  import opened UsbTransfers

  /** TX_REQ_MAX. */
  const REQUESTS := 4

  /** Requests are numbers.  `held` maps a writer to the request it has taken and not yet queued. */
  datatype Pool = Pool(idle: seq<nat>, queued: seq<nat>, held: map<nat, nat>, online: bool, disconnected: bool)

  /** The flags are plain fields, written without the lock, so each write is a step of its own. */
  datatype Event =
    | Take(writer: nat)             // req_get in acc_write
    | Queue(writer: nat)            // usb_ep_queue succeeds
    | PutBack(writer: nat)          // req_put on the error path
    | Complete(at: nat)             // req_put in acc_complete_in, for the request at this place in the queue
    | SetOnline(value: bool)        // acc_function_set_alt and acc_function_disable
    | SetDisconnected(value: bool)  // these, acc_open, acc_release, and acc_complete_in at -ESHUTDOWN

  /** acc_function_set_alt and acc_function_disable. */
  const SET_ALT := [SetOnline(true), SetDisconnected(false)]
  const DISABLE := [SetDisconnected(true), SetOnline(false)]

  const BOUND := Pool([0, 1, 2, 3], [], map[], false, false)

  predicate Enabled(p: Pool, e: Event) {
    match e
    case Take(w) => w !in p.held && p.idle != []
    case Queue(w) => w in p.held
    case PutBack(w) => w in p.held
    case Complete(i) => i < |p.queued|
    case _ => true
  }

  function Next(p: Pool, e: Event): Pool
    requires Enabled(p, e)
  {
    match e
    case Take(w) => p.(idle := p.idle[1..], held := p.held[w := p.idle[0]])
    case Queue(w) => p.(held := p.held - {w}, queued := p.queued + [p.held[w]])
    case PutBack(w) => p.(held := p.held - {w}, idle := p.idle + [p.held[w]])
    case Complete(i) => p.(queued := Without(p.queued, i), idle := p.idle + [p.queued[i]])
    case SetOnline(v) => p.(online := v)
    case SetDisconnected(v) => p.(disconnected := v)
  }

  // ----- conservation

  predicate InHand(p: Pool, r: nat) { r in p.held.Values }

  /** How many places have request `r`. */
  function Places(p: Pool, r: nat): nat {
    Count(p.idle, r) + Count(p.queued, r) + (if InHand(p, r) then 1 else 0)
  }

  /** Every request of the pool is in exactly one place and there are no others; no two writers share
      one; and the sizes add up. */
  ghost predicate Conserved(p: Pool) {
    && (forall r: nat :: Places(p, r) == if r < REQUESTS then 1 else 0)
    && (forall w, w' :: w in p.held && w' in p.held && w != w' ==> p.held[w] != p.held[w'])
    && |p.idle| + |p.queued| + |p.held| == REQUESTS
  }

  lemma BoundConserved()
    ensures Conserved(BOUND)
  {
    forall r: nat ensures Places(BOUND, r) == if r < REQUESTS then 1 else 0 {
      assert BOUND.idle == [0] + ([1] + ([2] + [3]));
      CountConcat([0], [1] + ([2] + [3]), r);
      CountConcat([1], [2] + [3], r);
      CountConcat([2], [3], r);
    }
  }

  lemma TakeConserves(p: Pool, w: nat)
    requires Conserved(p) && Enabled(p, Take(w))
    ensures Conserved(Next(p, Take(w)))
  {
    var q, x := Next(p, Take(w)), p.idle[0];
    assert q.held.Keys == p.held.Keys + {w};
    assert q.held[w] == x;
    assert Places(p, x) >= 1;
    assert !InHand(p, x);
    forall r: nat ensures Places(q, r) == Places(p, r) && (InHand(q, r) <==> InHand(p, r) || r == x) {
      if InHand(p, r) {
        var v :| v in p.held && p.held[v] == r;
        assert q.held[v] == r;
      }
      if InHand(q, r) && r != x {
        var v :| v in q.held && q.held[v] == r;
        assert p.held[v] == r;
      }
    }
    assert |q.held| == |p.held| + 1;
  }

  /** A writer lets its request go to the end of one of the queues. */
  lemma LetGoConserves(p: Pool, e: Event)
    requires Conserved(p) && Enabled(p, e) && (e.Queue? || e.PutBack?)
    ensures Conserved(Next(p, e))
  {
    var q, w := Next(p, e), e.writer;
    var x := p.held[w];
    assert q.held.Keys == p.held.Keys - {w};
    forall r: nat ensures Places(q, r) == Places(p, r) {
      CountSnoc(p.queued, x, r);
      CountSnoc(p.idle, x, r);
      if InHand(p, r) {
        var v :| v in p.held && p.held[v] == r;
        if r != x { assert q.held[v] == r; }
      }
      if InHand(q, r) {
        var v :| v in q.held && q.held[v] == r;
        assert p.held[v] == r && r != x;
      }
    }
    assert |q.held| == |p.held| - 1;
  }

  lemma CompleteConserves(p: Pool, e: Event)
    requires Conserved(p) && Enabled(p, e) && e.Complete?
    ensures Conserved(Next(p, e))
  {
    var q := Next(p, e);
    forall r: nat ensures Places(q, r) == Places(p, r) {
      CountWithout(p.queued, e.at, r);
      CountSnoc(p.idle, p.queued[e.at], r);
    }
  }

  lemma SamePlaces(p: Pool, q: Pool)
    requires Conserved(p) && q == p.(online := q.online, disconnected := q.disconnected)
    ensures Conserved(q)
  {
    forall r: nat ensures Places(q, r) == Places(p, r) {}
  }

  lemma NextConserves(p: Pool, e: Event)
    requires Conserved(p) && Enabled(p, e)
    ensures Conserved(Next(p, e))
  {
    hide Conserved;
    var q := Next(p, e);
    match e
    case Take(w) => TakeConserves(p, w);
    case Queue(_) => LetGoConserves(p, e);
    case PutBack(_) => LetGoConserves(p, e);
    case Complete(_) => CompleteConserves(p, e);
    case _ => SamePlaces(p, q);
  }

  /** An event that cannot happen now is skipped, so every interleaving of any set of writers is a run. */
  function Step(p: Pool, e: Event): Pool {
    if Enabled(p, e) then Next(p, e) else p
  }

  lemma StepConserves(p: Pool, e: Event)
    requires Conserved(p)
    ensures Conserved(Step(p, e))
  {
    if Enabled(p, e) { NextConserves(p, e); }
  }

  function Exec(p: Pool, es: seq<Event>): Pool
    decreases |es|
  {
    if es == [] then p else Exec(Step(p, es[0]), es[1..])
  }

  /** Conservation over a whole bind epoch. */
  lemma {:induction false} PoolConserved(p: Pool, es: seq<Event>)
    requires Conserved(p)
    ensures Conserved(Exec(p, es))
    decreases |es|
  {
    if es != [] {
      StepConserves(p, es[0]);
      PoolConserved(Step(p, es[0]), es[1..]);
    }
  }

  // ----- acc_write, round by round

  predicate ByWriter(e: Event, me: nat) {
    (e.Take? || e.Queue? || e.PutBack?) && e.writer == me
  }

  /** What everybody but the writer `me` does. */
  function Others(p: Pool, es: seq<Event>, me: nat): Pool
    decreases |es|
  {
    if es == [] then p else Others(if ByWriter(es[0], me) then p else Step(p, es[0]), es[1..], me)
  }

  lemma {:induction false} OthersSnoc(p: Pool, es: seq<Event>, e: Event, me: nat)
    ensures Others(p, es + [e], me) ==
            var q := Others(p, es, me); if ByWriter(e, me) then q else Step(q, e)
    decreases |es|
  {
    hide Step;
    if es == [] {
      assert [] + [e] == [e] && [e][1..] == [];
    } else {
      assert (es + [e])[1..] == es[1..] + [e];
      OthersSnoc(if ByWriter(es[0], me) then p else Step(p, es[0]), es[1..], e, me);
    }
  }

  /** What the environment does in one round of the loop of acc_write, between one read of shared state and the next:
      before the req_get that ends the wait, between it and the read of `online` in the wait condition, between that
      and the first flag of the test, and between its two flags; and whether copying and queueing work. */
  datatype Turn = Turn(waiting: seq<Event>, looking: seq<Event>, testing: seq<Event>, flags: seq<Event>,
                       copyOk: bool, queueOk: bool)

  /** How a round ends: the request is queued, or the write returns. */
  datatype Outcome = Queued | Stops(r: int)

  /** The pool behind the last req_get of the wait, with a request taken if there was one. */
  function Waited(p: Pool, turn: Turn, me: nat): Pool { Step(Others(p, turn.waiting, me), Take(me)) }

  /** The pool when the wait condition reads `online`. */
  function Looked(p: Pool, turn: Turn, me: nat): Pool { Others(Waited(p, turn, me), turn.looking, me) }

  /** The pool when the test reads `online`. */
  function Tested(p: Pool, turn: Turn, me: nat): Pool { Others(Looked(p, turn, me), turn.testing, me) }

  /** The pool when the test reads `disconnected`, which it does only if it has found the function online. */
  function Flagged(p: Pool, turn: Turn, me: nat): Pool { Flags(Tested(p, turn, me), turn.flags, me) }

  /** `!dev->online || dev->disconnected`, with `between` happening between the two reads: the pool afterwards, and
      whether the flags allow the write to go on. */
  function Flags(p: Pool, between: seq<Event>, me: nat): Pool { if p.online then Others(p, between, me) else p }

  predicate Allowed(p: Pool, between: seq<Event>, me: nat) { p.online && !Flags(p, between, me).disconnected }

  function RoundOutcome(p: Pool, turn: Turn, me: nat): Outcome {
    if !Allowed(Tested(p, turn, me), turn.flags, me) then Stops(-EIO)
    else if me !in Waited(p, turn, me).held then Stops(if Looked(p, turn, me).online then -ERESTARTSYS else 0)
    else if !turn.copyOk then Stops(-EFAULT)
    else if !turn.queueOk then Stops(-EIO)
    else Queued
  }

  /** The pool after a round; a request that was not queued has been put back. */
  function RoundAfter(p: Pool, turn: Turn, me: nat): Pool {
    Step(Flagged(p, turn, me), if RoundOutcome(p, turn, me) == Queued then Queue(me) else PutBack(me))
  }

  /** The pool at the start of round `k`. */
  function Round(p: Pool, env: nat -> Turn, me: nat, k: nat): Pool {
    if k == 0 then p else RoundAfter(Round(p, env, me, k - 1), env(k - 1), me)
  }

  /** Exactly when a round ends the write with 0: no request is idle at the last req_get of the wait, the function is
      offline when the wait condition looks, and the test allows the write to go on. */
  lemma ZeroExact(p: Pool, turn: Turn, me: nat)
    requires me !in p.held
    ensures RoundOutcome(p, turn, me) == Stops(0) <==>
            && Others(p, turn.waiting, me).idle == [] && !Looked(p, turn, me).online
            && Allowed(Tested(p, turn, me), turn.flags, me)
  {
    OthersKeep(p, turn.waiting, me);
  }

  /** And exactly when it ends it with -ERESTARTSYS: the same with the function online; the wait then ends by a
      signal. */
  lemma SignalExact(p: Pool, turn: Turn, me: nat)
    requires me !in p.held
    ensures RoundOutcome(p, turn, me) == Stops(-ERESTARTSYS) <==>
            && Others(p, turn.waiting, me).idle == [] && Looked(p, turn, me).online
            && Allowed(Tested(p, turn, me), turn.flags, me)
  {
    OthersKeep(p, turn.waiting, me);
  }

  /** What becomes of the request a round has taken: it is queued if the round queues it, and is idle again if not; a
      round that has taken none leaves the pool alone. */
  lemma RoundRequest(p: Pool, turn: Turn, me: nat)
    requires me !in p.held
    ensures var idle, f, r := Others(p, turn.waiting, me).idle, Flagged(p, turn, me), RoundAfter(p, turn, me);
            if idle == [] then r == f
            else if RoundOutcome(p, turn, me) == Queued then r.queued == f.queued + [idle[0]] && r.idle == f.idle
            else r.idle == f.idle + [idle[0]] && r.queued == f.queued
  {
    hide Others;
    OthersKeep(p, turn.waiting, me);
    OthersKeep(Waited(p, turn, me), turn.looking, me);
    OthersKeep(Looked(p, turn, me), turn.testing, me);
    OthersKeep(Tested(p, turn, me), turn.flags, me);
  }

  /** Exactly when it queues its request, and when it ends the write because copying fails or with -EIO: the flags are
      tested before anything is copied, a request that could not be filled is not queued, and a failed usb_ep_queue
      ends the write. */
  lemma RoundExact(p: Pool, turn: Turn, me: nat)
    requires me !in p.held
    ensures var o, idle := RoundOutcome(p, turn, me), Others(p, turn.waiting, me).idle;
            var t := Tested(p, turn, me);
            var usable := t.online && !Others(t, turn.flags, me).disconnected;
            && (o == Queued <==> usable && idle != [] && turn.copyOk && turn.queueOk)
            && (o == Stops(-EFAULT) <==> usable && idle != [] && !turn.copyOk)
            && (o == Stops(-EIO) <==> !usable || (idle != [] && turn.copyOk && !turn.queueOk))
  {
    OthersKeep(p, turn.waiting, me);
  }

  lemma {:induction false} OthersKeep(p: Pool, es: seq<Event>, me: nat)
    ensures var q := Others(p, es, me);
            (me in q.held <==> me in p.held) && (me in p.held ==> q.held[me] == p.held[me])
    decreases |es|
  {
    if es != [] {
      OthersKeep(if ByWriter(es[0], me) then p else Step(p, es[0]), es[1..], me);
    }
  }

  /** Only acc_function_set_alt brings the function back. */
  lemma {:induction false} OthersStayOffline(p: Pool, es: seq<Event>, me: nat)
    requires !p.online && SetOnline(true) !in es
    ensures !Others(p, es, me).online
    decreases |es|
  {
    if es != [] {
      OthersStayOffline(if ByWriter(es[0], me) then p else Step(p, es[0]), es[1..], me);
    }
  }

  /** So a write returns 0 only if the function is set up again between the wait and the test. */
  lemma ZeroNeedsSetAlt(p: Pool, turn: Turn, me: nat)
    requires RoundOutcome(p, turn, me) == Stops(0)
    ensures SetOnline(true) in turn.testing
  {
    if SetOnline(true) !in turn.testing {
      OthersStayOffline(Looked(p, turn, me), turn.testing, me);
      assert false;
    }
  }

  /** One pass of the loop takes the first of the requests that are due. */
  lemma SendStep(sent: seq<Transfer>, rest: seq<Byte>, maxpacket: nat, xfer: nat, zero: bool)
    requires rest != [] && maxpacket > 0
    requires xfer == (if |rest| > BULK then BULK else |rest|)
    requires zero == (|rest| <= BULK && |rest| % maxpacket == 0)
    ensures (sent + [Transfer(rest[..xfer], zero)]) + Chunks(rest[xfer..], maxpacket) == sent + Chunks(rest, maxpacket)
  {
    if |rest| <= BULK {
      assert rest[..xfer] == rest && rest[xfer..] == [];
    }
    assert Chunks(rest, maxpacket) == [Transfer(rest[..xfer], zero)] + Chunks(rest[xfer..], maxpacket);
  }

  /** Why a round with this environment, which left the pool `p`, made the write return `r`. */
  predicate Reason(r: int, turn: Turn, p: Pool) {
    || (r == 0 && !p.disconnected && SetOnline(true) in turn.testing)
    || (r == -EIO && (!p.online || p.disconnected || (turn.copyOk && !turn.queueOk)))
    || (r == -EFAULT && !p.disconnected && !turn.copyOk)
    || (r == -ERESTARTSYS && !p.disconnected)
  }

  class TxPort {
    var idle: seq<nat>
    var queued: seq<nat>
    var held: map<nat, nat>
    var online: bool
    var disconnected: bool

    ghost function View(): Pool
      reads this
    {
      Pool(idle, queued, held, online, disconnected)
    }

    ghost predicate Valid()
      reads this
    {
      Conserved(View())
    }

    constructor ()
      ensures Valid() && View() == BOUND
    {
      idle, queued, held, online, disconnected := [0, 1, 2, 3], [], map[], false, false;
      new;
      BoundConserved();
    }

    /** One step of somebody else, or of the writer itself. */
    method Do(e: Event)
      requires Valid() && Enabled(View(), e)
      modifies this
      ensures Valid() && View() == Next(old(View()), e)
    {
      hide Conserved;
      NextConserves(View(), e);
      match e
      case Take(w) => held := held[w := idle[0]]; idle := idle[1..];
      case Queue(w) => queued := queued + [held[w]]; held := held - {w};
      case PutBack(w) => idle := idle + [held[w]]; held := held - {w};
      case Complete(i) =>
        idle := idle + [queued[i]];
        queued := queued[..i] + queued[i + 1..];
      case SetOnline(v) => online := v;
      case SetDisconnected(v) => disconnected := v;
    }

    /** What happens while the writer `me` is not looking. */
    method Interfere(es: seq<Event>, me: nat)
      requires Valid()
      modifies this
      ensures Valid() && View() == Others(old(View()), es, me)
      ensures (me in held <==> me in old(held)) && (me in held ==> held[me] == old(held)[me])
    {
      hide Conserved;
      ghost var p := View();
      var i := 0;
      while i < |es|
        invariant i <= |es| && Valid() && View() == Others(p, es[..i], me)
      {
        OthersSnoc(p, es[..i], es[i], me);
        assert es[..i + 1] == es[..i] + [es[i]];
        if !ByWriter(es[i], me) && IsEnabled(es[i]) {
          Do(es[i]);
        }
        i := i + 1;
      }
      assert es[..i] == es;
      OthersKeep(p, es, me);
    }

    predicate IsEnabled(e: Event)
      reads this
    {
      Enabled(Pool(idle, queued, held, online, disconnected), e)
    }

    /** wait_event_interruptible in acc_write, from the req_get that ends it: with a request; without one because the
        function is offline when the condition goes on to look; or because of a signal when it is not. */
    method WaitForRequest(me: nat, waiting: seq<Event>, looking: seq<Event>) returns (req: Option<nat>, ret: int)
      requires Valid() && me !in held
      modifies this
      ensures Valid() && View() == Others(Step(Others(old(View()), waiting, me), Take(me)), looking, me)
      ensures (me in held <==> req.Some?) && (req.Some? ==> held[me] == req.value && ret == 0)
      ensures req.None? <==> Others(old(View()), waiting, me).idle == []
      ensures req.None? ==> ret == if online then -ERESTARTSYS else 0
    {
      hide Conserved;
      Interfere(waiting, me);
      req, ret := None, 0;
      if idle != [] {
        req := Some(idle[0]);
        Do(Take(me));
      }
      Interfere(looking, me);
      if req == None && online {
        ret := -ERESTARTSYS;
      }
    }

    /** The test of the two flags, with `between` happening between the reads. */
    method TestFlags(me: nat, between: seq<Event>) returns (ok: bool)
      requires Valid()
      modifies this
      ensures Valid() && View() == Flags(old(View()), between, me) && ok == Allowed(old(View()), between, me)
      ensures ok ==> !disconnected
      ensures !ok ==> !online || disconnected
      ensures (me in held <==> me in old(held)) && (me in held ==> held[me] == old(held)[me])
    {
      hide Conserved;
      if !online {
        return false;
      }
      Interfere(between, me);
      ok := !disconnected;
    }

    /** One pass of the loop of acc_write, and its tail: a request that is not queued goes back to the pool. */
    method WriteRound(me: nat, turn: Turn) returns (o: Outcome)
      requires Valid() && me !in held
      modifies this
      ensures Valid() && me !in held && View() == RoundAfter(old(View()), turn, me)
      ensures o == RoundOutcome(old(View()), turn, me)
      ensures o.Stops? ==> o.r <= 0 && Reason(o.r, turn, View())
    {
      hide Conserved, Others, Flags, Allowed;
      ghost var p := View();
      var req, ret := WaitForRequest(me, turn.waiting, turn.looking);
      OthersKeep(p, turn.waiting, me);
      OthersKeep(Waited(p, turn, me), turn.looking, me);
      Interfere(turn.testing, me);
      var ok := TestFlags(me, turn.flags);
      if !ok {
        o := Stops(-EIO);
      } else if req == None {
        o := Stops(ret);
        if ret == 0 { ZeroNeedsSetAlt(p, turn, me); }
      } else if !turn.copyOk {
        o := Stops(-EFAULT);
      } else if !turn.queueOk {
        o := Stops(-EIO);
      } else {
        Do(Queue(me));
        return Queued;
      }
      if req != None {
        Do(PutBack(me));
      }
    }

    /** acc_write by `me`.  The buffer and the count are advanced together, so what is left of `data` stands
        for both.  `entering` happens between the two flags tested at the start; `sent` are the requests it got onto
        the endpoint. */
    method AccWrite(me: nat, data: seq<Byte>, maxpacket: nat, entering: seq<Event>, env: nat -> Turn)
      returns (r: int, sent: seq<Transfer>)
      requires Valid() && me !in held && maxpacket > 0
      modifies this
      ensures Valid() && me !in held
      ensures sent <= Chunks(data, maxpacket)
      ensures var q := Flags(old(View()), entering, me);
              if !Allowed(old(View()), entering, me) then r == -ENODEV && sent == [] && View() == q
              else
                // every request sent is a round that queues, and the first round that does not decides the result
                && (forall k :: 0 <= k < |sent| ==> RoundOutcome(Round(q, env, me, k), env(k), me) == Queued)
                && (if sent == Chunks(data, maxpacket) then r == |data| && View() == Round(q, env, me, |sent|)
                    else RoundOutcome(Round(q, env, me, |sent|), env(|sent|), me) == Stops(r)
                         && View() == Round(q, env, me, |sent| + 1) && Reason(r, env(|sent|), View()))
      ensures data != [] ==> (r == |data| <==> sent == Chunks(data, maxpacket))
    {
      hide Conserved, RoundOutcome, RoundAfter, Round, Reason, Chunks, Flags, Allowed;
      sent := [];
      ChunksNone(data, maxpacket);
      assert [] + Chunks(data, maxpacket) == Chunks(data, maxpacket);
      var ok := TestFlags(me, entering);
      if !ok {
        return -ENODEV, [];
      }
      ghost var p := View();
      RoundSteps(p, env, me, 0);
      r := |data|;
      var rest, round := data, 0;
      while rest != []
        invariant Valid() && me !in held && r == |data|
        invariant sent + Chunks(rest, maxpacket) == Chunks(data, maxpacket)
        invariant round == |sent| && View() == Round(p, env, me, round)
        invariant forall k :: 0 <= k < |sent| ==> RoundOutcome(Round(p, env, me, k), env(k), me) == Queued
        decreases |rest|
      {
        ChunksNone(rest, maxpacket);
        RoundSteps(p, env, me, round);
        var o := WriteRound(me, env(round));
        round := round + 1;
        if o.Stops? {
          r := o.r;
          break;
        }
        var xfer, zero := |rest|, |rest| % maxpacket == 0;
        if |rest| > BULK {
          xfer, zero := BULK, false;
        }
        SendStep(sent, rest, maxpacket, xfer, zero);
        sent := sent + [Transfer(rest[..xfer], zero)];
        rest := rest[xfer..];
      }
      ChunksNone(rest, maxpacket);
    }
  }

  lemma ChunksNone(data: seq<Byte>, maxpacket: nat)
    requires maxpacket > 0
    ensures Chunks(data, maxpacket) == [] <==> data == []
  {
  }

  lemma RoundSteps(p: Pool, env: nat -> Turn, me: nat, k: nat)
    ensures Round(p, env, me, 0) == p
    ensures Round(p, env, me, k + 1) == RoundAfter(Round(p, env, me, k), env(k), me)
  {
  }
}
