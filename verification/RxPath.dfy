/** The receive side of the accessory driver: one request, a flag that says it has completed, and acc_read,
    which may be interrupted while the request is with the controller. */
module RxPath {
  import opened Errno
  import opened Sequences
  import opened UsbTransfers
  import opened RxRead

  /** What became of one completed non-empty receive request. */
  datatype Fate =
    | Returned(data: seq<Byte>, bytes: nat)   // so many of its bytes went to the reader
    | Lost(data: seq<Byte>)                   // the function was offline, or copying out failed

  function Datas(fates: seq<Fate>): seq<seq<Byte>> {
    if fates == [] then [] else [fates[0].data] + Datas(fates[1..])
  }

  lemma {:induction false} DatasSnoc(fates: seq<Fate>, f: Fate)
    ensures Datas(fates + [f]) == Datas(fates) + [f.data]
  {
    if fates == [] {
      assert [] + [f] == [f] && [f][1..] == [];
    } else {
      assert (fates + [f])[1..] == fates[1..] + [f];
      DatasSnoc(fates[1..], f);
    }
  }

  predicate TookOne(before: seq<Fate>, after: seq<Fate>, f: Fate) {
    after == before + [f] && f.data != []
  }

  /** What was taken and what waits is what waited before and what has come since. */
  lemma Account<T>(looked: seq<T>, taken: seq<T>, pending: seq<T>, before: seq<T>, pendingBefore: seq<T>, after: seq<T>)
    requires before <= after && before == looked + pendingBefore && after == (looked + taken) + pending
    ensures taken + pending == pendingBefore + after[|before|..]
  {
    var tail := after[|before|..];
    assert after == (looked + pendingBefore) + tail;
    assert (looked + taken) + pending == looked + (taken + pending);
    assert (looked + pendingBefore) + tail == looked + (pendingBefore + tail);
    SameTail(looked, taken + pending, pendingBefore + tail);
  }

  class RxPort {
    const maxpacket: nat
    var online: bool
    var disconnected: bool
    var rxDone: bool
    var queued: bool
    var length: nat
    var buf: seq<Byte>
    /** Every non-empty completion so far, and what became of those that were looked at. */
    ghost var received: seq<seq<Byte>>
    ghost var fates: seq<Fate>

    ghost function View(): Rx
      reads this
    {
      Rx(online, disconnected, rxDone, queued, length, buf)
    }

    /** A completed request nobody has looked at yet. */
    ghost function Pending(): seq<seq<Byte>>
      reads this
    {
      if rxDone && buf != [] then [buf] else []
    }

    /** Each non-empty completion is accounted for, in order: it has met its fate, or it is the one waiting. */
    ghost predicate Valid()
      reads this
    {
      && maxpacket > 0 && BULK % maxpacket == 0
      && length <= BULK && |buf| <= BULK
      && !(queued && rxDone)
      && received == Datas(fates) + Pending()
    }

    lemma Accounted()
      requires Valid()
      ensures received == Datas(fates) + Pending() && maxpacket > 0 && BULK % maxpacket == 0
    {
    }

    lemma NothingPending()
      requires Pending() == []
      ensures var p := View(); p.rxDone ==> p.buf == []
    {
    }

    constructor (maxpacket: nat)
      requires maxpacket > 0 && BULK % maxpacket == 0
      ensures Valid() && !queued && received == [] && fates == [] && !online
    {
      this.maxpacket := maxpacket;
      online, disconnected, rxDone, queued, length, buf := false, false, false, false, 0, [];
      received, fates := [], [];
    }

    /** acc_complete_out: the request is back with `data` in its buffer. */
    method Complete(data: seq<Byte>)
      requires Valid() && queued && |data| <= length
      modifies this
      ensures Valid() && rxDone && !queued && buf == data && fates == old(fates)
      ensures received == old(received) + (if data == [] then [] else [data])
      ensures View() == old(View()).(rxDone := true, queued := false, buf := data)
    {
      rxDone, queued, buf := true, false, data;
      received := received + (if data == [] then [] else [data]);
    }

    /** One event of the environment; events that cannot happen now are ignored. */
    method Do(e: Event)
      requires Valid()
      modifies this
      ensures Valid() && View() == Step(old(View()), e) && fates == old(fates) && old(received) <= received
      ensures old(!queued) ==> received == old(received)
    {
      match e
      case Data(data) => if queued && |data| <= length { Complete(data); }
      case SetOnline(v) => online := v;
      case SetDisconnected(v) => disconnected := v;
      case Signal =>
    }

    /** What happens while the reader does not look. */
    method Happen(es: seq<Event>)
      requires Valid()
      modifies this
      ensures Valid() && View() == All(old(View()), es) && fates == old(fates) && old(received) <= received
      ensures old(!queued) ==> !queued && received == old(received)
    {
      ghost var p := View();
      var i := 0;
      while i < |es|
        invariant i <= |es| && Valid() && fates == old(fates) && old(received) <= received
        invariant All(View(), es[i..]) == All(p, es)
        invariant old(!queued) ==> !queued && received == old(received)
      {
        assert es[i..][1..] == es[i + 1..];
        Do(es[i]);
        i := i + 1;
      }
      assert es[i..] == [];
    }

    /** wait_event_interruptible(read_wq, online), and what happens behind it. */
    method WaitOnline(es: seq<Event>) returns (ok: bool)
      requires Valid() && !queued
      modifies this
      ensures Valid() && !queued && fates == old(fates) && received == old(received)
      ensures OnlineWait(old(View()), es) == Wait(ok, View())
    {
      var i := 0;
      ghost var p := View();
      while !online
        invariant i <= |es| && Valid() && !queued && fates == old(fates) && received == old(received)
        invariant OnlineWait(View(), es[i..]) == OnlineWait(p, es)
        decreases |es| - i
      {
        if i == |es| || es[i].Signal? {
          return false;
        }
        assert es[i..][1..] == es[i + 1..];
        Do(es[i]);
        i := i + 1;
      }
      Happen(es[i..]);
      ok := true;
    }

    /** wait_event_interruptible(read_wq, rx_done) for a request that has just been queued, and what happens behind
        it. */
    method WaitDone(es: seq<Event>) returns (ok: bool)
      requires Valid() && queued
      modifies this
      ensures Valid() && fates == old(fates) && old(received) <= received
      ensures DoneWait(old(View()), es) == Wait(ok, View())
      ensures if ok then rxDone && !queued else queued
    {
      var i := 0;
      ghost var p := View();
      while !rxDone
        invariant i <= |es| && Valid() && fates == old(fates) && old(received) <= received
        invariant DoneWait(View(), es[i..]) == DoneWait(p, es)
        invariant queued || rxDone
        decreases |es| - i
      {
        if i == |es| || es[i].Signal? {
          return false;
        }
        assert es[i..][1..] == es[i + 1..];
        Do(es[i]);
        i := i + 1;
      }
      AllIdle(View(), es[i..]);
      Happen(es[i..]);
      ok := true;
    }

    /** usb_ep_dequeue: when the controller still has the request it gives it back, with what has arrived, before
        it returns. */
    method Dequeue(part: seq<Byte>)
      requires Valid()
      modifies this
      ensures Valid() && !queued && View() == Dequeued(old(View()), part)
      ensures fates == old(fates) && old(received) <= received
    {
      if queued {
        Complete(if |part| <= length then part else []);
      }
    }

    /** Record the fate of the completion that has just been taken (none, if it was empty). */
    ghost method Settle(f: Fate)
      requires maxpacket > 0 && BULK % maxpacket == 0 && length <= BULK && |buf| <= BULK
      requires !queued && !rxDone && f.data == buf
      requires received == Datas(fates) + (if buf == [] then [] else [buf])
      modifies this`fates
      ensures Valid() && fates == old(fates) + (if buf == [] then [] else [f])
    {
      if buf != [] {
        DatasSnoc(fates, f);
        fates := fates + [f];
      }
      assert Datas(fates) + [] == Datas(fates);
    }

    /** The label requeue_req, up to a completed request or an error. */
    method Requeue(dataLength: nat, c: Cycle, call: Read, ghost count: nat) returns (r: int)
      requires Valid() && !queued && !rxDone && dataLength <= BULK
      modifies this
      ensures Valid() && !queued && fates == old(fates) && old(received) <= received
      ensures Turn(old(View()), dataLength, c, call, count) ==
              if r < 0 then Returns(View(), r, []) else Copied(View(), count, call.copyOk)
      ensures r <= 0 && (r == 0 ==> rxDone && c != NOTHING)
      ensures old(online) && Staying(c.before) && Staying(c.waiting) && r == 0 ==> online
    {
      hide Datas;
      AllIdle(View(), c.before);
      if online && Staying(c.before) && Staying(c.waiting) { TurnOnline(View(), dataLength, c); }
      Happen(c.before);
      length := dataLength;
      rxDone := false;
      if !c.queueOk {
        return -EIO;
      }
      queued := true;
      var ok := WaitDone(c.waiting);
      if !ok {
        Dequeue(call.part);
        return -ERESTARTSYS;
      }
      r := 0;
    }

    /** The label copy_data; `again` is the jump back for a zero-length packet. */
    method CopyData(count: nat, copyOk: bool) returns (again: bool, r: int, out: seq<Byte>)
      requires Valid() && rxDone
      modifies this
      ensures Valid() && !queued && !rxDone && received == old(received)
      ensures Copied(old(View()), count, copyOk) == if again then Again(View()) else Returns(View(), r, out)
      ensures again || r < 0 ==> out == []
      ensures !again && r >= 0 ==> TookOne(old(fates), fates, Returned(old(buf), r)) && out == old(buf)[..r]
                                   && r == (if |old(buf)| < count then |old(buf)| else count) && |old(buf)| <= BULK
      ensures again || (r < 0 && old(buf) == []) ==> fates == old(fates)
      ensures !again && r < 0 ==> !old(online) || !copyOk
      ensures !again && r < 0 && old(buf) != [] ==> TookOne(old(fates), fates, Lost(old(buf)))
    {
      again, r, out := false, -EIO, [];
      rxDone := false;
      if !online {
        Settle(Lost(buf));
      } else if buf == [] {
        Settle(Lost(buf));
        again := true;
      } else if !copyOk {
        r := -EFAULT;
        Settle(Lost(buf));
      } else {
        r := if |buf| < count then |buf| else count;
        out := buf[..r];
        Settle(Returned(buf, r));
      }
    }

    /** acc_read from the test of rx_done on. */
    method Serve(dataLength: nat, call: Read, count: nat) returns (r: int, out: seq<Byte>)
      requires Valid() && !queued && dataLength <= BULK
      modifies this
      ensures Valid() && !queued && old(received) <= received
      ensures FromHere(old(View()), dataLength, call.cycles, call, count) == Returns(View(), r, out)
      ensures r >= 0 ==> exists d :: TookOne(old(fates), fates, Returned(d, r)) && |d| <= BULK
                                     && r == (if |d| < count then |d| else count) && out == d[..r]
      ensures r < 0 ==> out == [] && (fates == old(fates) || exists d :: TookOne(old(fates), fates, Lost(d)))
      ensures old(online) && StayingTurns(call.cycles) && call.copyOk && r < 0 ==> fates == old(fates)
    {
      hide Valid, RxRead.Turns, RxRead.Turn, Datas;
      ghost var p := View();
      var cs := call.cycles;
      out := [];
      while true
        invariant Valid() && !queued && fates == old(fates) && old(received) <= received
        invariant FromHere(View(), dataLength, cs, call, count) == FromHere(p, dataLength, call.cycles, call, count)
        invariant old(online) && StayingTurns(call.cycles) ==> online && StayingTurns(cs)
        decreases |cs|, if rxDone then 1 else 0
      {
        if !rxDone {
          TurnsFirst(View(), dataLength, cs, call, count);
          var c := if cs == [] then NOTHING else cs[0];
          r := Requeue(dataLength, c, call, count);
          if r < 0 {
            return r, [];
          }
          cs := cs[1..];
        }
        var again;
        again, r, out := CopyData(count, call.copyOk);
        if !again {
          return;
        }
      }
    }

    /** acc_read. */
    method AccRead(call: Read) returns (r: int, out: seq<Byte>)
      requires Valid() && !queued
      modifies this
      ensures Valid() && !queued && old(received) <= received
      ensures ReadEnd(old(View()), maxpacket, call) == Returns(View(), r, out)
      // a read takes at most one completion, and only a positive result returns one
      ensures r >= 0 ==> r == |out| && (exists d :: TookOne(old(fates), fates, Returned(d, r)) && out <= d
                                                   && (call.wanted >= BULK ==> out == d))
      ensures r < 0 ==> out == [] && (fates == old(fates) || exists d :: TookOne(old(fates), fates, Lost(d)))
      // zero-length packets are never reported
      ensures call.wanted > 0 ==> r != 0
      // nothing is lost while the function stays online and copying works
      ensures Calm(call) && r < 0 ==> fates == old(fates)
    {
      hide RxRead.FromHere, RxRead.All, RxRead.OnlineWait, Datas, Valid, RoundUp;
      Accounted();
      out := [];
      Happen(call.before);
      if disconnected {
        return -ENODEV, [];
      }
      var count := if call.wanted > BULK then BULK else call.wanted;
      ghost var q := View();
      var ok := WaitOnline(call.opening);
      if !ok {
        return -ERESTARTSYS, [];
      }
      RoundUpFits(count, maxpacket);
      if Staying(call.opening) { OnlineKept(q, call.opening); }
      r, out := Serve(RoundUp(count, maxpacket), call, count);
    }

    /** A read with a full buffer, whatever has happened before it: it returns the next message whole, or takes
        nothing, or loses one; it loses one only if the function goes offline during the read or copying fails. */
    method FullRead(call: Read) returns (r: int, out: seq<Byte>, ghost lost: seq<seq<Byte>>)
      requires Valid() && !queued && call.wanted >= BULK
      modifies this
      ensures Valid() && !queued && old(received) <= received
      ensures ReadEnd(old(View()), maxpacket, call) == Returns(View(), r, out)
      ensures r != 0 && (r < 0 ==> out == []) && (r > 0 ==> r == |out| && lost == [])
      ensures Datas(fates) == Datas(old(fates)) + (if r > 0 then [out] else lost)
      ensures |lost| <= 1 && (Calm(call) ==> lost == [])
    {
      r, out := AccRead(call);
      lost := [];
      if r >= 0 {
        DatasSnoc(old(fates), Returned(out, r));
      } else if fates != old(fates) {
        ghost var d :| TookOne(old(fates), fates, Lost(d));
        DatasSnoc(old(fates), Lost(d));
        lost := [d];
      }
    }

    /** Any number of reads, interrupted or not, during which the function stays online, whatever it does in between:
        what they return, followed by a completion still waiting, is exactly what was received, each once, in order
        and whole. */
    method ReadMany(calls: seq<Read>) returns (outs: seq<seq<Byte>>)
      requires Valid() && !queued
      requires forall i :: 0 <= i < |calls| ==> Calm(calls[i])
      modifies this
      ensures Valid() && !queued && old(received) <= received
      ensures outs + Pending() == old(Pending()) + received[|old(received)|..]
      ensures forall i :: 0 <= i < |outs| ==> outs[i] != []
      ensures outs == Collected(old(View()), maxpacket, calls)
      // so if nothing waits and the calls bring messages, these are what they return
      ensures forall ds :: Ready(old(View())) && old(Pending()) == [] && Feeds(calls, ds) ==> outs == ds
    {
      hide Valid, View, Pending, Datas, RxRead.ReadEnd, Calm, RxRead.Collected, RxRead.Feeds, Ready;
      Accounted();
      outs := [];
      var i := 0;
      ghost var p := View();
      assert calls[0..] == calls;
      CollectedNone(p, maxpacket);
      forall ds | Ready(p) && Pending() == [] && Feeds(calls, ds) ensures Collected(p, maxpacket, calls) == ds {
        NothingPending();
        ReadsDeliver(p, maxpacket, calls, ds);
      }
      while i < |calls|
        invariant i <= |calls| && Valid() && !queued && old(received) <= received
        invariant Datas(fates) == Datas(old(fates)) + outs
        invariant forall k :: 0 <= k < |outs| ==> outs[k] != []
        invariant Collected(p, maxpacket, calls) == outs + Collected(View(), maxpacket, calls[i..])
      {
        CalmFull(calls[i]);
        assert calls[i..][1..] == calls[i + 1..];
        CollectedFirst(View(), maxpacket, calls[i..]);
        var r, out, lost := FullRead(calls[i]);
        if r > 0 {
          outs := outs + [out];
        }
        i := i + 1;
      }
      Accounted();
      assert calls[i..] == [] && outs + [] == outs;
      CollectedNone(View(), maxpacket);
      Account(Datas(old(fates)), outs, Pending(), old(received), old(Pending()), received);
    }
  }

  lemma CollectedNone(p: Rx, maxpacket: nat)
    requires maxpacket > 0
    ensures Collected(p, maxpacket, []) == []
  {
  }

  lemma CollectedFirst(p: Rx, maxpacket: nat, calls: seq<Read>)
    requires maxpacket > 0 && calls != []
    ensures var e := ReadEnd(p, maxpacket, calls[0]);
            Collected(p, maxpacket, calls) ==
            (if e.Returns? && e.r > 0 then [e.out] else []) + Collected(e.p, maxpacket, calls[1..])
  {
    hide ReadEnd;
  }

  lemma CalmFull(call: Read)
    requires Calm(call)
    ensures call.wanted >= BULK
  {
  }

  lemma OnlineKept(p: Rx, es: seq<Event>)
    requires Staying(es) && OnlineWait(p, es).ok
    ensures OnlineWait(p, es).p.online
  {
    OnlineWaitExact(p, es);
    OnlineLast(p, es, true);
  }

  lemma TurnOnline(p: Rx, length: nat, c: Cycle)
    requires p.online && Staying(c.before) && Staying(c.waiting)
    ensures DoneWait(All(p, c.before).(length := length, rxDone := false, queued := true), c.waiting).p.online
  {
    OnlineLast(p, c.before, true);
    DoneWaitOnline(All(p, c.before).(length := length, rxDone := false, queued := true), c.waiting);
  }
}
