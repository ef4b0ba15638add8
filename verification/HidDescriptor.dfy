/** How a HID device gets its report descriptor: what a registration puts on the list, which requests are accepted, and
    that the worker takes the device with exactly the descriptor that was sent, however it was cut. */
module HidDescriptor {
  import opened Sequences
  import L = KernelList
  import opened HidDevices

  // ----- which device a request is about

  /** The first device on `list` with this id is at `k`. */
  predicate FirstWith(mem: map<nat, Hid>, list: seq<nat>, id: int, k: nat) {
    && k < |list| && list[k] in mem && mem[list[k]].id == id
    && forall i :: 0 <= i < k && list[i] in mem ==> mem[list[i]].id != id
  }

  predicate NoneWith(mem: map<nat, Hid>, list: seq<nat>, id: int) {
    forall i :: 0 <= i < |list| && list[i] in mem ==> mem[list[i]].id != id
  }

  lemma Found(mem: map<nat, Hid>, list: seq<nat>, id: int)
    ensures var j := Find(mem, list, id);
            && (NoneWith(mem, list, id) <==> j == |list|)
            && forall k: nat :: FirstWith(mem, list, id, k) <==> k == j < |list|
  {
  }

  /** UNREGISTER_HID, and REGISTER_HID before it looks for memory: the first live device with the id, or else the first
      that waits, goes to the front of the dead list. */
  ghost predicate Retired(s: State, id: int, t: State) {
    && (forall k: nat :: FirstWith(s.mem, s.live, id, k) ==>
          t == s.(live := s.live[..k] + s.live[k + 1..], dead := [s.live[k]] + s.dead))
    && (NoneWith(s.mem, s.live, id) ==> forall k: nat :: FirstWith(s.mem, s.incoming, id, k) ==>
          t == s.(incoming := s.incoming[..k] + s.incoming[k + 1..], dead := [s.incoming[k]] + s.dead))
    && (NoneWith(s.mem, s.live, id) && NoneWith(s.mem, s.incoming, id) ==> t == s)
  }

  lemma RetireExact(s: State, id: int)
    ensures Retired(s, id, Retire(s, id))
  {
    hide FirstWith, NoneWith, Find;
    Found(s.mem, s.live, id);
    Found(s.mem, s.incoming, id);
  }

  lemma UnregisterExact(s: State, id: int)
    requires Inv(s)
    ensures var t, known := Next(s, Unregister(id)), !(NoneWith(s.mem, s.live, id) && NoneWith(s.mem, s.incoming, id));
            Retired(s, id, t.(scheduled := s.scheduled)) && t.scheduled == (s.scheduled || known)
  {
    Allocated(s, s.live);
    Allocated(s, s.incoming);
    RetireExact(s, id);
    RetireMoves(s, id, 0);
    var k, j := Find(s.mem, s.live, id), Find(s.mem, s.incoming, id);
    assert k < |s.live| ==> !NoneWith(s.mem, s.live, id);
    assert j < |s.incoming| ==> !NoneWith(s.mem, s.incoming, id);
  }

  lemma Allocated(s: State, list: seq<nat>)
    requires Inv(s) && (list == s.live || list == s.incoming)
    ensures forall i :: 0 <= i < |list| ==> list[i] in s.mem
  {
    forall i | 0 <= i < |list| ensures list[i] in s.mem {
      CountAt(list, i);
      assert Sound(s, list[i]);
    }
  }

  /** SET_HID_REPORT_DESC is accepted exactly if the first device that waits with the id has received as much as the
      request says and has room for what it announces; nothing else is changed, and nothing at all otherwise. */
  lemma RequestExact(s: State, id: int, at: nat, n: nat)
    requires Inv(s) && s.ep0.NoTransfer?
    ensures var t := Next(s, DescRequest(id, at, n));
            && (forall k: nat :: FirstWith(s.mem, s.incoming, id, k) ==>
                  var u := s.incoming[k];
                  t == if at == s.mem[u].offset && at + n <= s.mem[u].declared then s.(ep0 := DescData(u, n)) else s)
            && (NoneWith(s.mem, s.incoming, id) ==> t == s)
  {
  }

  /** SEND_HID_EVENT finds the first live device with the id. */
  lemma InputExact(s: State, id: int)
    requires Inv(s) && s.ep0.NoTransfer?
    ensures var t := Next(s, InputRequest(id));
            && (forall k: nat :: FirstWith(s.mem, s.live, id, k) ==> t == s.(ep0 := HidEvent(s.live[k])))
            && (NoneWith(s.mem, s.live, id) ==> t == s)
  {
  }

  /** A control transfer that fails, or that carries an input report, changes nothing but that it is over. */
  lemma TransferOver(s: State, e: Event)
    requires Inv(s) && Enabled(s, e) && (e.DescArrives? || e.InputArrives? || e.TransferFails?)
    ensures var t := Next(s, e); t.ep0 == NoTransfer && (!e.DescArrives? ==> t == s.(ep0 := NoTransfer))
  {
  }

  // ----- a device that waits for its descriptor

  /** Device `u` is the first that waits with this id; it has declared `length` bytes and received `got`. */
  ghost predicate Waits(s: State, u: nat, id: int, length: nat, got: seq<Byte>) {
    && (exists k: nat :: FirstWith(s.mem, s.incoming, id, k) && s.incoming[k] == u)
    && var h := s.mem[u];
    && h.declared == length == |h.desc| && h.offset == |got| <= length && h.desc[..|got|] == got && !h.registered
  }

  /** After an accepted REGISTER_HID exactly one new device waits, in front, with that id and that length and nothing
      received; the lists are otherwise as after the retirement of its predecessor, and no other device is changed. */
  lemma RegisterGives(s: State, id: int, length: nat)
    requires Inv(s) && length > 0
    ensures var t, u := Next(s, Register(id, length, true)), s.created;
            && t.created == u + 1 && t.scheduled && u !in s.mem && u in t.mem
            && Waits(t, u, id, length, []) && t.mem[u].accepted == []
            && exists r: State :: Retired(s, id, r) && t.incoming == [u] + r.incoming
                                  && s == r.(live := s.live, incoming := s.incoming, dead := s.dead)
                                  && t == r.(mem := s.mem[u := t.mem[u]], created := u + 1,
                                             incoming := t.incoming, scheduled := true)
  {
    var r, t, u := Retire(s, id), Next(s, Register(id, length, true)), s.created;
    RetireExact(s, id);
    RetireMoves(s, id, 0);
    assert Sound(s, u);
    assert t.incoming[0] == u && FirstWith(t.mem, t.incoming, id, 0);
    assert t.mem[u].desc[..0] == [];
    assert s == r.(live := s.live, incoming := s.incoming, dead := s.dead);
  }

  /** A REGISTER_HID without a length does nothing; one without memory still retires the predecessor. */
  lemma RegisterFails(s: State, id: int, length: int, memoryLeft: bool)
    requires Inv(s) && (length <= 0 || !memoryLeft)
    ensures var t := Next(s, Register(id, length, memoryLeft)); if length <= 0 then t == s else Retired(s, id, t)
  {
    RetireExact(s, id);
  }

  // ----- and gets it

  /** Steps that do not take a device that still waits for bytes out of the list of those that do. */
  predicate LeavesWaiting(e: Event, id: int) {
    match e
    case Register(other, _, _) => other != id
    case Unregister(other) => other != id
    case KillAll => false
    case _ => true
  }

  /** What a step adds to what device `u` has received. */
  function Brings(s: State, e: Event, u: nat): seq<Byte> {
    if e.DescArrives? && s.ep0.DescData? && s.ep0.dev == u then e.data else []
  }

  /** Where `u` is on its list. */
  lemma Place(s: State, u: nat, id: int, length: nat, got: seq<Byte>) returns (k: nat)
    requires Inv(s) && Waits(s, u, id, length, got)
    ensures FirstWith(s.mem, s.incoming, id, k) && s.incoming[k] == u
    ensures Count(s.incoming, u) == 1 && Count(Registering(s), u) == 0 && Count(Destroying(s), u) == 0 && u < s.created
  {
    k :| FirstWith(s.mem, s.incoming, id, k) && s.incoming[k] == u;
    CountAt(s.incoming, k);
    assert Sound(s, u);
  }

  lemma WaitsRetire(s: State, other: int, u: nat, id: int, length: nat, got: seq<Byte>)
    requires Inv(s) && Waits(s, u, id, length, got) && other != id
    ensures Waits(Retire(s, other), u, id, length, got)
  {
    hide Inv;
    var k := Place(s, u, id, length, got);
    var j, r := Find(s.mem, s.incoming, other), Retire(s, other);
    if r.incoming != s.incoming {
      assert j != k && r.incoming == s.incoming[..j] + s.incoming[j + 1..];
      assert FirstWith(r.mem, r.incoming, id, if j < k then k - 1 else k);
    } else {
      assert FirstWith(r.mem, r.incoming, id, k);
    }
  }

  lemma WaitsRegister(s: State, e: Event, u: nat, id: int, length: nat, got: seq<Byte>)
    requires Inv(s) && e.Register? && e.id != id && Waits(s, u, id, length, got)
    ensures Waits(Next(s, e), u, id, length, got)
  {
    WaitsRetire(s, e.id, u, id, length, got);
    RetireInv(s, e.id);
    RetireMoves(s, e.id, 0);
    var r, t := Retire(s, e.id), Next(s, e);
    var k := Place(r, u, id, length, got);
    if e.length > 0 && e.memoryLeft {
      assert Sound(s, s.created);
      assert t.incoming == [s.created] + r.incoming;
      assert FirstWith(t.mem, t.incoming, id, k + 1);
    }
  }

  lemma WaitsData(s: State, e: Event, u: nat, id: int, length: nat, got: seq<Byte>)
    requires Inv(s) && Enabled(s, e) && e.DescArrives? && Waits(s, u, id, length, got)
    ensures Waits(Next(s, e), u, id, length, got + Brings(s, e, u))
  {
    var k := Place(s, u, id, length, got);
    var t, d := Next(s, e), s.ep0.dev;
    assert Sound(s, d);
    assert forall v :: v in s.mem ==> v in t.mem && t.mem[v].id == s.mem[v].id;
    assert FirstWith(t.mem, t.incoming, id, k);
    if d == u {
      var h, h' := s.mem[u], t.mem[u];
      assert h'.desc[..h'.offset] == h.desc[..h.offset] + e.data;
    } else {
      assert got + [] == got;
    }
  }

  lemma {:induction false} SelectFirst(mem: map<nat, Hid>, list: seq<nat>, p: nat -> bool, id: int, k: nat) returns (j: nat)
    requires FirstWith(mem, list, id, k) && p(list[k])
    ensures FirstWith(mem, L.Select(list, p), id, j) && L.Select(list, p)[j] == list[k]
  {
    var tail := L.Select(list[1..], p);
    if k == 0 {
      j := 0;
    } else {
      assert FirstWith(mem, list[1..], id, k - 1) by {
        assert forall i :: 0 <= i < |list| - 1 ==> list[1..][i] == list[i + 1];
      }
      j := SelectFirst(mem, list[1..], p, id, k - 1);
      if p(list[0]) {
        assert L.Select(list, p) == [list[0]] + tail;
        j := j + 1;
      } else {
        assert L.Select(list, p) == tail;
      }
    }
  }

  lemma WaitsWork(s: State, u: nat, id: int, length: nat, got: seq<Byte>)
    requires Inv(s) && Enabled(s, WorkStart) && Waits(s, u, id, length, got) && |got| < length
    ensures Waits(Next(s, WorkStart), u, id, length, got)
  {
    var k := Place(s, u, id, length, got);
    var j := SelectFirst(s.mem, s.incoming, Unready(s.mem), id, k);
    assert FirstWith(s.mem, Next(s, WorkStart).incoming, id, j);
  }

  /** The worker's own steps are about devices that no longer wait. */
  lemma WaitsOther(s: State, e: Event, u: nat, id: int, length: nat, got: seq<Byte>)
    requires Inv(s) && Enabled(s, e) && (e.WorkRegister? || e.WorkReap?) && Waits(s, u, id, length, got)
    ensures Waits(Next(s, e), u, id, length, got)
  {
    var v := if e.WorkReap? then s.worker.toDestroy[0] else s.worker.toRegister[0];
    var k := Place(s, u, id, length, got);
    var t := Next(s, e);
    assert v != u;
    assert forall w :: w != v ==> (w in t.mem <==> w in s.mem) && (w in t.mem ==> t.mem[w] == s.mem[w]);
    forall i | 0 <= i < |s.incoming| ensures s.incoming[i] != v {
      CountAt(s.incoming, i);
      assert Sound(s, v);
    }
    assert FirstWith(t.mem, t.incoming, id, k);
  }

  lemma WaitsQuiet(s: State, e: Event, u: nat, id: int, length: nat, got: seq<Byte>)
    requires Inv(s) && Enabled(s, e) && Waits(s, u, id, length, got)
    requires Next(s, e).mem == s.mem && Next(s, e).incoming == s.incoming
    ensures Waits(Next(s, e), u, id, length, got)
  {
  }

  /** While its descriptor is not complete, only bytes meant for it change anything for a device that waits, and
      they come behind those received before. */
  lemma WaitsStep(s: State, e: Event, u: nat, id: int, length: nat, got: seq<Byte>)
    requires Inv(s) && Enabled(s, e) && Waits(s, u, id, length, got) && LeavesWaiting(e, id) && |got| < length
    ensures Waits(Next(s, e), u, id, length, got + Brings(s, e, u))
  {
    assert got + [] == got;
    match e
    case Register(_, _, _) => WaitsRegister(s, e, u, id, length, got);
    case Unregister(other) => if Holds(s, other) { WaitsRetire(s, other, u, id, length, got); }
    case DescArrives(data) => WaitsData(s, e, u, id, length, got);
    case WorkStart => WaitsWork(s, u, id, length, got);
    case WorkRegister(_) => WaitsOther(s, e, u, id, length, got);
    case WorkReap => WaitsOther(s, e, u, id, length, got);
    case _ => WaitsQuiet(s, e, u, id, length, got);
  }

  /** What device `u` receives in a run. */
  function Received(s: State, es: seq<Event>, u: nat): seq<Byte>
    requires Inv(s) && CanRun(s, es)
    decreases |es|
  {
    if es == [] then [] else
      NextInv(s, es[0]);
      Brings(s, es[0], u) + Received(Next(s, es[0]), es[1..], u)
  }

  /** So over every run, whatever else happens in it, as long as the worker finds the descriptor incomplete. */
  lemma {:induction false} WaitsRun(s: State, es: seq<Event>, u: nat, id: int, length: nat, got: seq<Byte>)
    requires Inv(s) && CanRun(s, es) && Waits(s, u, id, length, got) && |got + Received(s, es, u)| < length
    requires forall i :: 0 <= i < |es| ==> LeavesWaiting(es[i], id)
    ensures Waits(Exec(s, es), u, id, length, got + Received(s, es, u))
    decreases |es|
  {
    hide Inv, Waits, Enabled, Next;
    if es == [] {
      assert got + [] == got;
    } else {
      var b := Brings(s, es[0], u);
      NextInv(s, es[0]);
      var later := Received(Next(s, es[0]), es[1..], u);
      assert (got + b) + later == got + (b + later);
      WaitsStep(s, es[0], u, id, length, got);
      WaitsRun(Next(s, es[0]), es[1..], u, id, length, got + b);
    }
  }

  /** And when it is complete, the worker takes the device with exactly what was received. */
  lemma WorkTakes(s: State, u: nat, id: int, length: nat, d: seq<Byte>)
    requires Inv(s) && Enabled(s, WorkStart) && Waits(s, u, id, length, d) && |d| == length
    ensures var t := Next(s, WorkStart);
            && Count(Registering(t), u) == 1 && u in t.mem && t.mem[u].id == id && t.mem[u].desc == d && !t.mem[u].registered
  {
    var k := Place(s, u, id, length, d);
    CountSelect(s.incoming, Ready(s.mem), u);
    CountReversed(L.Select(s.incoming, Ready(s.mem)), u);
    assert s.mem[u].desc[..length] == d;
  }

  /** The requests that send the pieces of a descriptor of which `at` bytes have been sent, each answered whole. */
  function Feed(id: int, at: nat, pieces: seq<seq<Byte>>): seq<Event>
    decreases |pieces|
  {
    if pieces == [] then []
    else [DescRequest(id, at, |pieces[0]|)] + ([DescArrives(pieces[0])] + Feed(id, at + |pieces[0]|, pieces[1..]))
  }

  /** However a descriptor is cut, each of its requests is accepted, and all of it arrives. */
  lemma {:induction false} FeedRun(s: State, u: nat, id: int, length: nat, got: seq<Byte>, pieces: seq<seq<Byte>>)
    requires Inv(s) && s.ep0.NoTransfer? && s.worker.Idle? && Waits(s, u, id, length, got) && s.scheduled
    requires |got| + |Flatten(pieces)| == length
    ensures CanRun(s, Feed(id, |got|, pieces))
    ensures var t := Exec(s, Feed(id, |got|, pieces));
            Waits(t, u, id, length, got + Flatten(pieces)) && t.ep0.NoTransfer? && t.worker.Idle? && t.scheduled
    decreases |pieces|
  {
    hide Inv, FirstWith, Find;
    if pieces == [] {
      assert got + [] == got;
    } else {
      var p, es := pieces[0], Feed(id, |got|, pieces);
      var request, data := DescRequest(id, |got|, |p|), DescArrives(p);
      var later := Feed(id, |got| + |p|, pieces[1..]);
      assert es[1..] == [data] + later && es[1..][1..] == later;
      var k := Place(s, u, id, length, got);
      RequestExact(s, id, |got|, |p|);
      NextInv(s, request);
      var r := Next(s, request);
      assert r == s.(ep0 := DescData(u, |p|));
      WaitsQuiet(s, request, u, id, length, got);
      NextInv(r, data);
      WaitsData(r, data, u, id, length, got);
      FlattenFirst(pieces);
      assert got + Flatten(pieces) == (got + p) + Flatten(pieces[1..]);
      FeedRun(Next(r, data), u, id, length, got + p, pieces[1..]);
      assert CanRun(r, es[1..]) && CanRun(s, es);
      assert Exec(s, es) == Exec(r, es[1..]) == Exec(Next(r, data), later);
    }
  }

  lemma FlattenFirst(pieces: seq<seq<Byte>>)
    requires pieces != []
    ensures Flatten(pieces) == pieces[0] + Flatten(pieces[1..])
  {
  }

  /** From the registration to the worker: for every descriptor and every way of cutting it, REGISTER_HID with its
      length, the requests with its pieces, and one start of the worker give the worker a new device with that id and
      exactly that descriptor. */
  lemma Assembled(s: State, id: int, pieces: seq<seq<Byte>>)
    requires Inv(s) && s.ep0.NoTransfer? && s.worker.Idle? && Flatten(pieces) != []
    ensures var d := Flatten(pieces);
            var es := [Register(id, |d|, true)] + (Feed(id, 0, pieces) + [WorkStart]);
            && CanRun(s, es)
            && var t, u := Exec(s, es), s.created;
               u !in s.mem && Count(Registering(t), u) == 1 && u in t.mem
               && t.mem[u].id == id && t.mem[u].desc == d && !t.mem[u].registered
  {
    hide Inv, Waits;
    var d, feed := Flatten(pieces), Feed(id, 0, pieces);
    var reg, u := Register(id, |d|, true), s.created;
    var es := [reg] + (feed + [WorkStart]);
    RegisterGives(s, id, |d|);
    NextInv(s, reg);
    var r := Next(s, reg);
    FeedRun(r, u, id, |d|, [], pieces);
    assert [] + d == d;
    var t := Exec(r, feed);
    WorkTakes(t, u, id, |d|, d);
    Snoc(r, feed, WorkStart, Next(t, WorkStart));
    assert es[1..] == feed + [WorkStart];
  }

  /** The same for every run in which the id is not registered or unregistered again and the lists are not killed:
      whatever happens between the requests, the piece that completes the descriptor schedules the worker, which takes
      the device with exactly the bytes sent for it, in the order in which they came. */
  lemma AssembledAmong(s: State, id: int, length: nat, es: seq<Event>, data: seq<Byte>)
    requires Inv(s) && length > 0
    requires var r := (NextInv(s, Register(id, length, true)); Next(s, Register(id, length, true)));
             && CanRun(r, es) && (forall i :: 0 <= i < |es| ==> LeavesWaiting(es[i], id))
             && var t, got := Exec(r, es), Received(r, es, s.created);
                && Enabled(t, DescArrives(data)) && t.ep0.dev == s.created
                && |got| < length == |got + data|
    ensures var r := (NextInv(s, Register(id, length, true)); Next(s, Register(id, length, true)));
            var t, u, d := Exec(r, es), s.created, Received(r, es, s.created) + data;
            && Waits(Next(t, DescArrives(data)), u, id, length, d)
            && Next(t, DescArrives(data)).scheduled
            && (t.worker.Idle? ==>
                  var x := (NextInv(t, DescArrives(data)); Next(Next(t, DescArrives(data)), WorkStart));
                  Count(Registering(x), u) == 1 && u in x.mem && x.mem[u].id == id && x.mem[u].desc == d)
  {
    hide Inv, Waits;
    var u, e := s.created, DescArrives(data);
    RegisterGives(s, id, length);
    NextInv(s, Register(id, length, true));
    var r := Next(s, Register(id, length, true));
    var t, got := Exec(r, es), Received(r, es, u);
    assert [] + got == got;
    WaitsRun(r, es, u, id, length, []);
    WaitsData(t, e, u, id, length, got);
    NextInv(t, e);
    WaitsScheduled(t, e, u, id, length, got);
    if t.worker.Idle? { WorkTakes(Next(t, e), u, id, length, got + data); }
  }

  lemma WaitsScheduled(s: State, e: Event, u: nat, id: int, length: nat, got: seq<Byte>)
    requires Inv(s) && Enabled(s, e) && e.DescArrives? && s.ep0.dev == u
    requires Waits(s, u, id, length, got) && |got + e.data| == length
    ensures Next(s, e).scheduled
  {
  }
}
