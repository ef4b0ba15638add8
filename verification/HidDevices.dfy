/** HID devices of the accessory driver: how a device moves between the `new`, `live` and `dead`
    lists and the two lists the worker keeps for itself, and how its report descriptor is assembled.
    Every locked section of the driver is one step; the worker is split where it drops the lock. */
module HidDevices {
  import opened Sequences
  import L = KernelList

  /** struct acc_hid_dev.  `accepted` records the data stages copied into `desc`, oldest first. */
  datatype Hid = Hid(id: int, declared: nat, desc: seq<Byte>, offset: nat, registered: bool,
                     accepted: seq<seq<Byte>>)

  /** The one control transfer ep0 can have outstanding. */
  datatype Transfer = NoTransfer | DescData(dev: nat, room: nat) | HidEvent(dev: nat)

  /** acc_hid_work: `Busy` holds the worker's local new_list and dead_list. */
  datatype Worker = Idle | Busy(toRegister: seq<nat>, toDestroy: seq<nat>)

  /** Devices are named by the order of their allocation; `mem` holds the allocated ones. */
  datatype State = State(mem: map<nat, Hid>, created: nat,
                         incoming: seq<nat>, live: seq<nat>, dead: seq<nat>,
                         worker: Worker, scheduled: bool, ep0: Transfer, freed: seq<nat>)

  datatype Event =
    | Register(id: int, length: int, memoryLeft: bool)
    | Unregister(id: int)
    | DescRequest(id: int, at: nat, size: nat)
    | DescArrives(data: seq<Byte>)
    | InputRequest(id: int)
    | InputArrives
    | TransferFails
    | KillAll
    | WorkStart
    | WorkRegister(ok: bool)
    | WorkReap
    | WorkEnd
    | WorkCancel

  const INIT := State(map[], 0, [], [], [], Idle, false, NoTransfer, [])

  // ----- pieces of the steps

  /** acc_hid_get: position of the first device with this id, or the length of the list. */
  function Find(mem: map<nat, Hid>, list: seq<nat>, id: int): (k: nat)
    ensures k <= |list|
    ensures k < |list| ==> list[k] in mem && mem[list[k]].id == id
    ensures forall i :: 0 <= i < k && list[i] in mem ==> mem[list[i]].id != id
  {
    if list == [] then 0
    else if list[0] in mem && mem[list[0]].id == id then 0
    else
      var k := Find(mem, list[1..], id);
      assert k < |list[1..]| ==> list[1..][k] == list[k + 1];
      assert forall i :: 0 < i < k + 1 ==> list[i] == list[1..][i - 1];
      k + 1
  }

  predicate Holds(s: State, id: int) {
    Find(s.mem, s.live, id) < |s.live| || Find(s.mem, s.incoming, id) < |s.incoming|
  }

  /** The device with this id, looked up in the live list first, goes to the front of the dead list. */
  function Retire(s: State, id: int): State {
    var k := Find(s.mem, s.live, id);
    var j := Find(s.mem, s.incoming, id);
    if k < |s.live| then s.(live := Without(s.live, k), dead := [s.live[k]] + s.dead)
    else if j < |s.incoming| then s.(incoming := Without(s.incoming, j), dead := [s.incoming[j]] + s.dead)
    else s
  }

  predicate Complete(h: Hid) { h.offset == h.declared }

  predicate IsComplete(mem: map<nat, Hid>, u: nat) { u in mem && Complete(mem[u]) }

  function Ready(mem: map<nat, Hid>): nat -> bool { (u: nat) => IsComplete(mem, u) }

  function Unready(mem: map<nat, Hid>): nat -> bool { (u: nat) => !IsComplete(mem, u) }

  /** Zeroed memory for a descriptor of the declared length. */
  function NewHid(id: int, length: nat): Hid {
    Hid(id, length, seq(length, _ => 0), 0, false, [])
  }

  /** memcpy of one data stage behind what has been received so far. */
  function Append(h: Hid, data: seq<Byte>): Hid
    requires h.offset + |data| <= |h.desc|
  {
    h.(desc := h.desc[..h.offset] + data + h.desc[h.offset + |data|..],
       offset := h.offset + |data|, accepted := h.accepted + [data])
  }

  // ----- the steps

  /** What can happen in `s`.  Control transfers come one at a time and deliver no more than was asked
      for; a device whose transfer is outstanding is not freed before the transfer is over. */
  predicate Enabled(s: State, e: Event) {
    match e
    case DescRequest(_, _, _) => s.ep0.NoTransfer?
    case InputRequest(_) => s.ep0.NoTransfer?
    case DescArrives(data) => s.ep0.DescData? && |data| <= s.ep0.room
    case InputArrives => s.ep0.HidEvent?
    case WorkStart => s.scheduled && s.worker.Idle?
    case WorkRegister(ok) =>
      s.worker.Busy? && s.worker.toRegister != [] && (ok || Untouched(s, s.worker.toRegister[0]))
    case WorkReap => s.worker.Busy? && s.worker.toRegister == [] && s.worker.toDestroy != [] && Untouched(s, s.worker.toDestroy[0])
    case WorkEnd => s.worker.Busy? && s.worker.toRegister == [] && s.worker.toDestroy == []
    case WorkCancel => s.worker.Idle?
    case _ => true
  }

  predicate Untouched(s: State, u: nat) {
    s.ep0.NoTransfer? || s.ep0.dev != u
  }

  /** Where an accepted SET_HID_REPORT_DESC request finds its device. */
  predicate Accepts(s: State, id: int, at: nat, length: nat) {
    var k := Find(s.mem, s.incoming, id);
    && k < |s.incoming|
    && at == s.mem[s.incoming[k]].offset
    && at + length <= s.mem[s.incoming[k]].declared
  }

  function Next(s: State, e: Event): State
    requires Inv(s) && Enabled(s, e)
  {
    match e
    case Register(id, length, memoryLeft) =>
      if length <= 0 then s
      else
        var r := Retire(s, id);
        if !memoryLeft then r
        else r.(mem := r.mem[s.created := NewHid(id, length)], created := s.created + 1,
                incoming := [s.created] + r.incoming, scheduled := true)
    case Unregister(id) =>
      if Holds(s, id) then Retire(s, id).(scheduled := true) else s
    case DescRequest(id, at, length) =>
      if Accepts(s, id, at, length)
      then s.(ep0 := DescData(s.incoming[Find(s.mem, s.incoming, id)], length))
      else s
    case DescArrives(data) =>
      assert Sound(s, s.ep0.dev);
      var h := Append(s.mem[s.ep0.dev], data);
      s.(mem := s.mem[s.ep0.dev := h], ep0 := NoTransfer, scheduled := s.scheduled || Complete(h))
    case InputRequest(id) =>
      var k := Find(s.mem, s.live, id);
      if k < |s.live| then s.(ep0 := HidEvent(s.live[k])) else s
    case InputArrives => s.(ep0 := NoTransfer)
    case TransferFails => s.(ep0 := NoTransfer)
    case KillAll =>
      s.(live := [], incoming := [], dead := L.Reversed(s.incoming) + (L.Reversed(s.live) + s.dead), scheduled := true)
    case WorkStart =>
      s.(scheduled := false, dead := [],
         incoming := L.Select(s.incoming, Unready(s.mem)),
         worker := Busy(L.Reversed(L.Select(s.incoming, Ready(s.mem))), s.dead))
    case WorkRegister(ok) =>
      var u := s.worker.toRegister[0];
      assert Sound(s, u);
      if ok then
        s.(mem := s.mem[u := s.mem[u].(registered := true)], live := [u] + s.live,
           worker := s.worker.(toRegister := s.worker.toRegister[1..]))
      else Freed(s, u).(worker := s.worker.(toRegister := s.worker.toRegister[1..]))
    case WorkReap =>
      Freed(s, s.worker.toDestroy[0]).(worker := s.worker.(toDestroy := s.worker.toDestroy[1..]))
    case WorkEnd => s.(worker := Idle)
    case WorkCancel => s.(scheduled := false)
  }

  /** acc_hid_delete. */
  function Freed(s: State, u: nat): State {
    s.(mem := s.mem - {u}, freed := s.freed + [u])
  }

  // ----- the invariant

  function Registering(s: State): seq<nat> { if s.worker.Busy? then s.worker.toRegister else [] }

  function Destroying(s: State): seq<nat> { if s.worker.Busy? then s.worker.toDestroy else [] }

  /** How many places hold device `u`: the five lists, and the log of freed devices. */
  function Places(s: State, u: nat): nat {
    Count(s.incoming, u) + Count(s.live, u) + Count(s.dead, u)
    + Count(Registering(s), u) + Count(Destroying(s), u) + Count(s.freed, u)
  }

  ghost predicate GoodDescriptor(h: Hid) {
    && h.declared > 0 && |h.desc| == h.declared && h.offset <= h.declared
    && h.desc[..h.offset] == Flatten(h.accepted)
  }

  /** The invariant for one device: once created it is in exactly one place, it is allocated until it is
      freed, and what its place promises about its descriptor and registration holds. */
  ghost predicate Sound(s: State, u: nat) {
    && Places(s, u) == (if u < s.created then 1 else 0)
    && (u in s.mem <==> u < s.created && Count(s.freed, u) == 0)
    && (u in s.mem ==>
          && GoodDescriptor(s.mem[u])
          && (Count(s.incoming, u) > 0 ==> !s.mem[u].registered)
          && (Count(Registering(s), u) > 0 ==> Complete(s.mem[u]) && !s.mem[u].registered)
          && (Count(s.live, u) > 0 ==> Complete(s.mem[u]) && s.mem[u].registered))
  }

  ghost predicate GoodTransfer(s: State) {
    match s.ep0
    case NoTransfer => true
    case DescData(u, room) => u in s.mem && s.mem[u].offset + room <= s.mem[u].declared
    case HidEvent(u) => u in s.mem && Complete(s.mem[u]) && s.mem[u].registered
  }

  ghost predicate Inv(s: State) {
    && (forall u: nat :: Sound(s, u))
    && GoodTransfer(s)
  }

  // ----- how the list moves count

  lemma {:induction false} CountReversed<T>(s: seq<T>, x: T)
    ensures Count(L.Reversed(s), x) == Count(s, x)
  {
    if s != [] {
      CountReversed(s[1..], x);
      CountConcat(L.Reversed(s[1..]), [s[0]], x);
    }
  }

  lemma {:induction false} CountSelect<T>(s: seq<T>, p: T -> bool, x: T)
    ensures Count(L.Select(s, p), x) == if p(x) then Count(s, x) else 0
  {
    if s != [] {
      CountSelect(s[1..], p, x);
      CountConcat(if p(s[0]) then [s[0]] else [], L.Select(s[1..], p), x);
    }
  }

  // ----- every step keeps the invariant

  lemma InitInv()
    ensures Inv(INIT)
  {
  }

  /** Retiring a device moves it and nothing else. */
  lemma RetireMoves(s: State, id: int, u: nat)
    ensures var r := Retire(s, id);
            && r == s.(live := r.live, incoming := r.incoming, dead := r.dead)
            && Places(r, u) == Places(s, u)
            && Count(r.live, u) <= Count(s.live, u) && Count(r.incoming, u) <= Count(s.incoming, u)
  {
    var k := Find(s.mem, s.live, id);
    var j := Find(s.mem, s.incoming, id);
    if k < |s.live| {
      CountWithout(s.live, k, u);
      CountConcat([s.live[k]], s.dead, u);
    } else if j < |s.incoming| {
      CountWithout(s.incoming, j, u);
      CountConcat([s.incoming[j]], s.dead, u);
    }
  }

  lemma RetireInv(s: State, id: int)
    requires Inv(s)
    ensures Inv(Retire(s, id))
  {
    forall u: nat ensures Sound(Retire(s, id), u) {
      assert Sound(s, u);
      RetireMoves(s, id, u);
    }
    RetireMoves(s, id, 0);
  }

  lemma RegisterInv(s: State, e: Event)
    requires Inv(s) && e.Register?
    ensures Inv(Next(s, e))
  {
    RetireInv(s, e.id);
    RetireMoves(s, e.id, 0);
    var r := Retire(s, e.id);
    if e.length > 0 && e.memoryLeft {
      var h := NewHid(e.id, e.length);
      assert h.desc[..0] == Flatten(h.accepted);
      forall u: nat ensures Sound(Next(s, e), u) {
        assert Sound(r, u);
        CountConcat([s.created], r.incoming, u);
      }
      assert Sound(r, s.created);
    }
  }

  lemma DescInv(s: State, e: Event)
    requires Inv(s) && Enabled(s, e) && e.DescArrives?
    ensures Inv(Next(s, e))
  {
    var u := s.ep0.dev;
    assert Sound(s, u);
    var h := s.mem[u];
    var h' := Append(h, e.data);
    FlattenSnoc(h.accepted, e.data);
    assert h'.desc[..h'.offset] == h.desc[..h.offset] + e.data;
    forall v: nat ensures Sound(Next(s, e), v) {
      assert Sound(s, v);
    }
  }

  lemma RequestInv(s: State, e: Event)
    requires Inv(s) && Enabled(s, e) && (e.DescRequest? || e.InputRequest?)
    ensures Inv(Next(s, e))
  {
    forall u: nat ensures Sound(Next(s, e), u) {
      assert Sound(s, u);
    }
    if e.InputRequest? {
      var k := Find(s.mem, s.live, e.id);
      if k < |s.live| {
        CountAt(s.live, k);
        assert Sound(s, s.live[k]);
      }
    }
  }

  lemma KillAllInv(s: State)
    requires Inv(s)
    ensures Inv(Next(s, KillAll))
  {
    forall u: nat ensures Sound(Next(s, KillAll), u) {
      assert Sound(s, u);
      CountReversed(s.live, u);
      CountReversed(s.incoming, u);
      CountConcat(L.Reversed(s.live), s.dead, u);
      CountConcat(L.Reversed(s.incoming), L.Reversed(s.live) + s.dead, u);
    }
  }

  lemma WorkStartInv(s: State)
    requires Inv(s) && Enabled(s, WorkStart)
    ensures Inv(Next(s, WorkStart))
  {
    var ready := Ready(s.mem);
    var waiting := Unready(s.mem);
    forall u: nat ensures Sound(Next(s, WorkStart), u) {
      assert Sound(s, u);
      CountSelect(s.incoming, ready, u);
      CountSelect(s.incoming, waiting, u);
      CountReversed(L.Select(s.incoming, ready), u);
    }
  }

  lemma FreeInv(s: State, q: seq<nat>, e: Event)
    requires Inv(s) && Enabled(s, e) && (e == WorkRegister(false) || e == WorkReap)
    requires q == if e.WorkReap? then s.worker.toDestroy else s.worker.toRegister
    ensures Inv(Next(s, e))
  {
    var t := Next(s, e);
    assert t.freed == s.freed + [q[0]] && t.mem == s.mem - {q[0]};
    assert Sound(s, q[0]);
    forall u: nat ensures Sound(t, u) {
      assert Sound(s, u);
      CountConcat(s.freed, [q[0]], u);
    }
  }

  lemma GoLiveInv(s: State)
    requires Inv(s) && Enabled(s, WorkRegister(true))
    ensures Inv(Next(s, WorkRegister(true)))
  {
    var t := Next(s, WorkRegister(true));
    var v := s.worker.toRegister[0];
    assert Sound(s, v);
    forall u: nat ensures Sound(t, u) {
      assert Sound(s, u);
      CountConcat([v], s.live, u);
    }
  }

  lemma NextInv(s: State, e: Event)
    requires Inv(s) && Enabled(s, e)
    ensures Inv(Next(s, e))
  {
    match e
    case Register(_, _, _) => RegisterInv(s, e);
    case Unregister(id) => QuietInv(s, e);
    case DescRequest(_, _, _) => RequestInv(s, e);
    case DescArrives(_) => DescInv(s, e);
    case InputRequest(_) => RequestInv(s, e);
    case KillAll => KillAllInv(s);
    case WorkStart => WorkStartInv(s);
    case WorkRegister(ok) => if ok { GoLiveInv(s); } else { FreeInv(s, s.worker.toRegister, e); }
    case WorkReap => FreeInv(s, s.worker.toDestroy, e);
    case _ => QuietInv(s, e);
  }

  /** Steps that touch neither the lists (beyond a retirement) nor the devices. */
  lemma QuietInv(s: State, e: Event)
    requires Inv(s) && Enabled(s, e)
    requires e.Unregister? || e.InputArrives? || e.TransferFails? || e.WorkEnd? || e.WorkCancel?
    ensures Inv(Next(s, e))
  {
    var r := if e.Unregister? && Holds(s, e.id) then Retire(s, e.id) else s;
    if e.Unregister? {
      RetireInv(s, e.id);
      RetireMoves(s, e.id, 0);
    }
    forall u: nat ensures Sound(Next(s, e), u) {
      assert Sound(r, u);
    }
  }

  // ----- whole runs

  predicate CanRun(s: State, es: seq<Event>)
    requires Inv(s)
    decreases |es|
  {
    es == [] || (Enabled(s, es[0]) && (NextInv(s, es[0]); CanRun(Next(s, es[0]), es[1..])))
  }

  function Exec(s: State, es: seq<Event>): (r: State)
    requires Inv(s) && CanRun(s, es)
    ensures Inv(r)
    decreases |es|
  {
    if es == [] then s else (NextInv(s, es[0]); Exec(Next(s, es[0]), es[1..]))
  }

  /** How far along its life a created device is; `5` is freed. */
  function Stage(s: State, u: nat): int {
    if Count(s.incoming, u) > 0 then 0
    else if Count(Registering(s), u) > 0 then 1
    else if Count(s.live, u) > 0 then 2
    else if Count(s.dead, u) > 0 then 3
    else if Count(Destroying(s), u) > 0 then 4
    else 5
  }

  /** Steps go forward: never to an earlier stage, to live only by the worker's registration, and to freed
      only from the worker's hands. */
  ghost predicate Forward(s: State, e: Event, u: nat)
    requires Inv(s) && Enabled(s, e)
  {
    var before, after := Stage(s, u), Stage(Next(s, e), u);
    && u < Next(s, e).created
    && before <= after
    && (after == 2 && before != 2 ==> before == 1 && e == WorkRegister(true))
    && (after == 5 && before != 5 ==> before == 4 || before == 1)
  }

  lemma RetireStage(s: State, id: int, u: nat)
    requires Inv(s) && u < s.created
    ensures var r := Retire(s, id);
            Stage(r, u) == Stage(s, u) || (Stage(s, u) <= 2 && Stage(r, u) == 3)
  {
    RetireInv(s, id);
    RetireMoves(s, id, u);
    assert Sound(s, u) && Sound(Retire(s, id), u);
  }

  lemma RetireForward(s: State, e: Event, u: nat)
    requires Inv(s) && Enabled(s, e) && u < s.created && (e.Register? || e.Unregister?)
    ensures Forward(s, e, u)
  {
    hide Retire;
    hide Inv;
    RetireStage(s, e.id, u);
    RetireMoves(s, e.id, u);
    if e.Register? {
      CountConcat([s.created], Retire(s, e.id).incoming, u);
      assert Count([s.created], u) == 0;
    }
  }

  lemma ListForward(s: State, e: Event, u: nat)
    requires Inv(s) && Enabled(s, e) && u < s.created && (e.KillAll? || e.WorkStart?)
    ensures Forward(s, e, u)
  {
    NextInv(s, e);
    assert Sound(s, u) && Sound(Next(s, e), u);
    if e.WorkStart? {
      CountSelect(s.incoming, Unready(s.mem), u);
    }
  }

  lemma WorkForward(s: State, e: Event, u: nat)
    requires Inv(s) && Enabled(s, e) && u < s.created && (e.WorkRegister? || e.WorkReap?)
    ensures Forward(s, e, u)
  {
    assert Sound(s, u);
    var v := if e.WorkReap? then s.worker.toDestroy[0] else s.worker.toRegister[0];
    CountConcat([v], s.live, u);
    CountConcat(s.freed, [v], u);
  }

  lemma StageStep(s: State, e: Event, u: nat)
    requires Inv(s) && Enabled(s, e) && u < s.created
    ensures Forward(s, e, u)
  {
    match e
    case Register(_, _, _) => RetireForward(s, e, u);
    case Unregister(_) => RetireForward(s, e, u);
    case KillAll => ListForward(s, e, u);
    case WorkStart => ListForward(s, e, u);
    case WorkRegister(_) => WorkForward(s, e, u);
    case WorkReap => WorkForward(s, e, u);
    case _ =>
  }

  lemma {:induction false} StageRun(s: State, es: seq<Event>, u: nat)
    requires Inv(s) && CanRun(s, es) && u < s.created
    ensures u < Exec(s, es).created && Stage(s, u) <= Stage(Exec(s, es), u)
    decreases |es|
  {
    if es != [] {
      StageStep(s, es[0], u);
      NextInv(s, es[0]);
      StageRun(Next(s, es[0]), es[1..], u);
    }
  }

  /** Ownership over every run from the start: a device is in exactly one place; what has been received of its
      descriptor is a prefix no longer than declared; and only a whole descriptor is registered or live. */
  lemma Ownership(es: seq<Event>, u: nat)
    requires Inv(INIT) && CanRun(INIT, es) && u < Exec(INIT, es).created
    ensures var s := Exec(INIT, es);
            && Places(s, u) == 1
            && (u in s.mem <==> Count(s.freed, u) == 0)
            && (u in s.mem ==>
                  && |s.mem[u].desc| == s.mem[u].declared
                  && |Flatten(s.mem[u].accepted)| == s.mem[u].offset
                  && Flatten(s.mem[u].accepted) <= s.mem[u].desc)
            && (Count(Registering(s), u) > 0 || Count(s.live, u) > 0 ==>
                  u in s.mem && s.mem[u].desc == Flatten(s.mem[u].accepted))
            && (Count(s.live, u) > 0 ==> s.mem[u].registered)
            && (Count(s.incoming, u) > 0 ==> u in s.mem && !s.mem[u].registered)
  {
    var s := Exec(INIT, es);
    assert Sound(s, u);
    if u in s.mem && Complete(s.mem[u]) {
      var h := s.mem[u];
      assert h.desc[..h.offset] == h.desc;
    }
  }

  // ----- work is never forgotten

  /** There is nothing for the worker to do. */
  predicate NothingToDo(s: State) {
    s.dead == [] && forall i :: 0 <= i < |s.incoming| ==> !IsComplete(s.mem, s.incoming[i])
  }

  /** Whatever the worker would find to do, it is scheduled to do. */
  predicate Served(s: State) {
    s.scheduled || NothingToDo(s)
  }

  lemma {:induction false} SelectAll<T>(s: seq<T>, p: T -> bool)
    ensures forall i :: 0 <= i < |L.Select(s, p)| ==> p(L.Select(s, p)[i])
  {
    if s != [] {
      SelectAll(s[1..], p);
    }
  }

  /** A registration for which there is no memory, after it has retired the old device with the id, leaves that
      device on the dead list without scheduling the worker; and the cancellation in __put_acc_dev can hit a worker
      that has still to run. */
  predicate Forgets(s: State, e: Event) {
    || (e.Register? && e.length > 0 && !e.memoryLeft && Holds(s, e.id) && !s.scheduled)
    || (e.WorkCancel? && !NothingToDo(s))
  }

  /** Exactly these steps leave work undone and unscheduled. */
  lemma ServedExact(s: State, e: Event)
    requires Inv(s) && Enabled(s, e) && Served(s)
    ensures Served(Next(s, e)) <==> !Forgets(s, e)
  {
    match e
    case WorkStart =>
      SelectAll(s.incoming, Unready(s.mem));
      forall i | 0 <= i < |Next(s, e).incoming| ensures !IsComplete(s.mem, Next(s, e).incoming[i]) {
        assert Unready(s.mem)(Next(s, e).incoming[i]);
      }
    case WorkRegister(_) => assert Sound(s, s.worker.toRegister[0]);
    case DescArrives(_) => assert Sound(s, s.ep0.dev);
    case _ =>
  }

  lemma {:induction false} ServedRun(s: State, es: seq<Event>)
    requires Inv(s) && CanRun(s, es) && Served(s)
    requires forall i :: 0 <= i < |es| ==> (es[i].Register? ==> es[i].memoryLeft) && !es[i].WorkCancel?
    ensures Served(Exec(s, es))
    decreases |es|
  {
    hide Served;
    if es != [] {
      NextInv(s, es[0]);
      ServedExact(s, es[0]);
      ServedRun(Next(s, es[0]), es[1..]);
    }
  }

  /** A concrete run to it: the only device is retired for a successor that cannot be allocated, and nothing is
      scheduled to destroy it. */
  lemma ForgottenDevice() returns (es: seq<Event>)
    ensures Inv(INIT) && CanRun(INIT, es)
    ensures var s := Exec(INIT, es); s.dead == [0] && !s.scheduled && s.worker.Idle? && s.ep0.NoTransfer?
  {
    InitInv();
    var s0 := INIT.(mem := map[0 := WAITING], created := 1, incoming := [0], scheduled := true);
    assert NewHid(7, 1) == WAITING;
    es := [];
    Snoc(INIT, es, Register(7, 1, true), s0);
    es := es + [Register(7, 1, true)];
    var s1 := s0.(worker := Busy([], []), scheduled := false);
    assert s0.incoming == [0] && s0.incoming[1..] == [];
    assert L.Select(s0.incoming, Ready(s0.mem)) == [] && L.Select(s0.incoming, Unready(s0.mem)) == [0];
    Snoc(INIT, es, WorkStart, s1);
    es := es + [WorkStart];
    Snoc(INIT, es, WorkEnd, s1.(worker := Idle));
    es := es + [WorkEnd];
    Snoc(INIT, es, Register(7, 1, false), s1.(worker := Idle, incoming := [], dead := [0]));
    es := es + [Register(7, 1, false)];
  }

  // ----- unbind leaves nothing behind

  function Reaps(n: nat): seq<Event> {
    if n == 0 then [WorkEnd] else [WorkReap] + Reaps(n - 1)
  }

  lemma {:induction false} ReapAll(s: State)
    requires Inv(s) && s.ep0.NoTransfer? && s.worker.Busy? && s.worker.toRegister == []
    requires s.incoming == s.live == s.dead == []
    ensures CanRun(s, Reaps(|s.worker.toDestroy|))
    ensures var r := Exec(s, Reaps(|s.worker.toDestroy|));
            r.worker.Idle? && r.created == s.created && r.incoming == r.live == r.dead == []
    decreases |s.worker.toDestroy|
  {
    var q := s.worker.toDestroy;
    var es := Reaps(|q|);
    NextInv(s, es[0]);
    if q == [] {
      assert es[1..] == [];
    } else {
      assert es[1..] == Reaps(|q| - 1);
      ReapAll(Next(s, WorkReap));
    }
  }

  /** kill_all_hid_devices, and one uncut run of the worker, for `n` devices. */
  function UnbindRun(n: nat): seq<Event> { [KillAll] + ([WorkStart] + Reaps(n)) }

  /** How many devices are on the driver's lists. */
  function Listed(s: State): nat { |s.incoming| + |s.live| + |s.dead| }

  /** With every list empty and the worker idle, every device has been freed. */
  lemma AllFreed(r: State)
    requires Inv(r) && r.worker.Idle? && r.incoming == r.live == r.dead == []
    ensures r.mem == map[] && forall u: nat :: u < r.created ==> Count(r.freed, u) == 1
  {
    forall u: nat ensures u !in r.mem && (u < r.created ==> Count(r.freed, u) == 1) {
      assert Sound(r, u);
    }
    assert r.mem.Keys == {};
  }

  /** kill_all_hid_devices followed by one uncut run of the worker, which destroys every device that was on a list,
      leaves every device ever created freed: none leaks, and (by `Ownership`) none is freed twice. */
  lemma UnbindFreesAll(s: State)
    requires Inv(s) && s.worker.Idle? && s.ep0.NoTransfer?
    ensures var es := UnbindRun(Listed(s));
            CanRun(s, es) && var r := Exec(s, es);
            r.created == s.created && r.mem == map[] && forall u: nat :: u < r.created ==> Count(r.freed, u) == 1
  {
    hide Inv, Reaps;
    NextInv(s, KillAll);
    var k := Next(s, KillAll);
    NextInv(k, WorkStart);
    var w := Next(k, WorkStart);
    L.ReversedLength(s.live);
    L.ReversedLength(s.incoming);
    var reaps := Reaps(Listed(s));
    assert |w.worker.toDestroy| == Listed(s);
    ReapAll(w);
    var es := UnbindRun(Listed(s));
    assert es[1..] == [WorkStart] + reaps && es[1..][1..] == reaps;
    assert CanRun(k, es[1..]) && Exec(k, es[1..]) == Exec(w, reaps);
    assert CanRun(s, es) && Exec(s, es) == Exec(k, es[1..]);
    AllFreed(Exec(s, es));
  }

  /** __put_acc_dev cancels the worker and frees the device with its lists, so what is then on a list is lost.
      Nothing leaks exactly if every list is empty. */
  lemma TeardownExact(s: State)
    requires Inv(s) && Enabled(s, WorkCancel)
    ensures (forall u: nat :: u < s.created ==> Count(Next(s, WorkCancel).freed, u) == 1)
            <==> s.incoming == s.live == s.dead == []
  {
    if s.incoming == s.live == s.dead == [] {
      forall u: nat | u < s.created ensures Count(s.freed, u) == 1 {
        assert Sound(s, u);
      }
    }
    if s.incoming != [] { CountAt(s.incoming, 0); NotFreed(s, s.incoming[0]); }
    if s.live != [] { CountAt(s.live, 0); NotFreed(s, s.live[0]); }
    if s.dead != [] { CountAt(s.dead, 0); NotFreed(s, s.dead[0]); }
    assert Next(s, WorkCancel).freed == s.freed;
  }

  lemma NotFreed(s: State, u: nat)
    requires Inv(s) && Count(s.incoming, u) + Count(s.live, u) + Count(s.dead, u) > 0
    ensures u < s.created && Count(s.freed, u) == 0
  {
    assert Sound(s, u);
  }

  /** The last put behind an unbind: kill_all_hid_devices has scheduled the worker, and the cancellation comes first.
      Every device that was on a list leaks; so nothing leaks only if there was none, or (`UnbindFreesAll`) the worker
      has run in between. */
  lemma UnbindThenCancel(s: State)
    requires Inv(s) && s.worker.Idle?
    ensures CanRun(s, [KillAll, WorkCancel])
    ensures var r := Exec(s, [KillAll, WorkCancel]);
            && !r.scheduled && r.freed == s.freed
            && ((forall u: nat :: u < r.created ==> Count(r.freed, u) == 1) <==> s.incoming == s.live == s.dead == [])
  {
    NextInv(s, KillAll);
    var k := Next(s, KillAll);
    NextInv(k, WorkCancel);
    assert [KillAll, WorkCancel][1..] == [WorkCancel] && [WorkCancel][1..] == [];
    TeardownExact(k);
    L.ReversedLength(s.live);
    L.ReversedLength(s.incoming);
  }

  // ----- one device per id

  /** A device the host can still address, or will be able to once the worker has registered it. */
  predicate Active(s: State, u: nat) {
    u in s.mem && (Count(s.incoming, u) > 0 || Count(Registering(s), u) > 0 || Count(s.live, u) > 0)
  }

  ghost predicate UniqueIds(s: State) {
    forall u: nat, v: nat :: Active(s, u) && Active(s, v) && u != v ==> s.mem[u].id != s.mem[v].id
  }

  /** No device with this id is in the worker's hands. */
  ghost predicate NotRegistering(s: State, id: int) {
    forall u: nat :: Count(Registering(s), u) > 0 && u in s.mem ==> s.mem[u].id != id
  }

  lemma KeepsUnique(s: State, e: Event)
    requires Inv(s) && Enabled(s, e) && UniqueIds(s) && !e.Register?
    ensures UniqueIds(Next(s, e))
  {
    var t := Next(s, e);
    NextInv(s, e);
    forall u: nat | Active(t, u) ensures Active(s, u) && t.mem[u].id == s.mem[u].id {
      assert Sound(s, u) && Sound(t, u);
      if u < s.created {
        StageStep(s, e, u);
      }
    }
  }

  /** After a retirement no active device outside the worker's hands has the id. */
  lemma RetireClears(s: State, id: int, u: nat)
    requires Inv(s) && UniqueIds(s) && Active(s, u) && s.mem[u].id == id && Count(Registering(s), u) == 0
    ensures !Active(Retire(s, id), u)
  {
    assert Sound(s, u);
    var k := Find(s.mem, s.live, id);
    var j := Find(s.mem, s.incoming, id);
    if Count(s.live, u) > 0 { FindFinds(s.mem, s.live, id, u); }
    if Count(s.incoming, u) > 0 { FindFinds(s.mem, s.incoming, id, u); }
    if k < |s.live| {
      CountAt(s.live, k);
      assert Sound(s, s.live[k]) && Active(s, s.live[k]);
      CountWithout(s.live, k, u);
    } else {
      CountAt(s.incoming, j);
      assert Sound(s, s.incoming[j]) && Active(s, s.incoming[j]);
      CountWithout(s.incoming, j, u);
    }
  }

  lemma {:induction false} FindFinds(mem: map<nat, Hid>, list: seq<nat>, id: int, u: nat)
    requires Count(list, u) > 0 && u in mem && mem[u].id == id
    ensures Find(mem, list, id) < |list|
  {
    if !(list[0] in mem && mem[list[0]].id == id) {
      FindFinds(mem, list[1..], id, u);
    }
  }

  predicate Creates(e: Event) { e.Register? && e.length > 0 && e.memoryLeft }

  /** What REGISTER_HID does to the activity of an older device. */
  lemma RegisterActive(s: State, e: Event, u: nat)
    requires Inv(s) && UniqueIds(s) && e.Register? && u < s.created
    ensures var t := Next(s, e);
            && (Active(t, u) ==> Active(s, u) && t.mem[u] == s.mem[u])
            && (Creates(e) && Active(t, u) && s.mem[u].id == e.id ==> Count(Registering(s), u) > 0)
            && (u in s.mem && Count(Registering(s), u) > 0 ==> Active(t, u))
  {
    var t := Next(s, e);
    NextInv(s, e);
    assert Sound(s, u) && Sound(t, u);
    StageStep(s, e, u);
    RetireMoves(s, e.id, u);
    CountConcat([s.created], Retire(s, e.id).incoming, u);
    if Creates(e) && Active(t, u) && s.mem[u].id == e.id && Count(Registering(s), u) == 0 {
      RetireClears(s, e.id, u);
    }
  }

  lemma RegisterNew(s: State, e: Event)
    requires Inv(s) && Creates(e)
    ensures var t := Next(s, e); t.created == s.created + 1 && Active(t, s.created) && t.mem[s.created].id == e.id
  {
    RetireMoves(s, e.id, s.created);
  }

  /** Exactly when REGISTER_HID keeps ids unique: when it creates nothing, or the worker is not in the
      middle of registering a device with the same id. */
  lemma RegisterUnique(s: State, e: Event)
    requires Inv(s) && UniqueIds(s) && e.Register?
    ensures UniqueIds(Next(s, e)) <==> (!Creates(e) || NotRegistering(s, e.id))
  {
    var t, n := Next(s, e), s.created;
    NextInv(s, e);
    if Creates(e) { RegisterNew(s, e); }
    forall u: nat | Active(t, u) ensures u < n || (u == n && Creates(e)) {
      assert Sound(t, u);
      RetireMoves(s, e.id, u);
    }
    if Creates(e) && !NotRegistering(s, e.id) {
      var u: nat :| Count(Registering(s), u) > 0 && u in s.mem && s.mem[u].id == e.id;
      assert Sound(s, u);
      RegisterActive(s, e, u);
    } else {
      forall u: nat, v: nat | Active(t, u) && Active(t, v) && u != v ensures t.mem[u].id != t.mem[v].id {
        if u < n { RegisterActive(s, e, u); }
        if v < n { RegisterActive(s, e, v); }
      }
    }
  }

  const WAITING := Hid(7, 1, [0], 0, false, [])
  const FULL := Hid(7, 1, [5], 1, false, [[5]])
  const LIVE := FULL.(registered := true)

  /** The worker has taken the only device; the host has registered the same id again. */
  const RACED := State(map[0 := FULL, 1 := WAITING], 2, [1], [], [], Busy([0], []), true, NoTransfer, [])

  /** The first device is live, the second has its descriptor. */
  const SECOND := State(map[0 := LIVE, 1 := FULL], 2, [1], [0], [], Idle, true, NoTransfer, [])

  lemma StartSingle(s: State)
    requires Inv(s) && Enabled(s, WorkStart) && |s.incoming| == 1 && IsComplete(s.mem, s.incoming[0])
    ensures Next(s, WorkStart) == s.(scheduled := false, dead := [], incoming := [], worker := Busy(s.incoming, s.dead))
  {
    var u := s.incoming[0];
    assert s.incoming == [u] && s.incoming[1..] == [];
    assert L.Select(s.incoming, Ready(s.mem)) == [u];
    assert L.Select(s.incoming, Unready(s.mem)) == [];
    assert L.Reversed([u]) == [u];
  }

  lemma ReachRaced() returns (es: seq<Event>)
    ensures Inv(INIT) && CanRun(INIT, es) && Exec(INIT, es) == RACED
  {
    InitInv();
    var reg := Register(7, 1, true);
    var s0 := INIT.(mem := map[0 := WAITING], created := 1, incoming := [0], scheduled := true);
    assert NewHid(7, 1) == WAITING;
    es := [];
    Snoc(INIT, es, reg, s0);
    es := es + [reg];
    Snoc(INIT, es, DescRequest(7, 0, 1), s0.(ep0 := DescData(0, 1)));
    es := es + [DescRequest(7, 0, 1)];
    var s1 := s0.(mem := map[0 := FULL]);
    assert Append(WAITING, [5]) == FULL;
    Snoc(INIT, es, DescArrives([5]), s1);
    es := es + [DescArrives([5])];
    var s2 := s1.(incoming := [], worker := Busy([0], []), scheduled := false);
    StartSingle(s1);
    Snoc(INIT, es, WorkStart, s2);
    es := es + [WorkStart];
    Snoc(INIT, es, reg, RACED);
    es := es + [reg];
  }

  /** The worker has done with the first. */
  const FIRST_LIVE := RACED.(mem := map[0 := LIVE, 1 := WAITING], worker := Idle, live := [0])

  lemma ReachFirstLive() returns (es: seq<Event>)
    ensures Inv(INIT) && CanRun(INIT, es) && Exec(INIT, es) == FIRST_LIVE
  {
    es := ReachRaced();
    var s4 := FIRST_LIVE.(worker := Busy([], []));
    assert RACED.mem[0 := FULL.(registered := true)] == s4.mem;
    assert RACED.worker.toRegister[1..] == [] && [0] + RACED.live == [0];
    Snoc(INIT, es, WorkRegister(true), s4);
    es := es + [WorkRegister(true)];
    Snoc(INIT, es, WorkEnd, FIRST_LIVE);
    es := es + [WorkEnd];
  }

  lemma ReachSecond() returns (es: seq<Event>)
    ensures Inv(INIT) && CanRun(INIT, es) && Exec(INIT, es) == SECOND
  {
    es := ReachFirstLive();
    Snoc(INIT, es, DescRequest(7, 0, 1), FIRST_LIVE.(ep0 := DescData(1, 1)));
    es := es + [DescRequest(7, 0, 1)];
    assert Append(WAITING, [5]) == FULL;
    Snoc(INIT, es, DescArrives([5]), SECOND);
    es := es + [DescArrives([5])];
  }

  /** The condition is needed: with the worker caught between taking a device and registering it, the host
      registers the same id again, and both devices end up live. */
  lemma TwoLiveDevices() returns (es: seq<Event>)
    ensures Inv(INIT) && CanRun(INIT, es)
    ensures var s := Exec(INIT, es); s.live == [1, 0] && s.mem == map[0 := LIVE, 1 := LIVE]
  {
    es := ReachSecond();
    var s7 := SECOND.(incoming := [], worker := Busy([1], []), scheduled := false);
    StartSingle(SECOND);
    Snoc(INIT, es, WorkStart, s7);
    es := es + [WorkStart];
    Snoc(INIT, es, WorkRegister(true),
         s7.(mem := map[0 := LIVE, 1 := LIVE], worker := Busy([], []), live := [1, 0]));
    es := es + [WorkRegister(true)];
  }

  lemma {:induction false} Snoc(s: State, es: seq<Event>, e: Event, r: State)
    requires Inv(s) && CanRun(s, es) && Enabled(Exec(s, es), e) && Next(Exec(s, es), e) == r
    ensures CanRun(s, es + [e]) && Exec(s, es + [e]) == r
    decreases |es|
  {
    if es == [] {
      NextInv(s, e);
      assert (es + [e])[1..] == [];
    } else {
      NextInv(s, es[0]);
      assert (es + [e])[1..] == es[1..] + [e];
      Snoc(Next(s, es[0]), es[1..], e, r);
    }
  }
}
