/** The reference-counted singleton `_acc_dev_ref`: set up, transient use, the exclusive open file, allocated
    functions and the teardown that runs when the count reaches zero.  Steps are the atomic operations
    on the count and on the pointer, so two callers can interleave between any two of them. */
module AccRefCount {
  import opened Errno
  import opened Sequences

  /** Devices are named by the order of their allocation.
      `fetching`  callers that have raised the count and not yet read the pointer
      `holders`   transient references, with the device each one points to
      `setups`    devices allocated by acc_setup calls that have not reached the cmpxchg
      `publishing` the device whose acc_setup won the cmpxchg and has not finished
      `ending`    __put_acc_dev has been entered, the pointer is still set
      `clearing`  the pointer is cleared, kfree is still to come
      `started`, `zeroed`, `freed`  what has happened so far: kref_init, count down to zero, kfree */
  datatype State = State(count: nat, ptr: Option<nat>, excl: bool,
                         instance: Option<nat>, functions: multiset<nat>, file: Option<nat>,
                         fetching: nat, holders: multiset<nat>,
                         created: nat, setups: set<nat>, publishing: Option<nat>,
                         ending: Option<nat>, clearing: set<nat>,
                         started: set<nat>, zeroed: seq<nat>, freed: seq<nat>)

  datatype Event =
    | SetupAllocate              // kref_read, then kzalloc
    | SetupPublish(dev: nat)     // cmpxchg of the pointer
    | SetupFinish(ok: bool)      // misc_register, then kref_init or the way back
    | Raise                      // kref_get_unless_zero
    | Fetch                      // ... ? ref->acc_dev : NULL
    | Put(dev: nat)              // kref_put
    | OpenExclusive(dev: nat)    // atomic_xchg(&dev->open_excl, 1)
    | CloseExclusive             // atomic_xchg(&dev->open_excl, 0)
    | KeepFunction(dev: nat)     // acc_alloc keeps the reference it got
    | DropFunction(dev: nat)     // acc_free is about to put it
    | DropInstance               // acc_cleanup is about to put the reference of acc_setup
    | ClearPointer               // __put_acc_dev
    | FreeDevice(dev: nat)       // kfree

  const INIT := State(0, None, false, None, multiset{}, None, 0, multiset{},
                      0, {}, None, None, {}, {}, [], [])

  function One(b: bool): nat { if b then 1 else 0 }

  predicate Enabled(s: State, e: Event) {
    match e
    case SetupPublish(d) => d in s.setups
    case SetupFinish(_) => s.publishing.Some?
    case Fetch => s.fetching > 0
    case Put(d) => d in s.holders
    case OpenExclusive(d) => d in s.holders
    case CloseExclusive => s.file.Some?
    case KeepFunction(d) => d in s.holders
    case DropFunction(d) => d in s.functions
    case DropInstance => s.instance.Some?
    case ClearPointer => s.ending.Some?
    case FreeDevice(d) => d in s.clearing
    case _ => true
  }

  function Next(s: State, e: Event): State
    requires Inv(s) && Enabled(s, e)
  {
    Referenced(s);
    match e
    case SetupAllocate =>
      if s.count != 0 then s else s.(created := s.created + 1, setups := s.setups + {s.created})
    case SetupPublish(d) =>
      if s.ptr.None? then s.(ptr := Some(d), publishing := Some(d), setups := s.setups - {d})
      else s.(setups := s.setups - {d}, freed := s.freed + [d])
    case SetupFinish(ok) =>
      var d := s.publishing.value;
      if ok then s.(publishing := None, count := 1, instance := Some(d), excl := false, started := s.started + {d})
      else s.(publishing := None, ptr := None, freed := s.freed + [d])
    case Raise => if s.count == 0 then s else s.(count := s.count + 1, fetching := s.fetching + 1)
    case Fetch => s.(fetching := s.fetching - 1, holders := s.holders + multiset{s.ptr.value})
    case Put(d) =>
      var t := s.(count := s.count - 1, holders := s.holders - multiset{d});
      if s.count == 1 then t.(ending := s.ptr, zeroed := s.zeroed + [s.ptr.value]) else t
    case OpenExclusive(d) =>
      if s.excl then s else s.(excl := true, file := Some(d), holders := s.holders - multiset{d})
    case CloseExclusive =>
      s.(excl := false, file := None, holders := s.holders + multiset{s.file.value})
    case KeepFunction(d) => s.(functions := s.functions + multiset{d}, holders := s.holders - multiset{d})
    case DropFunction(d) => s.(functions := s.functions - multiset{d}, holders := s.holders + multiset{d})
    case DropInstance => s.(instance := None, holders := s.holders + multiset{s.instance.value})
    case ClearPointer => s.(ending := None, ptr := None, clearing := s.clearing + {s.ending.value})
    case FreeDevice(d) => s.(clearing := s.clearing - {d}, freed := s.freed + [d])
  }

  // ----- the invariant

  /** The count is exactly the references that exist. */
  predicate Counted(s: State) {
    s.count == One(s.instance.Some?) + |s.functions| + One(s.file.Some?) + s.fetching + |s.holders|
  }

  /** Every reference points to the current device, the one in `ptr`. */
  predicate Current(s: State) {
    && (s.instance.Some? ==> s.ptr == s.instance)
    && (s.file.Some? ==> s.ptr == s.file)
    && (s.excl <==> s.file.Some?)
    && (forall d :: d in s.functions ==> s.ptr == Some(d))
    && (forall d :: d in s.holders ==> s.ptr == Some(d))
  }

  /** A set pointer is being published, is in use, or is being torn down, and only one of these. */
  predicate Phases(s: State) {
    && (s.count > 0 ==> s.ptr.Some? && s.ptr.value in s.started && s.publishing.None? && s.ending.None?)
    && (s.publishing.Some? ==> s.ptr == s.publishing && s.ending.None?)
    && (s.ending.Some? ==> s.ptr == s.ending && s.publishing.None?)
    && (s.ptr.Some? && s.count == 0 ==> s.publishing.Some? || s.ending.Some?)
  }

  /** A created device is in exactly one place, and its count has gone to zero exactly once if it was
      started and is not in use any more. */
  predicate Lifetime(s: State, d: nat) {
    && One(d in s.setups) + One(s.ptr == Some(d)) + One(d in s.clearing) + Count(s.freed, d)
       == One(d < s.created)
    && Count(s.zeroed, d) == One(d in s.started && !(s.ptr == Some(d) && s.count > 0))
    && (d in s.started ==> d < s.created && d !in s.setups && s.publishing != Some(d))
    && (d in s.clearing || s.ending == Some(d) ==> d in s.started)
  }

  ghost predicate Inv(s: State) {
    && Counted(s) && Current(s) && Phases(s)
    && (forall d: nat :: Lifetime(s, d))
  }

  /** Whoever has a reference, the count is positive and the pointer is set. */
  lemma Referenced(s: State)
    requires Counted(s) && Current(s) && Phases(s)
    ensures s.instance.Some? || s.file.Some? || s.fetching > 0 || |s.functions| > 0 || |s.holders| > 0
            ==> s.count > 0 && s.ptr.Some?
    ensures forall d :: d in s.functions ==> |s.functions| > 0
    ensures forall d :: d in s.holders ==> |s.holders| > 0
  {
  }

  lemma InitInv()
    ensures Inv(INIT)
  {
  }

  predicate IsSetup(e: Event) { e.SetupAllocate? || e.SetupPublish? || e.SetupFinish? }

  predicate IsTeardown(e: Event) { e.ClearPointer? || e.FreeDevice? }

  lemma SetupInv(s: State, e: Event)
    requires Inv(s) && Enabled(s, e) && IsSetup(e)
    ensures Inv(Next(s, e))
  {
    Referenced(s);
    if e.SetupPublish? { assert Lifetime(s, e.dev); }
    if e.SetupFinish? { assert Lifetime(s, s.publishing.value); }
    forall d: nat ensures Lifetime(Next(s, e), d) {
      assert Lifetime(s, d);
      if e.SetupPublish? { CountSnoc(s.freed, e.dev, d); }
      if e.SetupFinish? { CountSnoc(s.freed, s.publishing.value, d); }
    }
  }

  lemma TeardownInv(s: State, e: Event)
    requires Inv(s) && Enabled(s, e) && IsTeardown(e)
    ensures Inv(Next(s, e))
  {
    Referenced(s);
    forall d: nat ensures Lifetime(Next(s, e), d) {
      assert Lifetime(s, d);
      if e.FreeDevice? { CountSnoc(s.freed, e.dev, d); }
    }
  }

  lemma PutInv(s: State, v: nat)
    requires Inv(s) && v in s.holders
    ensures Inv(Next(s, Put(v)))
  {
    Referenced(s);
    forall d: nat ensures Lifetime(Next(s, Put(v)), d) {
      assert Lifetime(s, d);
      CountSnoc(s.zeroed, s.ptr.value, d);
    }
  }

  predicate IsTake(e: Event) { e.Raise? || e.Fetch? || e.OpenExclusive? || e.CloseExclusive? }

  lemma TakeInv(s: State, e: Event)
    requires Inv(s) && Enabled(s, e) && IsTake(e)
    ensures Inv(Next(s, e))
  {
    Referenced(s);
    var t := Next(s, e);
    assert Counted(t);
    forall d: nat ensures Lifetime(t, d) {
      assert Lifetime(s, d);
    }
  }

  lemma KeepInv(s: State, d: nat)
    requires Inv(s) && d in s.holders
    ensures Inv(Next(s, KeepFunction(d)))
  {
    Referenced(s);
    FunctionCounts(s, d);
    forall v: nat ensures Lifetime(Next(s, KeepFunction(d)), v) {
      assert Lifetime(s, v);
    }
  }

  lemma DropInv(s: State, d: nat)
    requires Inv(s) && d in s.functions
    ensures Inv(Next(s, DropFunction(d)))
  {
    Referenced(s);
    FunctionCounts(s, d);
    forall v: nat ensures Lifetime(Next(s, DropFunction(d)), v) {
      assert Lifetime(s, v);
    }
  }

  lemma InstanceInv(s: State)
    requires Inv(s) && s.instance.Some?
    ensures Inv(Next(s, DropInstance))
  {
    Referenced(s);
    forall v: nat ensures Lifetime(Next(s, DropInstance), v) {
      assert Lifetime(s, v);
    }
  }

  lemma FunctionCounts(s: State, d: nat)
    ensures d in s.holders ==> |s.functions + multiset{d}| + |s.holders - multiset{d}| == |s.functions| + |s.holders|
    ensures d in s.functions ==> |s.functions - multiset{d}| + |s.holders + multiset{d}| == |s.functions| + |s.holders|
  {
  }

  lemma NextInv(s: State, e: Event)
    requires Inv(s) && Enabled(s, e)
    ensures Inv(Next(s, e))
  {
    if IsSetup(e) {
      SetupInv(s, e);
    } else if IsTeardown(e) {
      TeardownInv(s, e);
    } else if e.Put? {
      PutInv(s, e.dev);
    } else if IsTake(e) {
      TakeInv(s, e);
    } else {
      match e
      case KeepFunction(d) => KeepInv(s, d);
      case DropFunction(d) => DropInv(s, d);
      case DropInstance => InstanceInv(s);
    }
  }

  // ----- whole runs

  predicate CanRun(s: State, es: seq<Event>)
    requires Inv(s)
    decreases |es|
  {
    es == [] || (Enabled(s, es[0]) && (NextInv(s, es[0]); CanRun(Next(s, es[0]), es[1..])))
  }

  function Exec(s: State, es: seq<Event>): (r: State)
    requires Inv(s) && CanRun(s, es)
    ensures Inv(r)
    decreases |es|
  {
    if es == [] then s else (NextInv(s, es[0]); Exec(Next(s, es[0]), es[1..]))
  }

  predicate Refers(s: State, d: nat) {
    s.instance == Some(d) || s.file == Some(d) || d in s.functions || d in s.holders
  }

  /** In every reachable state: the count is the references; a referenced device is allocated and is the
      one in `ptr`, so no two devices are in use; and nothing is freed twice. */
  lemma Protocol(es: seq<Event>, d: nat, d': nat)
    requires Inv(INIT) && CanRun(INIT, es)
    ensures var s := Exec(INIT, es);
            && Counted(s)
            && (Refers(s, d) ==> s.ptr == Some(d) && d !in s.clearing && Count(s.freed, d) == 0)
            && (Refers(s, d) && Refers(s, d') ==> d == d')
            && (s.fetching > 0 ==> s.ptr.Some? && Count(s.freed, s.ptr.value) == 0)
            && Count(s.freed, d) <= 1
            && (d in s.started && Count(s.freed, d) == 1 ==> Count(s.zeroed, d) == 1)
  {
    var s := Exec(INIT, es);
    assert Lifetime(s, d);
    Referenced(s);
    if s.fetching > 0 { assert Lifetime(s, s.ptr.value); }
  }

  /** acc_setup publishes only when nobody can reach any device: while the pointer is set, be it in use or
      between the count reaching zero and the pointer being cleared, a setup frees its own device again. */
  lemma SetupAlone(s: State, v: nat)
    requires Inv(s) && v in s.setups
    ensures var t := Next(s, SetupPublish(v));
            if s.ptr.Some?
            then t.ptr == s.ptr && t.publishing == s.publishing && Count(t.freed, v) == 1
            else t.ptr == Some(v) && s.count == 0 && s.ending.None? && forall d :: !Refers(s, d)
  {
    Referenced(s);
    assert Lifetime(s, v);
    CountSnoc(s.freed, v, v);
  }

  /** When everything has been let go and every teardown has finished, every device ever allocated has been
      freed, once. */
  lemma NothingLeaks(s: State, d: nat)
    requires Inv(s) && s.count == 0 && s.setups == {} && s.publishing.None? && s.ending.None? && s.clearing == {}
    ensures Count(s.freed, d) == One(d < s.created)
    ensures d in s.started ==> Count(s.zeroed, d) == 1
  {
    assert Lifetime(s, d);
  }

  /** A device whose count has reached zero is never referenced again, in any continuation. */
  lemma {:induction false} ZeroIsFinal(s: State, es: seq<Event>, d: nat)
    requires Inv(s) && CanRun(s, es) && Count(s.zeroed, d) > 0
    ensures Count(Exec(s, es).zeroed, d) == 1 && !Refers(Exec(s, es), d)
    decreases |es|
  {
    if es == [] {
      assert Lifetime(s, d);
      Referenced(s);
    } else {
      NextInv(s, es[0]);
      if es[0].Put? { CountSnoc(s.zeroed, s.ptr.value, d); }
      ZeroIsFinal(Next(s, es[0]), es[1..], d);
    }
  }

  // ----- the driver's functions, each run without interruption

  /** `_acc_dev_ref` and the flag of the device it points to, with the protocol state beside them. */
  class AccDevRef {
    var count: nat
    var accDev: Option<nat>
    var openExcl: bool
    var created: nat
    ghost var st: State

    ghost predicate Valid()
      reads this
    {
      Inv(st) && st.count == count && st.ptr == accDev && st.excl == openExcl && st.created == created
    }

    constructor ()
      ensures Valid() && st == INIT
    {
      count, accDev, openExcl, created := 0, None, false, 0;
      st := INIT;
      new;
      InitInv();
    }

    ghost method Note(e: Event)
      requires Inv(st) && Enabled(st, e)
      modifies this`st
      ensures st == Next(old(st), e) && Inv(st)
    {
      NextInv(st, e);
      st := Next(st, e);
    }

    /** get_acc_dev: nothing when the count is zero, otherwise one more reference to the one device. */
    method GetAccDev() returns (dev: Option<nat>)
      requires Valid()
      modifies this
      ensures Valid() && accDev == old(accDev) && openExcl == old(openExcl) && created == old(created)
      ensures dev == if old(count) == 0 then None else old(accDev)
      ensures old(count) == 0 ==> st == old(st)
      ensures old(count) > 0 ==> dev.Some? && st == old(st).(count := old(count) + 1,
                                                             holders := old(st).holders + multiset{dev.value})
    {
      if count == 0 {
        return None;
      }
      Referenced(st);
      count := count + 1;
      Note(Raise);
      Note(Fetch);
      dev := accDev;
    }

    /** put_acc_dev: the last reference tears the device down. */
    method PutAccDev(dev: nat)
      requires Valid() && dev in st.holders
      modifies this
      ensures Valid() && openExcl == old(openExcl) && created == old(created)
      ensures old(count) > 1 ==> st == old(st).(count := old(count) - 1, holders := old(st).holders - multiset{dev})
      ensures old(count) == 1 ==> count == 0 && accDev == None && Count(st.freed, dev) == 1 && Count(st.zeroed, dev) == 1
    {
      Referenced(st);
      count := count - 1;
      Note(Put(dev));
      if count == 0 {
        TearDown(dev);
      }
    }

    /** __put_acc_dev. */
    method TearDown(dev: nat)
      requires Valid() && st.ending == Some(dev)
      modifies this
      ensures Valid() && count == old(count) && openExcl == old(openExcl) && created == old(created)
      ensures accDev == None && Count(st.freed, dev) == 1 && Count(st.zeroed, dev) == 1
    {
      accDev := None;
      Note(ClearPointer);
      assert Lifetime(st, dev);
      Note(FreeDevice(dev));
      assert Lifetime(st, dev);
    }

    /** acc_setup; `memory` is whether kzalloc succeeds, `misc` what misc_register returns. */
    method AccSetup(memory: bool, misc: int) returns (r: int)
      requires Valid() && misc <= 0
      modifies this
      ensures Valid()
      ensures r == if old(count) != 0 then -EBUSY else if !memory then -ENOMEM
                   else if old(accDev) != None then -EBUSY else misc
      ensures r == 0 ==> count == 1 && accDev == Some(old(created)) && st.instance == accDev && !openExcl
      ensures r != 0 ==> count == old(count) && accDev == old(accDev) && st.instance == old(st).instance
      ensures r != 0 && created > old(created) ==> Count(st.freed, old(created)) == 1
    {
      if count != 0 {
        return -EBUSY;
      }
      if !memory {
        return -ENOMEM;
      }
      var dev := created;
      Note(SetupAllocate);
      created := created + 1;
      SetupAlone(st, dev);
      Note(SetupPublish(dev));
      if accDev != None {
        return -EBUSY;
      }
      accDev := Some(dev);
      assert Lifetime(st, dev);
      CountSnoc(st.freed, dev, dev);
      Note(SetupFinish(misc == 0));
      if misc != 0 {
        accDev := None;
        return misc;
      }
      count := 1;
      openExcl := false;
      r := 0;
    }

    /** acc_open: one file at a time, and it keeps one reference. */
    method AccOpen() returns (r: int)
      requires Valid()
      modifies this
      ensures Valid() && accDev == old(accDev)
      ensures r == if old(count) == 0 then -ENODEV else if old(openExcl) then -EBUSY else 0
      ensures r != 0 ==> st == old(st)
      ensures r == 0 ==> st == old(st).(count := old(count) + 1, excl := true, file := accDev)
    {
      Referenced(st);
      var dev := GetAccDev();
      if dev == None {
        return -ENODEV;
      }
      if openExcl {
        PutAccDev(dev.value);
        assert old(st).holders + multiset{dev.value} - multiset{dev.value} == old(st).holders;
        return -EBUSY;
      }
      openExcl := true;
      Note(OpenExclusive(dev.value));
      assert old(st).holders + multiset{dev.value} - multiset{dev.value} == old(st).holders;
      r := 0;
    }

    /** acc_release; `privateData` is what acc_open left in the file, nothing if it was released before. */
    method AccRelease(privateData: Option<nat>) returns (r: int)
      requires Valid() && (privateData.Some? ==> st.file == privateData)
      modifies this
      ensures Valid()
      ensures privateData.None? ==> r == -ENOENT && st == old(st) && openExcl == old(openExcl)
      ensures privateData.Some? ==> r == 0 && !openExcl
      ensures privateData.Some? && old(count) > 1
              ==> st == old(st).(count := old(count) - 1, excl := false, file := None)
      ensures privateData.Some? && old(count) == 1 ==> accDev == None && Count(st.freed, privateData.value) == 1
    {
      if privateData == None {
        return -ENOENT;
      }
      Referenced(st);
      var d := privateData.value;
      openExcl := false;
      Note(CloseExclusive);
      assert old(st).holders + multiset{d} - multiset{d} == old(st).holders;
      PutAccDev(d);
      r := 0;
    }

    /** acc_alloc: the instance's own reference guarantees that there is a device to allocate on. */
    method AccAlloc() returns (dev: nat)
      requires Valid() && st.instance.Some?
      modifies this
      ensures Valid() && accDev == old(accDev) == Some(dev)
      ensures st == old(st).(count := old(count) + 1, functions := old(st).functions + multiset{dev})
    {
      Referenced(st);
      var d := GetAccDev();
      dev := d.value;
      Note(KeepFunction(dev));
      assert old(st).holders + multiset{dev} - multiset{dev} == old(st).holders;
    }

    /** acc_free. */
    method AccFree(dev: nat)
      requires Valid() && dev in st.functions
      modifies this
      ensures Valid()
      ensures old(count) > 1 ==> st == old(st).(count := old(count) - 1, functions := old(st).functions - multiset{dev})
      ensures old(count) == 1 ==> accDev == None && Count(st.freed, dev) == 1
    {
      Note(DropFunction(dev));
      assert old(st).holders + multiset{dev} - multiset{dev} == old(st).holders;
      PutAccDev(dev);
    }

    /** acc_cleanup: with no function and no file left, the device goes; otherwise they keep it. */
    method AccCleanup()
      requires Valid() && st.instance.Some?
      modifies this
      ensures Valid()
      ensures old(count) > 1 ==> st == old(st).(count := old(count) - 1, instance := None)
      ensures old(count) == 1 ==> accDev == None && Count(st.freed, old(st).instance.value) == 1
    {
      Referenced(st);
      var dev := GetAccDev();
      PutAccDev(dev.value);
      assert old(st).holders + multiset{dev.value} - multiset{dev.value} == old(st).holders;
      assert st == old(st);
      PutInstance(dev.value);
    }

    /** The put that pairs with kref_init. */
    method PutInstance(dev: nat)
      requires Valid() && st.instance == Some(dev)
      modifies this
      ensures Valid()
      ensures old(count) > 1 ==> st == old(st).(count := old(count) - 1, instance := None)
      ensures old(count) == 1 ==> accDev == None && Count(st.freed, dev) == 1
    {
      hide Inv;
      Note(DropInstance);
      assert old(st).holders + multiset{dev} - multiset{dev} == old(st).holders;
      PutAccDev(dev);
    }
  }
}
