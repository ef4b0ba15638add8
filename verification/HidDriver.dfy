/** The HID part of struct acc_dev with the functions that work on it, each locked section written as the
    driver writes it and proved to be the corresponding step of HidDevices. */
module HidDriver {
  import opened Sequences
  import opened HidDevices
  import opened Errno
  import L = KernelList

  class AccHid {
    var mem: map<nat, Hid>
    var created: nat
    var incoming: seq<nat>
    var live: seq<nat>
    var dead: seq<nat>
    var worker: Worker
    var scheduled: bool
    var ep0: Transfer
    var freed: seq<nat>

    ghost function View(): State
      reads this
    {
      State(mem, created, incoming, live, dead, worker, scheduled, ep0, freed)
    }

    ghost predicate Valid()
      reads this
    {
      Inv(View())
    }

    constructor ()
      ensures Valid() && View() == INIT
    {
      mem, created, freed := map[], 0, [];
      incoming, live, dead := [], [], [];
      worker, scheduled, ep0 := Idle, false, NoTransfer;
      new;
      InitInv();
    }

    /** acc_hid_get: walk the list until a device has the id. */
    method Get(list: seq<nat>, id: int) returns (k: nat)
      ensures k == Find(mem, list, id)
    {
      k := 0;
      while k < |list| && !(list[k] in mem && mem[list[k]].id == id)
        invariant k <= |list|
        invariant Find(mem, list, id) == k + Find(mem, list[k..], id)
      {
        assert list[k..][1..] == list[k + 1..];
        k := k + 1;
      }
    }

    /** acc_register_hid; `memoryLeft` is whether both allocations succeed. */
    method RegisterHid(id: int, length: int, memoryLeft: bool) returns (r: int)
      requires Valid()
      modifies this
      ensures View() == Next(old(View()), Register(id, length, memoryLeft)) && Valid()
      ensures r == if length <= 0 then -EINVAL else if !memoryLeft then -ENOMEM else 0
    {
      NextInv(View(), Register(id, length, memoryLeft));
      if length <= 0 {
        return -EINVAL;
      }
      var _ := MoveToDead(id);
      if !memoryLeft {
        return -ENOMEM;
      }
      mem := mem[created := NewHid(id, length)];
      incoming := [created] + incoming;
      created := created + 1;
      scheduled := true;
      r := 0;
    }

    /** acc_unregister_hid. */
    method UnregisterHid(id: int) returns (r: int)
      requires Valid()
      modifies this
      ensures View() == Next(old(View()), Unregister(id)) && Valid()
      ensures r == if Holds(old(View()), id) then 0 else -EINVAL
    {
      NextInv(View(), Unregister(id));
      var found := MoveToDead(id);
      if !found {
        return -EINVAL;
      }
      scheduled := true;
      r := 0;
    }

    /** The lookup in the live list, then in the new list, and the list_move to the dead list. */
    method MoveToDead(id: int) returns (found: bool)
      modifies this
      ensures View() == Retire(old(View()), id)
      ensures found == Holds(old(View()), id)
    {
      var k := Get(live, id);
      if k < |live| {
        dead := [live[k]] + dead;
        live := live[..k] + live[k + 1..];
        return true;
      }
      k := Get(incoming, id);
      if k < |incoming| {
        dead := [incoming[k]] + dead;
        incoming := incoming[..k] + incoming[k + 1..];
        return true;
      }
      found := false;
    }

    /** The SET_HID_REPORT_DESC branch of acc_ctrlrequest. */
    method SetReportDesc(id: int, offset: nat, size: nat) returns (value: int)
      requires Valid() && ep0.NoTransfer?
      modifies this
      ensures View() == Next(old(View()), DescRequest(id, offset, size)) && Valid()
      ensures value == if Accepts(old(View()), id, offset, size) then size else -EINVAL
    {
      NextInv(View(), DescRequest(id, offset, size));
      var k := Get(incoming, id);
      if k == |incoming| {
        return -EINVAL;
      }
      var hid := mem[incoming[k]];
      if offset != hid.offset || offset + size > hid.declared {
        return -EINVAL;
      }
      ep0 := DescData(incoming[k], size);
      value := size;
    }

    /** acc_complete_set_hid_report_desc with status 0: the data stage carried `data`. */
    method CompleteReportDesc(data: seq<Byte>)
      requires Valid() && Enabled(View(), DescArrives(data))
      modifies this
      ensures View() == Next(old(View()), DescArrives(data)) && Valid()
    {
      NextInv(View(), DescArrives(data));
      assert Sound(View(), ep0.dev);
      var u := ep0.dev;
      var hid := mem[u];
      hid := hid.(desc := hid.desc[..hid.offset] + data + hid.desc[hid.offset + |data|..],
                  accepted := hid.accepted + [data]);
      hid := hid.(offset := hid.offset + |data|);
      mem := mem[u := hid];
      ep0 := NoTransfer;
      if hid.offset == hid.declared {
        scheduled := true;
      }
    }

    /** kill_all_hid_devices. */
    method KillAllHidDevices()
      requires Valid()
      modifies this
      ensures View() == Next(old(View()), KillAll) && Valid()
    {
      NextInv(View(), KillAll);
      while live != []
        invariant View() == old(View()).(live := live, dead := dead)
        invariant L.Reversed(live) + dead == L.Reversed(old(live)) + old(dead)
        decreases |live|
      {
        L.ReversedStep(live, dead);
        dead := [live[0]] + dead;
        live := live[1..];
      }
      assert dead == L.Reversed(old(live)) + old(dead);
      while incoming != []
        invariant View() == old(View()).(live := [], dead := dead, incoming := incoming)
        invariant L.Reversed(incoming) + dead == L.Reversed(old(incoming)) + (L.Reversed(old(live)) + old(dead))
        decreases |incoming|
      {
        L.ReversedStep(incoming, dead);
        dead := [incoming[0]] + dead;
        incoming := incoming[1..];
      }
      scheduled := true;
    }

    /** The locked section at the start of acc_hid_work. */
    method WorkTakeLists()
      requires Valid() && scheduled && worker.Idle?
      modifies this
      ensures View() == Next(old(View()), WorkStart) && Valid()
    {
      NextInv(View(), WorkStart);
      ghost var ready := Ready(mem);
      ghost var waiting := Unready(mem);
      scheduled := false;
      var todo, stay, newList := incoming, [], [];
      while todo != []
        invariant View() == old(View()).(scheduled := false)
        invariant stay + L.Select(todo, waiting) == L.Select(old(incoming), waiting)
        invariant L.Reversed(L.Select(todo, ready)) + newList == L.Reversed(L.Select(old(incoming), ready))
        decreases |todo|
      {
        L.SelectStep(stay, todo, waiting);
        if todo[0] in mem && mem[todo[0]].offset == mem[todo[0]].declared {
          L.SelectReverseStep(todo, newList, ready);
          newList := [todo[0]] + newList;
        } else {
          assert L.Select(todo, ready) == L.Select(todo[1..], ready);
          stay := stay + [todo[0]];
        }
        todo := todo[1..];
      }
      assert stay + [] == stay && [] + newList == newList;
      incoming := stay;
      worker := Busy(newList, dead);
      dead := [];
    }

    /** One round of the registration loop; `ok` is whether hid_add_device succeeds. */
    method WorkRegisterOne(ok: bool)
      requires Valid() && Enabled(View(), WorkRegister(ok))
      modifies this
      ensures View() == Next(old(View()), WorkRegister(ok)) && Valid()
    {
      NextInv(View(), WorkRegister(ok));
      var u := worker.toRegister[0];
      assert Sound(View(), u);
      worker := worker.(toRegister := worker.toRegister[1..]);
      if !ok {
        Delete(u);
      } else {
        mem := mem[u := mem[u].(registered := true)];
        live := [u] + live;
      }
    }

    /** One round of the removal loop. */
    method WorkDestroyOne()
      requires Valid() && Enabled(View(), WorkReap)
      modifies this
      ensures View() == Next(old(View()), WorkReap) && Valid()
    {
      NextInv(View(), WorkReap);
      var u := worker.toDestroy[0];
      worker := worker.(toDestroy := worker.toDestroy[1..]);
      Delete(u);
    }

    /** cancel_work_sync in __put_acc_dev: it waits for a running worker, so none is running when it has an effect. */
    method CancelWork()
      requires Valid() && worker.Idle?
      modifies this
      ensures View() == Next(old(View()), WorkCancel) && Valid()
    {
      NextInv(View(), WorkCancel);
      scheduled := false;
    }

    /** acc_hid_delete. */
    method Delete(u: nat)
      modifies this
      ensures View() == Freed(old(View()), u)
    {
      mem := mem - {u};
      freed := freed + [u];
    }
  }
}
