# Verification of the wireless dongle's core

A Dafny model of the parts of the wireless Android Auto dongle that are hardest to get right, with proofs.

- **Accessory gadget driver** (C, added by the kernel patch). `KernelList` is the intrusive circular list on the heap,
  pointer by pointer. `HidDevices` is the state machine of the HID lists with the worker cut where it drops the lock,
  `HidDescriptor` the way of a report descriptor from the registration to the worker, and `HidDriver` the functions,
  each proved to be its step. `AccRefCount` is the reference-counted singleton at the
  grain of single atomic operations, with the functions beside it. `UsbTransfers` and `TxPool` are the transmit path:
  chunking, what the host sees, the shared pool, and `acc_write`. `RxRead` says what a call of `acc_read` gives and
  `RxPath` is `acc_read` with its completions.
  `UsbState` is the USB state notification of the configfs gadget.
- **A/B update**. `Cmdline` is the boot text and the two shell functions on it. `OtaBoot` is the protocol as a state
  machine that makes at most one persistent write a step, so that a power cut can fall between any two. `OtaScripts`
  has the three scripts as they are written, each proved to be a run of that machine.
- **Stream framing** (C++). `Sockets` is a descriptor that delivers its stream in arbitrary pieces. `ProxyFraming` is
  the forwarding of Android Auto frames, in both directions on top of the driver's model; `BluetoothFrames` the RFCOMM
  handshake.
- **Control channel** (C++). `JsonText` and `ControlChannel` are the JSON printer with a reader for it, and the line
  protocol from both ends; `MqttCommand` the command parser and the delivery of a command; `UeventParse` the loop that
  reads a uevent.

`Sequences` and `Errno` hold what several modules share. State that the source changes in place is a class whose methods
are proved against a specification function; what holds over whole runs is proved about that function.

Conventions of the model. Each locked section is one step. ep0 has one control transfer outstanding, and a HID device
is not freed while its transfer is. `usb_ep_dequeue` completes or gives back the request before it returns. Reads,
signals, the controller, other writers and the other thread are parameters that range over everything they may do.
The flags the driver reads without a lock are read and written one at a time.  A `Source` is reliable if no read fails.
An apply starts fairly if the boot text names the running slot and no tmpfs stands in for files out of which a rollback
from the running slot can come.

Where a natural claim is false of the code, the exact condition is proved and a concrete input is given:
`RegisterUnique` with `TwoLiveDevices` (two live HID devices with one id), `ServedExact` with `ForgottenDevice` (a
failed registration leaves its predecessor dead and the worker unscheduled), `TeardownExact` with `UnbindThenCancel`
(the last put cancels the worker that was to free the devices), `RegisterLoop` (a failed registration behind which one
succeeds), `EventsTellState` with `LostDisconnect` and `StrayDisconnect` (`android_work` reads the flag three times and
the disconnect callback takes another lock), `SplitExact` with `EmptyPayloadStops` (a bare header ends the forwarding),
`GapExact` with `SkippedFrame` (a write that returns 0 loses its frame and the loop goes on), `StreamExact` (short
writes), `StartExact` with `UnfairBricks` (an apply on a tmpfs, or after one that stopped short of its reboot),
`SwitchStartsTrial` with `UnguardedLosesTrial` (an apply that overlaps a confirmation can switch without a rollback
armed), `TextForm`, `JsonForm`, `OtaText` and `OtaForm` (which selectors and addresses survive the command parser),
`RollbackRestores`, `GetAfterSet` and `CollectExact`.

## Model

| member | source | states |
|---|---|---|
| KernelList.SpliceDead | aa_wireless_dongle/patches/linux/0001-Backport-and-apply-patches-for-Android-Accessory-mod.patch:1741-1750 | the hand-written splice: for every ring, the worker's local head becomes a well-formed doubly linked ring with the same nodes in the same order and the device's head an empty ring; the only conditions are that the local head is another object and not in the ring |
| KernelList.MoveAllToDead | aa_wireless_dongle/patches/linux/0001-Backport-and-apply-patches-for-Android-Accessory-mod.patch:1622-1631 | walking a ring with the safe iterator and pushing every element on another ring leaves the first empty and the second with the elements reversed in front of its own, all links intact |
| KernelList.MoveReady | aa_wireless_dongle/patches/linux/0001-Backport-and-apply-patches-for-Android-Accessory-mod.patch:1735-1739 | the scan of the new list: exactly the elements that satisfy the test end up on the local ring, in reverse order, and the others stay, in order |
| KernelList.Drain | aa_wireless_dongle/patches/linux/0001-Backport-and-apply-patches-for-Android-Accessory-mod.patch:1768-1774 | the removal loop visits every element once, in list order, and empties the ring |
| KernelList.RegisterLoop | aa_wireless_dongle/patches/linux/0001-Backport-and-apply-patches-for-Android-Accessory-mod.patch:1754-1765 | the registration loop on the heap: the added devices end up in front of the live list, the others are freed and stay linked; a list_move writes to a freed element if and only if some device that is added stands behind one that was not |
| KernelList.ListMove | aa_wireless_dongle/patches/linux/0001-Backport-and-apply-patches-for-Android-Accessory-mod.patch:1031 | list_move keeps both rings well formed: one loses exactly that element, the other gets it in front |
| KernelList.ListDel | aa_wireless_dongle/patches/linux/0001-Backport-and-apply-patches-for-Android-Accessory-mod.patch:1770 | list_del closes the ring around the element and poisons its links |
| KernelList.ListDelEntry | aa_wireless_dongle/patches/linux/0001-Backport-and-apply-patches-for-Android-Accessory-mod.patch:1031 | the unlinking inside list_move closes the ring around the element, whose own links stay |
| KernelList.ListAdd | aa_wireless_dongle/patches/linux/0001-Backport-and-apply-patches-for-Android-Accessory-mod.patch:1039 | list_add puts a node that is in no ring in front of a ring |
| KernelList.FindFirst | aa_wireless_dongle/patches/linux/0001-Backport-and-apply-patches-for-Android-Accessory-mod.patch:1005-1014 | the first element in list order that matches, or null exactly when none does |
| KernelList.ReversedAt | aa_wireless_dongle/patches/linux/0001-Backport-and-apply-patches-for-Android-Accessory-mod.patch:1622-1631 | position by position, what the reversal in the results above means |
| HidDevices.NextInv | aa_wireless_dongle/patches/linux/0001-Backport-and-apply-patches-for-Android-Accessory-mod.patch:1016-1066 | every locked section keeps the invariant: each created device is in exactly one of the five lists or freed once, is allocated exactly until freed, and its list's promise on descriptor and registration holds |
| HidDevices.Ownership | aa_wireless_dongle/patches/linux/0001-Backport-and-apply-patches-for-Android-Accessory-mod.patch:1719-1777 | over every interleaving from the start, with the worker cut at its lock releases: exactly one place per device; the received prefix of the descriptor is the concatenation of the accepted chunks and never longer than declared; only a whole descriptor is in the worker's hands or live; live means registered |
| HidDevices.DescInv | aa_wireless_dongle/patches/linux/0001-Backport-and-apply-patches-for-Android-Accessory-mod.patch:907-928 | a data stage of an accepted request stays within the declared length and extends the received prefix by exactly its bytes |
| HidDevices.StageStep | aa_wireless_dongle/patches/linux/0001-Backport-and-apply-patches-for-Android-Accessory-mod.patch:1719-1777 | one step moves a device only forward along new, being registered, live, dead, being destroyed, freed; live is reached only by the worker's registration and freed only from the worker's hands |
| HidDevices.StageRun | aa_wireless_dongle/patches/linux/0001-Backport-and-apply-patches-for-Android-Accessory-mod.patch:1719-1777 | over any run a device never goes back to an earlier stage |
| HidDevices.UnbindFreesAll | aa_wireless_dongle/patches/linux/0001-Backport-and-apply-patches-for-Android-Accessory-mod.patch:1638-1643 | from every reachable state with the worker and ep0 idle, kill_all_hid_devices followed by one uncut run of the worker, which destroys as many devices as were on the lists, frees every device ever created, each once |
| HidDevices.TeardownExact | aa_wireless_dongle/patches/linux/0001-Backport-and-apply-patches-for-Android-Accessory-mod.patch:738-751 | when the last put cancels the worker and frees the lists with the device, nothing leaks if and only if every list is empty |
| HidDevices.UnbindThenCancel | aa_wireless_dongle/patches/linux/0001-Backport-and-apply-patches-for-Android-Accessory-mod.patch:743-751 | an unbind followed at once by the last put: the worker that was scheduled never runs, and a device leaks exactly if there was one on a list |
| HidDevices.KeepsUnique | aa_wireless_dongle/patches/linux/0001-Backport-and-apply-patches-for-Android-Accessory-mod.patch:1047-1066 | no step other than a registration can give two addressable devices the same id |
| HidDevices.RegisterUnique | aa_wireless_dongle/patches/linux/0001-Backport-and-apply-patches-for-Android-Accessory-mod.patch:1025-1040 | a registration keeps ids unique if and only if it creates nothing or the worker is not between taking and registering a device with that id |
| HidDevices.TwoLiveDevices | aa_wireless_dongle/patches/linux/0001-Backport-and-apply-patches-for-Android-Accessory-mod.patch:1752-1765 | a concrete run in which that condition fails and two devices with one id end up live |
| HidDevices.ServedExact | aa_wireless_dongle/patches/linux/0001-Backport-and-apply-patches-for-Android-Accessory-mod.patch:1025-1043 | a step leaves a dead or complete device with no work scheduled if and only if it is a registration that retires the old device, finds no memory and returns with the worker not scheduled, or the cancellation at the last put of a worker that has still something to do |
| HidDevices.ServedRun | aa_wireless_dongle/patches/linux/0001-Backport-and-apply-patches-for-Android-Accessory-mod.patch:1719-1777 | over every run in which allocations succeed and the worker is not cancelled, whatever the worker would find to do it is scheduled to do |
| HidDevices.ForgottenDevice | aa_wireless_dongle/patches/linux/0001-Backport-and-apply-patches-for-Android-Accessory-mod.patch:1033-1037 | a concrete run to a device on the dead list that nothing is scheduled to destroy |
| HidDevices.Find | aa_wireless_dongle/patches/linux/0001-Backport-and-apply-patches-for-Android-Accessory-mod.patch:1005-1014 | the position is that of the first device with the id; the length of the list means that there is none |
| HidDescriptor.RegisterGives | aa_wireless_dongle/patches/linux/0001-Backport-and-apply-patches-for-Android-Accessory-mod.patch:985-1003 | an accepted registration puts exactly one new device in front of those that wait, with that id, exactly the length asked for and nothing received; all else is as after the retirement of the predecessor, and the worker is scheduled |
| HidDescriptor.RegisterFails | aa_wireless_dongle/patches/linux/0001-Backport-and-apply-patches-for-Android-Accessory-mod.patch:1021-1037 | without a length nothing changes; without memory the predecessor is retired all the same |
| HidDescriptor.UnregisterExact | aa_wireless_dongle/patches/linux/0001-Backport-and-apply-patches-for-Android-Accessory-mod.patch:1047-1066 | the first live device with the id, or else the first that waits, goes to the front of the dead list and the worker is scheduled; nothing changes if no list has the id |
| HidDescriptor.RequestExact | aa_wireless_dongle/patches/linux/0001-Backport-and-apply-patches-for-Android-Accessory-mod.patch:1458-1474 | a SET_HID_REPORT_DESC is accepted if and only if the first waiting device with the id has received as many bytes as the request's offset and has room for what it announces; otherwise nothing changes |
| HidDescriptor.InputExact | aa_wireless_dongle/patches/linux/0001-Backport-and-apply-patches-for-Android-Accessory-mod.patch:1475-1486 | SEND_HID_EVENT addresses the first live device with the id |
| HidDescriptor.TransferOver | aa_wireless_dongle/patches/linux/0001-Backport-and-apply-patches-for-Android-Accessory-mod.patch:907-942 | a control transfer that fails, or that carries an input report, changes nothing but that it is over |
| HidDescriptor.WaitsStep | aa_wireless_dongle/patches/linux/0001-Backport-and-apply-patches-for-Android-Accessory-mod.patch:907-928 | whatever step comes in between, a device whose descriptor is incomplete keeps waiting, first of its id, with what it has received, and only a data stage for it adds to that, at the end |
| HidDescriptor.WaitsRun | aa_wireless_dongle/patches/linux/0001-Backport-and-apply-patches-for-Android-Accessory-mod.patch:907-928 | the same over every run in which the id is not registered or unregistered again and the lists are not killed |
| HidDescriptor.WorkTakes | aa_wireless_dongle/patches/linux/0001-Backport-and-apply-patches-for-Android-Accessory-mod.patch:1732-1752 | the next start of the worker takes a device whose descriptor is complete, with exactly the bytes received |
| HidDescriptor.FeedRun | aa_wireless_dongle/patches/linux/0001-Backport-and-apply-patches-for-Android-Accessory-mod.patch:1458-1474 | for every way of cutting what is missing of a descriptor into pieces, the requests that send them are all accepted and the device ends up with the whole descriptor |
| HidDescriptor.Assembled | aa_wireless_dongle/patches/linux/0001-Backport-and-apply-patches-for-Android-Accessory-mod.patch:1016-1045 | for every descriptor and every way of cutting it: registration with its length, the requests with its pieces and one start of the worker give the worker a new device with that id and exactly that descriptor |
| HidDescriptor.AssembledAmong | aa_wireless_dongle/patches/linux/0001-Backport-and-apply-patches-for-Android-Accessory-mod.patch:907-928 | the same with anything else happening between the requests: the piece that completes the descriptor schedules the worker, which takes the device with exactly the bytes sent for it, in their order |
| HidDriver.AccHid.RegisterHid | aa_wireless_dongle/patches/linux/0001-Backport-and-apply-patches-for-Android-Accessory-mod.patch:1016-1045 | acc_register_hid is the Register step (HidDescriptor.RegisterGives says what that is), with its three results |
| HidDriver.AccHid.UnregisterHid | aa_wireless_dongle/patches/linux/0001-Backport-and-apply-patches-for-Android-Accessory-mod.patch:1047-1066 | acc_unregister_hid is the Unregister step; -EINVAL exactly when no list has the id |
| HidDriver.AccHid.SetReportDesc | aa_wireless_dongle/patches/linux/0001-Backport-and-apply-patches-for-Android-Accessory-mod.patch:1458-1474 | a SET_HID_REPORT_DESC request is accepted exactly when a waiting device has the id, the offset is what it has received and the chunk fits |
| HidDriver.AccHid.CompleteReportDesc | aa_wireless_dongle/patches/linux/0001-Backport-and-apply-patches-for-Android-Accessory-mod.patch:907-928 | the completion is the DescArrives step |
| HidDriver.AccHid.KillAllHidDevices | aa_wireless_dongle/patches/linux/0001-Backport-and-apply-patches-for-Android-Accessory-mod.patch:1614-1635 | both loops together are the KillAll step |
| HidDriver.AccHid.WorkTakeLists | aa_wireless_dongle/patches/linux/0001-Backport-and-apply-patches-for-Android-Accessory-mod.patch:1732-1752 | the locked section of the worker is the WorkStart step |
| HidDriver.AccHid.WorkRegisterOne | aa_wireless_dongle/patches/linux/0001-Backport-and-apply-patches-for-Android-Accessory-mod.patch:1755-1765 | one round of the registration loop, on success and on failure, with a device that fails gone from the local list (KernelList.RegisterLoop has it still linked) |
| HidDriver.AccHid.WorkDestroyOne | aa_wireless_dongle/patches/linux/0001-Backport-and-apply-patches-for-Android-Accessory-mod.patch:1768-1774 | one round of the removal loop |
| HidDriver.AccHid.CancelWork | aa_wireless_dongle/patches/linux/0001-Backport-and-apply-patches-for-Android-Accessory-mod.patch:747 | cancelling the worker is the WorkCancel step |
| HidDriver.AccHid.Get | aa_wireless_dongle/patches/linux/0001-Backport-and-apply-patches-for-Android-Accessory-mod.patch:1005-1014 | the list walk computes Find |
| AccRefCount.NextInv | aa_wireless_dongle/patches/linux/0001-Backport-and-apply-patches-for-Android-Accessory-mod.patch:722-759 | every atomic operation on the count and the pointer keeps the protocol invariant |
| AccRefCount.Protocol | aa_wireless_dongle/patches/linux/0001-Backport-and-apply-patches-for-Android-Accessory-mod.patch:722-759 | in every interleaving: the count is instance + functions + open file + transient references; a referenced device is the current one and is not freed, so no two devices are in use; nothing is freed twice, and a device that was in use is freed only after its count went to zero once |
| AccRefCount.SetupAlone | aa_wireless_dongle/patches/linux/0001-Backport-and-apply-patches-for-Android-Accessory-mod.patch:1855-1874 | acc_setup publishes only while the pointer is empty and nobody refers to any device; between the count reaching zero and the pointer being cleared a second setup frees its own device again |
| AccRefCount.NothingLeaks | aa_wireless_dongle/patches/linux/0001-Backport-and-apply-patches-for-Android-Accessory-mod.patch:738-751 | once every reference is let go and every teardown has finished, each device ever allocated has been freed exactly once |
| AccRefCount.ZeroIsFinal | aa_wireless_dongle/patches/linux/0001-Backport-and-apply-patches-for-Android-Accessory-mod.patch:753-759 | a device whose count has reached zero is never referenced again, and the count never reaches zero a second time for it |
| AccRefCount.AccDevRef.GetAccDev | aa_wireless_dongle/patches/linux/0001-Backport-and-apply-patches-for-Android-Accessory-mod.patch:731-736 | nothing at count zero, otherwise one more reference to the one device |
| AccRefCount.AccDevRef.PutAccDev | aa_wireless_dongle/patches/linux/0001-Backport-and-apply-patches-for-Android-Accessory-mod.patch:753-759 | one reference less; the last one clears the pointer and frees the device, once |
| AccRefCount.AccDevRef.AccSetup | aa_wireless_dongle/patches/linux/0001-Backport-and-apply-patches-for-Android-Accessory-mod.patch:1831-1876 | each error of acc_setup, what it leaves unchanged, and that a device it allocated in vain is freed |
| AccRefCount.AccDevRef.AccOpen | aa_wireless_dongle/patches/linux/0001-Backport-and-apply-patches-for-Android-Accessory-mod.patch:1331-1346 | -ENODEV, -EBUSY or one file with one reference; a failed open leaves the protocol state unchanged |
| AccRefCount.AccDevRef.AccRelease | aa_wireless_dongle/patches/linux/0001-Backport-and-apply-patches-for-Android-Accessory-mod.patch:1348-1364 | -ENOENT and no change for a file without private data; otherwise gives up the file and its reference, and the last one frees the device |
| AccRefCount.AccDevRef.AccAlloc | aa_wireless_dongle/patches/linux/0001-Backport-and-apply-patches-for-Android-Accessory-mod.patch:1991-2009 | an instance guarantees that there is a device, and the function keeps one reference to it |
| AccRefCount.AccDevRef.AccFree | aa_wireless_dongle/patches/linux/0001-Backport-and-apply-patches-for-Android-Accessory-mod.patch:1976-1981 | gives up one function's reference |
| AccRefCount.AccDevRef.AccCleanup | aa_wireless_dongle/patches/linux/0001-Backport-and-apply-patches-for-Android-Accessory-mod.patch:1891-1898 | the transient and the instance's reference go; the device stays exactly while functions or the file need it |
| TxPool.NextConserves | aa_wireless_dongle/patches/linux/0001-Backport-and-apply-patches-for-Android-Accessory-mod.patch:792-840 | every step of any writer, the controller or the function keeps each of the 4 requests in exactly one of idle, queued and held, with no two writers sharing one |
| TxPool.PoolConserved | aa_wireless_dongle/patches/linux/0001-Backport-and-apply-patches-for-Android-Accessory-mod.patch:1097-1104 | conservation over a whole bind epoch, for any interleaving of any number of writers |
| TxPool.TxPort.AccWrite | aa_wireless_dongle/patches/linux/0001-Backport-and-apply-patches-for-Android-Accessory-mod.patch:1222-1290 | exactly what a write does, for every environment, with each read of shared state a step of its own: the requests queued are a prefix of its chunks, each from a round that queues; the first round that does not decides the result and the state of the pool; all are queued exactly when the count is returned for a non-empty write; each result has its cause, and the writer ends with no request in its hand |
| TxPool.TxPort.WaitForRequest | aa_wireless_dongle/patches/linux/0001-Backport-and-apply-patches-for-Android-Accessory-mod.patch:1241-1242 | the wait, with its condition read in two steps: it ends with a request exactly if one is idle at the last req_get; otherwise the result is 0 or -ERESTARTSYS by whether the function is then found offline or online |
| TxPool.TxPort.TestFlags | aa_wireless_dongle/patches/linux/0001-Backport-and-apply-patches-for-Android-Accessory-mod.patch:1243 | the test of the two flags, in two reads with anything in between |
| TxPool.TxPort.WriteRound | aa_wireless_dongle/patches/linux/0001-Backport-and-apply-patches-for-Android-Accessory-mod.patch:1238-1287 | one pass of the loop and the tail: its outcome and the pool it leaves, as functions of the pool it found and of what happens between one read of shared state and the next |
| TxPool.ZeroExact | aa_wireless_dongle/patches/linux/0001-Backport-and-apply-patches-for-Android-Accessory-mod.patch:1241-1252 | a round makes the write return 0 if and only if no request is idle at the last req_get of the wait, the function is offline when the wait condition then looks, and the test finds it online and not disconnected |
| TxPool.SignalExact | aa_wireless_dongle/patches/linux/0001-Backport-and-apply-patches-for-Android-Accessory-mod.patch:1241-1252 | and -ERESTARTSYS if and only if the same holds with the function online when the condition looks |
| TxPool.RoundExact | aa_wireless_dongle/patches/linux/0001-Backport-and-apply-patches-for-Android-Accessory-mod.patch:1243-1276 | a round queues its request if and only if one was idle, the flags allow it and both copying and queueing work; it ends the write with -EFAULT if and only if only the copy failed, and with -EIO if and only if the flags forbid it or the copied request could not be queued |
| TxPool.RoundRequest | aa_wireless_dongle/patches/linux/0001-Backport-and-apply-patches-for-Android-Accessory-mod.patch:1270-1287 | the request a round has taken is queued if the round queues it and goes back to the idle ones if not; a round that has taken none leaves the pool alone |
| TxPool.ZeroNeedsSetAlt | aa_wireless_dongle/patches/linux/0001-Backport-and-apply-patches-for-Android-Accessory-mod.patch:1241-1252 | which takes the write of online in acc_function_set_alt between the wait and the test |
| UsbTransfers.ChunksCarry | aa_wireless_dongle/patches/linux/0001-Backport-and-apply-patches-for-Android-Accessory-mod.patch:1254-1283 | the requests of a write concatenate to the data; there are ceil(n / 16384) of them; all but the last are full and ask for no zero-length packet, the last is not empty and asks for one exactly when its size is a multiple of the packet size |
| UsbTransfers.PayloadPrefix | aa_wireless_dongle/patches/linux/0001-Backport-and-apply-patches-for-Android-Accessory-mod.patch:1238-1283 | an interrupted write has queued a prefix of the data |
| UsbTransfers.HostPackets | aa_wireless_dongle/patches/linux/0001-Backport-and-apply-patches-for-Android-Accessory-mod.patch:1260-1264 | how the host reads one request: whole packets only leave its message open, anything else closes it |
| UsbTransfers.HostWrite | aa_wireless_dongle/patches/linux/0001-Backport-and-apply-patches-for-Android-Accessory-mod.patch:1254-1264 | one write is one message at the host, whatever its length |
| UsbTransfers.HostSeesWrites | aa_wireless_dongle/patches/linux/0001-Backport-and-apply-patches-for-Android-Accessory-mod.patch:1254-1264 | the host recovers any sequence of non-empty writes, in order and unmerged (section 5.8.3 of the USB 2.0 specification) |
| RxRead.RoundUpFits | aa_wireless_dongle/patches/linux/0001-Backport-and-apply-patches-for-Android-Accessory-mod.patch:1161-1168 | the requested length is the smallest multiple of the packet size that holds what the reader wants, and at most the buffer |
| RxRead.OnlineWaitExact | aa_wireless_dongle/patches/linux/0001-Backport-and-apply-patches-for-Android-Accessory-mod.patch:1149-1153 | the wait for the function succeeds if and only if it is online or is set online ahead of any signal |
| RxRead.TurnExact | aa_wireless_dongle/patches/linux/0001-Backport-and-apply-patches-for-Android-Accessory-mod.patch:1176-1216 | for every result of one turn of acc_read, exactly when it has it: data if and only if the request was queued and completed with some, ahead of any signal, with the function then online and copying working; -EIO, -ERESTARTSYS, -EFAULT and another turn likewise |
| RxRead.TurnsExact | aa_wireless_dongle/patches/linux/0001-Backport-and-apply-patches-for-Android-Accessory-mod.patch:1176-1216 | for any number of turns: some bring only a zero-length packet with the function online, and the first that does not decides the result of the call by the same conditions, with the data it brings cut to what was asked for |
| RxRead.ReadExact | aa_wireless_dongle/patches/linux/0001-Backport-and-apply-patches-for-Android-Accessory-mod.patch:1137-1174 | exactly how a call ends before its turns: -ENODEV if and only if it begins disconnected, -ERESTARTSYS if the wait for the function is interrupted, and the data, -EIO or -EFAULT if a completion is already there |
| RxRead.ReadDelivers | aa_wireless_dongle/patches/linux/0001-Backport-and-apply-patches-for-Android-Accessory-mod.patch:1137-1216 | a full-buffer read on a function that stays online and connected with copying working returns the message that waits, whole, whatever else happens; and if none waits, the first that fits and arrives ahead of a signal or a failed queueing, even behind zero-length packets |
| RxRead.PartKept | aa_wireless_dongle/patches/linux/0001-Backport-and-apply-patches-for-Android-Accessory-mod.patch:1189-1199 | an interrupted read loses nothing: what had arrived when its request was dequeued is what the next read returns |
| RxRead.ReadsDeliver | aa_wireless_dongle/patches/linux/0001-Backport-and-apply-patches-for-Android-Accessory-mod.patch:1127-1220 | so many such reads return so many messages, exactly these and in this order |
| RxPath.RxPort.AccRead | aa_wireless_dongle/patches/linux/0001-Backport-and-apply-patches-for-Android-Accessory-mod.patch:1127-1220 | acc_read as written computes the result, the data and the port that RxRead.ReadEnd gives for every environment; it takes at most one completion and returns its first bytes, all of them with a full buffer; zero-length packets are never reported; while the function stays online and copying works, an interrupted or failed read takes nothing |
| RxPath.RxPort.FullRead | aa_wireless_dongle/patches/linux/0001-Backport-and-apply-patches-for-Android-Accessory-mod.patch:1127-1220 | a full-buffer read, whatever happened before it, returns the next message whole, takes nothing, or loses one; it loses one only if the function goes offline during it or copying fails |
| RxPath.RxPort.CopyData | aa_wireless_dongle/patches/linux/0001-Backport-and-apply-patches-for-Android-Accessory-mod.patch:1202-1216 | the completed request meets exactly one fate: returned, thrown back because it is empty, or lost offline or in a failed copy |
| RxPath.RxPort.Requeue | aa_wireless_dongle/patches/linux/0001-Backport-and-apply-patches-for-Android-Accessory-mod.patch:1176-1200 | an interrupted wait leaves no request with the controller, and a completion that slipped in stays for the next read |
| RxPath.RxPort.Complete | aa_wireless_dongle/patches/linux/0001-Backport-and-apply-patches-for-Android-Accessory-mod.patch:842-857 | a completion is recorded once and marks the request done |
| RxPath.RxPort.ReadMany | aa_wireless_dongle/patches/linux/0001-Backport-and-apply-patches-for-Android-Accessory-mod.patch:1127-1220 | any number of full-buffer reads, interrupted or not, during which the function stays online, whatever it does between them: what they return, and a completion still waiting, is exactly what was received, each once, in order and whole; and calls that each bring a message return exactly these messages |
| ProxyFraming.ReadFully | aa_wireless_dongle/package/aawg/src/proxyHandler.cpp:23-38 | the n bytes asked for, under any chunking, at their place in the buffer and nowhere else; less only at an error or the end of the stream |
| ProxyFraming.ReadMessage | aa_wireless_dongle/package/aawg/src/proxyHandler.cpp:40-66 | for every frame of the protocol, whatever follows it: on a reliable stream it is read whole and nothing behind it if it fits the 16384-byte buffer and is more than four bytes, 0 is returned if it is a bare header, and -1 if it does not fit; and success, on any stream, means that the frame at its front is in the buffer and exactly that has been consumed |
| ProxyFraming.FrameSize | aa_wireless_dongle/package/aawg/src/proxyHandler.cpp:46-55 | a frame built from its fields (channel, flags, big-endian payload length, four bytes of total length if it is first and not last, payload), with all other flag bits free: its size is read off its header, whatever follows |
| ProxyFraming.SplitStream | aa_wireless_dongle/package/aawg/src/proxyHandler.cpp:40-66 | for every sequence of such frames: the proxy recovers them from their concatenation if and only if each has something behind its first four bytes and at most 16384 bytes in all |
| ProxyFraming.SplitFrames | aa_wireless_dongle/package/aawg/src/proxyHandler.cpp:40-66 | for any sequence of frames the stream is split into the frames up to the first that cannot be forwarded |
| ProxyFraming.SplitExact | aa_wireless_dongle/package/aawg/src/proxyHandler.cpp:40-66 | splitting gives back the frames if and only if each fits the buffer and is more than a bare header |
| ProxyFraming.EmptyPayloadStops | aa_wireless_dongle/package/aawg/src/proxyHandler.cpp:61-63 | a frame with an empty payload ends the forwarding, and a good frame behind it is lost |
| ProxyFraming.ForwardToUsb | aa_wireless_dongle/package/aawg/src/proxyHandler.cpp:68-137 | on the driver's transmit path, with any chunking and any interruption: each result is that of acc_write on the pool as it then is; the USB requests queued are exactly those of the frames whose write succeeded, in order; if the function never blinks while a write waits, the delivered frames are the beginning of the stream, and nothing is delivered behind a gap if and only if no blink is followed by a successful write; on a reliable stream every frame is tried unless a write fails or should_exit is set; at most one write begins after should_exit is set |
| ProxyFraming.SkipExact | aa_wireless_dongle/package/aawg/src/proxyHandler.cpp:118-131 | a frame is skipped if and only if no request is idle when its write asks for one, the function is offline when the wait condition then looks, and it is usable again when the flags are tested |
| ProxyFraming.GapExact | aa_wireless_dongle/package/aawg/src/proxyHandler.cpp:118-137 | a frame is delivered behind one that was not if and only if such a blink is followed by a write that succeeds |
| ProxyFraming.GapFreePrefix | aa_wireless_dongle/package/aawg/src/proxyHandler.cpp:118-137 | without a gap the delivered frames are the first frames of the stream |
| ProxyFraming.SkippedFrame | aa_wireless_dongle/package/aawg/src/proxyHandler.cpp:118-137 | a concrete run: two frames, one blink; the first write returns 0 although a request has become idle, the first frame is lost and the second is sent |
| ProxyFraming.WriteFrame | aa_wireless_dongle/patches/linux/0001-Backport-and-apply-patches-for-Android-Accessory-mod.patch:1222-1290 | the write of one frame: one request or none, and the result as a function of the pool and the environment |
| ProxyFraming.ForwardToTcp | aa_wireless_dongle/package/aawg/src/proxyHandler.cpp:68-137 | on the driver's receive path, whatever happens to the function during the reads and between them: what is written, what is dropped, what a read lost and what is still pending are exactly what was received; of each written message the stream gets what the socket took; at most one message is dropped or lost; nothing is dropped without a failed write or should_exit, and nothing lost while the function stays online during reads and copying works; at most one late write; what goes out is what the reads return up to the first that fails, all of it unless should_exit or the socket stops the thread; so on a port that is ready, calls that bring messages put exactly these on the stream |
| ProxyFraming.StreamExact | aa_wireless_dongle/package/aawg/src/proxyHandler.cpp:118-134 | a short write is not repeated: the TCP stream carries the written messages whole if and only if no write was short |
| ProxyFraming.OneRequestEach | aa_wireless_dongle/patches/linux/0001-Backport-and-apply-patches-for-Android-Accessory-mod.patch:1254-1264 | every forwarded frame becomes exactly one USB request |
| ProxyFraming.EndToEnd | aa_wireless_dongle/package/aawg/src/proxyHandler.cpp:96-137 | phone frames through the stream, the proxy, acc_write and the packets: the host gets exactly the delivered frames, each one request and one message, and all of them if every write was whole |
| ProxyFraming.AllDelivered | aa_wireless_dongle/package/aawg/src/proxyHandler.cpp:118-131 | when every write reports its whole frame, the delivered frames are all that were tried |
| BluetoothFrames.RoundTrip | aa_wireless_dongle/package/aawg/src/bluetoothProfiles.cpp:128-191 | for every id and every body up to 65531 bytes, reading recovers id and body and stops at the byte behind the message |
| BluetoothFrames.WireBytes | aa_wireless_dongle/package/aawg/src/bluetoothProfiles.cpp:128-152 | length and id are big-endian words, and the length counts the body only |
| BluetoothFrames.SendMessage | aa_wireless_dongle/package/aawg/src/bluetoothProfiles.cpp:128-152 | the buffer filled at offsets 0, 2 and 4 is the encoded message |
| BluetoothFrames.ReadFully | aa_wireless_dongle/package/aawg/src/bluetoothProfiles.cpp:19-32 | as much as there is up to n, under any chunking |
| BluetoothFrames.ReadMessage | aa_wireless_dongle/package/aawg/src/bluetoothProfiles.cpp:154-191 | the id of the next message and exactly its bytes consumed; Invalid on a reliable stream exactly when no whole message is left |
| BluetoothFrames.DiscardExact | aa_wireless_dongle/package/aawg/src/bluetoothProfiles.cpp:85-93 | however many other messages come first, discarding stops exactly behind the first WifiStartResponse |
| BluetoothFrames.DiscardAll | aa_wireless_dongle/package/aawg/src/bluetoothProfiles.cpp:85-93 | without one, it runs to the end of the stream and reports failure |
| BluetoothFrames.DiscardUntilStart | aa_wireless_dongle/package/aawg/src/bluetoothProfiles.cpp:85-93 | the loop computes that, and ends |
| BluetoothFrames.Launch | aa_wireless_dongle/package/aawg/src/bluetoothProfiles.cpp:48-94 | which messages are sent and when the handshake succeeds, both exactly, from the bytes the phone sends; and the shortest conversation that succeeds, byte by byte |
| JsonText.JsonEscape | aa_wireless_dongle/package/aawg/src/controlSocket.cpp:33-46 | the loop computes the escaped form |
| JsonText.EscapeTable | aa_wireless_dongle/package/aawg/src/controlSocket.cpp:33-46 | the five escapes, character by character; every other character stands for itself |
| JsonText.ReadEscaped | aa_wireless_dongle/package/aawg/src/controlSocket.cpp:33-46 | reading a string up to its closing quote undoes escaping for every string, whatever follows |
| JsonText.EscapeInjective | aa_wireless_dongle/package/aawg/src/controlSocket.cpp:33-46 | no two strings have the same escaped form |
| JsonText.EscapeWell | aa_wireless_dongle/package/aawg/src/controlSocket.cpp:33-46 | every escaped form is a text of plain characters and the five escapes (section 7 of RFC 8259, without the others) |
| JsonText.ReadWell | aa_wireless_dongle/package/aawg/src/controlSocket.cpp:33-46 | and on every such text escaping undoes reading, so the inverse is exact |
| JsonText.EscapeNoNewline | aa_wireless_dongle/package/aawg/src/controlSocket.cpp:39 | an escaped string has no newline |
| ControlChannel.ListResponse | aa_wireless_dongle/package/aawg/src/controlSocket.cpp:103-141 | the LIST branch, appended piece by piece, is the printed form of the status |
| ControlChannel.ListText | aa_wireless_dongle/package/aawg/src/controlSocket.cpp:114-140 | the printed text of a status without devices, key by key |
| ControlChannel.DeviceText | aa_wireless_dongle/package/aawg/src/controlSocket.cpp:130-138 | the printed text of one device, key by key |
| ControlChannel.SlotExact | aa_wireless_dongle/package/aawg/src/controlSocket.cpp:107-109 | A and B if and only if the root is the one or the other system partition, the same two as in the update protocol, and unknown for every other |
| ControlChannel.HandleCommand | aa_wireless_dongle/package/aawg/src/controlSocket.cpp:97-158 | LIST, DISCONNECT and SWITCH with any selector take their branches and no other line does; the answer of each, always one line |
| ControlChannel.AskStatus | aa_wireless_dongle/package/aawg/src/mqttBridge.cpp:48-79 | LIST from end to end: request and answer in any pieces, and every field of the status is read back, if the answer fits the client's limit |
| ControlChannel.ListRead | aa_wireless_dongle/package/aawg/src/controlSocket.cpp:114-140 | a reader recovers every field of every device and of the build and root information, for arbitrary strings and any number of devices |
| ControlChannel.DevicesRead | aa_wireless_dongle/package/aawg/src/controlSocket.cpp:127-139 | the device array read back, by induction on the devices |
| ControlChannel.ListLine | aa_wireless_dongle/package/aawg/src/controlSocket.cpp:114-140 | the response has exactly one newline, at its end |
| ControlChannel.CollectWhole | aa_wireless_dongle/package/aawg/src/mqttBridge.cpp:69-77 | a line that fits is collected whole, however it is cut |
| ControlChannel.CollectExact | aa_wireless_dongle/package/aawg/src/mqttBridge.cpp:69-77 | a line arrives whole under every chunking if and only if it has at most limit characters before its newline |
| ControlChannel.ReadPieces | aa_wireless_dongle/package/aawg/src/controlSocket.cpp:202-216 | the read loop is that collection, for any pieces the descriptor delivers |
| ControlChannel.ClientRead | aa_wireless_dongle/package/aawg/src/mqttBridge.cpp:69-79 | the client gets a whole response of up to 64 KiB and its newline |
| ControlChannel.ServerReadLine | aa_wireless_dongle/package/aawg/src/controlSocket.cpp:199-221 | the server takes any command of up to 4096 characters unchanged, but for one carriage return in front of the newline, which is dropped |
| ControlChannel.RequestLine | aa_wireless_dongle/package/aawg/src/mqttBridge.cpp:62-64 | the client's framing makes a command exactly one line |
| MqttCommand.ParseCommandLine | aa_wireless_dongle/package/aawg/src/mqttBridge.cpp:113-171 | the parser, branch by branch, with find as first occurrence |
| MqttCommand.Find | aa_wireless_dongle/package/aawg/src/mqttBridge.cpp:133-135 | std::string::find: the first occurrence at or behind a position, or none |
| MqttCommand.QuotedValue | aa_wireless_dongle/package/aawg/src/mqttBridge.cpp:133-149 | the quoted value behind a key; empty and unquoted values do not count |
| MqttCommand.ValueFound | aa_wireless_dongle/package/aawg/src/mqttBridge.cpp:133-149 | a value is found behind the first place of its key, whatever stands in between up to the colon and however many blanks follow that |
| MqttCommand.ValueParts | aa_wireless_dongle/package/aawg/src/mqttBridge.cpp:133-149 | and whenever one is found the text has that form, so the search is exact |
| MqttCommand.TrimAround | aa_wireless_dongle/package/aawg/src/mqttBridge.cpp:121-123 | blanks in front of a payload and line breaks behind it never matter |
| MqttCommand.ParseExact | aa_wireless_dongle/package/aawg/src/mqttBridge.cpp:125-170 | exactly which payloads disconnect, which switch and to what, and which start an update and from where |
| MqttCommand.DisconnectForms | aa_wireless_dongle/package/aawg/src/mqttBridge.cpp:125-132 | both forms of `disconnect` |
| MqttCommand.OtaText | aa_wireless_dongle/package/aawg/src/mqttBridge.cpp:127 | `ota <url>` reaches the same address if and only if it does not end in a line break |
| MqttCommand.OtaForm | aa_wireless_dongle/package/aawg/src/mqttBridge.cpp:152-168 | the JSON form of an update reaches the same address if and only if that is not empty, has no quote and contains neither `disconnect` nor `switch` |
| MqttCommand.TextForm | aa_wireless_dongle/package/aawg/src/mqttBridge.cpp:121-126 | `switch <selector>` reaches the same selector if and only if it does not end in a line break |
| MqttCommand.JsonForm | aa_wireless_dongle/package/aawg/src/mqttBridge.cpp:128-150 | the JSON form reaches the same selector if and only if it is not empty, has no quote and does not contain `disconnect`; one that does disconnects instead |
| MqttCommand.SwitchLine | aa_wireless_dongle/package/aawg/src/mqttBridge.cpp:113-150 | for deliverable selectors both forms parse to one line, which survives trimming and dispatches to that selector |
| MqttCommand.Deliver | aa_wireless_dongle/package/aawg/src/mqttBridge.cpp:173-201 | from the payload through framing, the socket in any pieces, the server's loop and dispatch: the command that arrives switches to the selector that was asked for, or disconnects; nothing is sent if and only if the payload is no command or an update |
| Cmdline.SetRootTokens | aa_wireless_dongle/board/common/rootfs_overlay/etc/init.d/S05ota_bootstate:43-53 | rewriting replaces exactly the root= tokens and keeps all others, and the order |
| Cmdline.SetRootLine | aa_wireless_dongle/board/common/rootfs_overlay/etc/init.d/S05ota_bootstate:43-53 | for every text and every root without white space the text written is one line (one line break, at the end; no tab, no blank at either end, no two blanks in a row), and the only such line with its tokens |
| Cmdline.OneLineUnique | aa_wireless_dongle/board/common/rootfs_overlay/etc/init.d/S05ota_bootstate:51-53 | two such lines with the same tokens are the same text |
| Cmdline.WordsSplit | aa_wireless_dongle/board/common/rootfs_overlay/etc/init.d/S05ota_bootstate:45 | the shell's word splitting: white space anywhere separates and is part of no token |
| Cmdline.OneWord | aa_wireless_dongle/board/common/rootfs_overlay/etc/init.d/S05ota_bootstate:45 | and a text without white space is one token |
| Cmdline.FirstRoot | aa_wireless_dongle/board/common/rootfs_overlay/etc/init.d/S05ota_bootstate:13-21 | get_root_dev returns the value of the first root= token |
| Cmdline.SetRootTwice | aa_wireless_dongle/board/common/rootfs_overlay/etc/init.d/S05ota_bootstate:43-53 | the last root written wins as a text, so writing the same root again changes nothing |
| Cmdline.GetAfterSet | aa_wireless_dongle/board/common/rootfs_overlay/etc/init.d/S05ota_bootstate:13-21 | get_root_dev reads back the new root if and only if there was a root= token |
| Cmdline.RollbackRestores | aa_wireless_dongle/board/common/rootfs_overlay/etc/init.d/S05ota_bootstate:89-91 | a switch and a rollback restore the token list if and only if every root= token named the root rolled back to |
| Cmdline.SetCmdlineRoot | aa_wireless_dongle/board/common/rootfs_overlay/etc/init.d/S05ota_bootstate:43-53 | the loop computes the rewritten text |
| Cmdline.GetRootDev | aa_wireless_dongle/board/common/rootfs_overlay/etc/init.d/S05ota_bootstate:13-21 | the loop returns the value of the first root= token, or fails |
| OtaBoot.NextSafe | aa_wireless_dongle/board/common/rootfs_overlay/usr/bin/aawg-ota-apply:57-108 | every step and every power cut between any two writes keeps the device bootable, if applies start fairly |
| OtaBoot.AlwaysBootable | aa_wireless_dongle/board/common/rootfs_overlay/usr/bin/aawg-ota-apply:57-108 | in every interleaving of power cuts, failed and cut-short applies, and boots on a tmpfs or without /persist, with apply, boot counting, rollback and confirm, if applies start fairly: the boot text names a slot with a whole image, and a slot losing its image is neither the running one nor the one the boot text names |
| OtaBoot.StartExact | aa_wireless_dongle/board/common/rootfs_overlay/usr/bin/aawg-ota-apply:57-108 | from every safe state, an apply may start, without any continuation of it by crashes and boots ending in a boot text that names a slot without an image, if and only if the boot text names the running slot and no tmpfs hides files out of which a rollback from the running slot can come (pending, with it as target and another previous root) |
| OtaBoot.UnfairBricks | aa_wireless_dongle/board/common/rootfs_overlay/etc/init.d/rcS:15-18 | from every state in which that fails, a run to such a boot text: through an apply after one that stopped between the boot text and its reboot, or through an apply on a tmpfs, a power cut and the rollback that the files on the disk ask for |
| OtaBoot.RollsBack | aa_wireless_dongle/board/common/rootfs_overlay/etc/init.d/S05ota_bootstate:80-97 | a run of whole boots without a confirmation: after exactly as many boots let through as are left the trial ends with the boot text naming the other slot |
| OtaBoot.BootTextKept | aa_wireless_dongle/board/common/rootfs_overlay/etc/init.d/S05ota_bootstate:43-53 | over every run the boot text is the one there was or one line, and all its tokens but the root= ones stay as they were |
| OtaBoot.SwitchStartsTrial | aa_wireless_dongle/board/common/rootfs_overlay/usr/bin/aawg-ota-apply:105-108 | the switch starts a trial with count 0 and limit 2, if and only if upgrade_pending is still set; on a tmpfs the files on the disk alone decide whether there is a trial |
| OtaBoot.ReadyRun | aa_wireless_dongle/board/common/rootfs_overlay/usr/bin/aawg-ota-apply:68-72 | what apply has prepared holds over every run in which applies start on the partition, in the slot the boot text names, and without an unconfirmed upgrade running |
| OtaBoot.FreshTrial | aa_wireless_dongle/board/common/rootfs_overlay/usr/bin/aawg-ota-apply:68-72 | in those runs every switch is a fresh trial, whatever failed applies, crashes and stale files came before |
| OtaBoot.UnguardedLosesTrial | aa_wireless_dongle/board/common/rootfs_overlay/etc/init.d/S95ota_confirm:44-47 | without that condition a run exists in which S95 clears upgrade_pending between two writes of an apply, and the device switches with no rollback armed |
| OtaBoot.TrialStep | aa_wireless_dongle/board/common/rootfs_overlay/etc/init.d/S05ota_bootstate:80-97 | every step short of a confirmation or a new apply keeps the trial or ends it, and each boot let through uses up one of those left |
| OtaBoot.BoundedTrial | aa_wireless_dongle/board/common/rootfs_overlay/etc/init.d/S05ota_bootstate:80-97 | however power cuts and boots on a tmpfs fall, at most max_boots - bootcount recorded boots of an unconfirmed target are let through |
| OtaBoot.TwoBoots | aa_wireless_dongle/board/common/rootfs_overlay/etc/init.d/S05ota_bootstate:80-97 | a fresh trial lets at most two boots through |
| OtaBoot.DriveOutcome | aa_wireless_dongle/board/common/rootfs_overlay/etc/init.d/S05ota_bootstate:58-97 | what a whole run of S05 does in each case |
| OtaBoot.NextBootRestores | aa_wireless_dongle/board/common/rootfs_overlay/etc/init.d/S05ota_bootstate:86-96 | the next recorded boot after the last one allowed restores the previous root, whatever is in it, and settles the device |
| OtaBoot.BudgetStep | aa_wireless_dongle/board/common/rootfs_overlay/etc/init.d/S05ota_bootstate:86-96 | every step uses up the root changes it makes |
| OtaBoot.NoPingPong | aa_wireless_dongle/board/common/rootfs_overlay/etc/init.d/S05ota_bootstate:72-96 | until the next apply the boot root changes at most twice, at most once while a trial is on, and never once the device is settled |
| OtaBoot.ConfirmSettles | aa_wireless_dongle/board/common/rootfs_overlay/etc/init.d/S95ota_confirm:45 | the write that clears upgrade_pending settles the device |
| OtaBoot.ConfirmedWasHealthy | aa_wireless_dongle/board/common/rootfs_overlay/etc/init.d/S95ota_confirm:27-48 | over every run a confirmed slot is one that S95 found healthy |
| OtaBoot.VouchedOnlyHealthy | aa_wireless_dongle/board/common/rootfs_overlay/etc/init.d/S95ota_confirm:27-42 | and S95 vouches for a slot only while it runs as the pending target and is healthy |
| OtaScripts.Board.BootstateStart | aa_wireless_dongle/board/common/rootfs_overlay/etc/init.d/S05ota_bootstate:58-99 | the script is a run of the machine with the stated outcome |
| OtaScripts.Board.ConfirmStart | aa_wireless_dongle/board/common/rootfs_overlay/etc/init.d/S95ota_confirm:20-49 | the script is one or four confirm steps, by its conditions |
| OtaScripts.Board.OtaApply | aa_wireless_dongle/board/common/rootfs_overlay/usr/bin/aawg-ota-apply:57-108 | the script is a run of the machine; its exit code and the files, images and boot text it leaves for each outcome of download, key, install and switch; 1 and 3 and no change for no root and for one that is neither slot; safe after a fair start |
| OtaScripts.Board.WriteFiles | aa_wireless_dongle/board/common/rootfs_overlay/usr/bin/aawg-ota-apply:68-72 | the five writes in their order |
| OtaScripts.Board.Install | aa_wireless_dongle/board/common/rootfs_overlay/usr/bin/aawg-ota-apply:97-103 | the other slot is incomplete until swupdate succeeds |
| OtaScripts.Board.SwitchRoot | aa_wireless_dongle/board/common/rootfs_overlay/usr/bin/aawg-ota-apply:105-108 | the boot text is unchanged, changed without a reboot, or changed with one |
| OtaScripts.Board.Reboot | aa_wireless_dongle/board/common/rootfs_overlay/etc/init.d/rcS:15-18 | a reboot brings back the files on the disk |
| OtaScripts.Board.InstallAndSwitch | aa_wireless_dongle/board/common/rootfs_overlay/usr/bin/aawg-ota-apply:97-108 | install, boot text and reboot: the exit code and what each failure leaves |
| UsbState.AlwaysNoticed | aa_wireless_dongle/patches/linux/0001-Backport-and-apply-patches-for-Android-Accessory-mod.patch:144-173 | over every run a difference between connected and sw_connected means that the work is scheduled or being scheduled, or has still to compare or to copy |
| UsbState.InStepExact | aa_wireless_dongle/patches/linux/0001-Backport-and-apply-patches-for-Android-Accessory-mod.patch:148-153 | from a state in step, a step gets events and flags out of step if and only if it is a disconnect between two of the three reads of connected, the earlier of which found the cable plugged in |
| UsbState.InStepIff | aa_wireless_dongle/patches/linux/0001-Backport-and-apply-patches-for-Android-Accessory-mod.patch:148-153 | a run is in step at its end if and only if its verdict, folded over where the cable was pulled and what the branch then read, is Kept |
| UsbState.EventsTellState | aa_wireless_dongle/patches/linux/0001-Backport-and-apply-patches-for-Android-Accessory-mod.patch:144-173 | over every run, at quiescence: CONNECTED and DISCONNECTED alternate strictly beginning with CONNECTED and the last tells the real state, if and only if the verdict is Kept; Owed means a CONNECTED for a cable that is out, Wrong that the events do not alternate |
| UsbState.FitsStep | aa_wireless_dongle/patches/linux/0001-Backport-and-apply-patches-for-Android-Accessory-mod.patch:148-153 | what each step does to the agreement of events and flags, from each of the three verdicts |
| UsbState.NeverPulledKept | aa_wireless_dongle/patches/linux/0001-Backport-and-apply-patches-for-Android-Accessory-mod.patch:145-155 | if the cable is never pulled inside the locked section, the verdict is Kept |
| UsbState.ConfiguredRun | aa_wireless_dongle/patches/linux/0001-Backport-and-apply-patches-for-Android-Accessory-mod.patch:145-146 | over every run the CONFIGURED events sent or certain to be sent are as many more as the times the work looked and found cdev->config set |
| UsbState.SetConfigurationReported | aa_wireless_dongle/patches/linux/0001-Backport-and-apply-patches-for-Android-Accessory-mod.patch:218-226 | after a SET_CONFIGURATION that leaves a configuration, at every later quiescence until the configuration is cleared, user space has been sent at least one more CONFIGURED than was due before it |
| UsbState.LostDisconnect | aa_wireless_dongle/patches/linux/0001-Backport-and-apply-patches-for-Android-Accessory-mod.patch:149-153 | a concrete run with the cable pulled between branch and copy: CONNECTED was sent, nothing more will be, and the cable is out |
| UsbState.StrayDisconnect | aa_wireless_dongle/patches/linux/0001-Backport-and-apply-patches-for-Android-Accessory-mod.patch:148-152 | a concrete run with the cable pulled between comparison and branch: the first and only event is DISCONNECTED |
| UsbState.WorkRun | aa_wireless_dongle/patches/linux/0001-Backport-and-apply-patches-for-Android-Accessory-mod.patch:132-173 | an uncut run of the work is a run of the machine with the stated outcome |
| UsbState.GadgetInfo.AndroidWork | aa_wireless_dongle/patches/linux/0001-Backport-and-apply-patches-for-Android-Accessory-mod.patch:132-173 | the function as written is that run, with no disconnect in the locked section or one at either place; it sends CONFIGURED exactly if a configuration is set, behind CONNECTED and ahead of DISCONNECTED |
| UsbState.GadgetInfo.AndroidSetup | aa_wireless_dongle/patches/linux/0001-Backport-and-apply-patches-for-Android-Accessory-mod.patch:190-226 | the two locked parts of android_setup |
| UsbState.GadgetInfo.Disconnected | aa_wireless_dongle/patches/linux/0001-Backport-and-apply-patches-for-Android-Accessory-mod.patch:264-267 | the locked part of the disconnect callback, flag and scheduling |
| UeventParse.ParseEnv | aa_wireless_dongle/package/aawg/src/uevent.cpp:36-48 | the loop over the buffer computes the parse, record by record |
| UeventParse.FirstWins | aa_wireless_dongle/package/aawg/src/uevent.cpp:38-48 | parsing a printed environment gives exactly its keys, each with its first value, on top of what was there |
| UeventParse.MessageRecovered | aa_wireless_dongle/package/aawg/src/uevent.cpp:35-48 | a whole message, header and records, for every key: its first value, or nothing if it was not sent |
| UeventParse.HeaderIgnored | aa_wireless_dongle/package/aawg/src/uevent.cpp:39 | a header without `=` changes nothing, and neither does a record with an empty key |

## Left out

- The D-Bus and BlueZ proxies, advertising, profile registration, device listing and switching: thin wrappers over
  libraries that are not part of this model.
- The `connectWithRetryPromise` hand-off, and the removal of uevent handlers while the handler list is walked.
- That `stopForwarding` ever gets a blocked thread to end: a signal can land just before the read.
- Swupdate, curl, signatures, mounts, the gadget's configfs setup, Wi-Fi scripts, logging, time-outs and clocks.
- USB descriptors, endpoint selection, the HID core and the protobuf encoding; message bodies are opaque bytes.
- HidDriver.AccHid.WorkRegisterOne: a device whose registration fails counts as removed from the local list, in which
  the code leaves it linked (lines 1757-1759); `KernelList.RegisterLoop` says when that is written to.
- AccRefCount.TeardownInv: a worker whose own put is the last one waits in `cancel_work_sync` for itself; here the
  teardown goes on.
- KernelList.MoveReady: the lists of `HidDriver` are sequences of handles; the pointer work under them is proved on the
  heap in `KernelList` and not repeated there.
- AccRefCount.NextInv: relaxed memory ordering is not modelled; every atomic operation takes effect at once.
- TxPool.PoolConserved: covers one bind epoch; unbinding while a read or write holds a request is not modelled.
- RxPath.RxPort.ReadMany: one reader at a time, and no unbinding under it, so the freed-request branch (-EINVAL) is
  not modelled.
- ProxyFraming.EndToEnd: every queued request is taken to reach the wire; acc_function_disable makes the controller give
  back the queued ones unsent.
- BluetoothFrames.SendMessage: bodies of more than 65531 bytes, whose 16-bit buffer length wraps, are excluded, and a
  message is written at once.
- ControlChannel.ListRead: the uptime is the text that the stream prints for it, of digits, point, exponent and sign.
- ControlChannel.HandleCommand: what a command then does to the Bluetooth devices; whether a switch succeeds is a
  parameter.
- MqttCommand.Deliver: the update command, which starts a shell, and the broker.
- Cmdline.SetCmdlineRoot: file name patterns in the boot text are not expanded; an unreadable file is a failure that
  changes nothing.
- OtaBoot.AlwaysBootable: each file is written as a whole or not at all, one apply runs at a time, and an image is
  whole when swupdate says so; a file with other contents than the scripts write, or a boot that never reaches S05, is
  not modelled.
- UeventParse.ParseEnv: the netlink socket and the handlers that the map is given to.
