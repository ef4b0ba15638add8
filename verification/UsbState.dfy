/** USB state events of the configfs gadget: android_setup, disconnect and the coalesced android_work.
    android_work runs under cdev->lock and android_setup too, but the disconnect callback writes `connected` under
    another lock.  android_work reads the flag three times (to compare, to branch, to copy), so the callback can land
    between any two of the reads. */
module UsbState {

  datatype Uevent = CONNECTED | CONFIGURED | DISCONNECTED

  /** `Compared`: the flags were found to differ, the branch is still to read `connected`.
      `Branched`: it has read `value`, the copy to sw_connected is still to come.
      `Sending`: the lock is released, these events are still to be sent. */
  datatype Work =
    | Resting
    | Entered
    | Compared(configured: bool)
    | Branched(value: bool, configured: bool)
    | Sending(queue: seq<Uevent>)

  /** `cutting`: the disconnect callback has cleared the flag and not yet scheduled the work. */
  datatype State = State(connected: bool, swConnected: bool, config: bool, pending: bool, cutting: bool,
                         work: Work, sent: seq<Uevent>)

  datatype Event =
    | Setup                                 // the locked part of android_setup
    | SetConfiguration                      // its tail, for SET_CONFIGURATION
    | Config(value: bool)                   // the composite layer sets or clears cdev->config
    | Disconnect                            // configfs_composite_disconnect: the flag
    | DisconnectSchedule                    // ... and schedule_work
    | WorkBegin                             // the work queue takes the item
    | WorkCompare | WorkBranch | WorkStore  // the three reads in the locked section
    | WorkSend | WorkEnd

  const INIT := State(false, false, false, false, false, Resting, [])

  /** android_work holds cdev->lock between two of its reads. */
  predicate Locked(s: State) { s.work.Compared? || s.work.Branched? }

  predicate Enabled(s: State, e: Event) {
    match e
    case Setup => !Locked(s)
    case SetConfiguration => !Locked(s)
    case Config(_) => !Locked(s)
    case Disconnect => !s.cutting
    case DisconnectSchedule => s.cutting
    case WorkBegin => s.pending && s.work.Resting?
    case WorkCompare => s.work.Entered?
    case WorkBranch => s.work.Compared?
    case WorkStore => s.work.Branched?
    case WorkSend => s.work.Sending? && s.work.queue != []
    case WorkEnd => s.work.Sending? && s.work.queue == []
  }

  function Configured(configured: bool): seq<Uevent> { if configured then [CONFIGURED] else [] }

  /** The events of a run that has found a difference and then read `value`. */
  function Queue(value: bool, configured: bool): seq<Uevent> {
    if value then [CONNECTED] + Configured(configured) else Configured(configured) + [DISCONNECTED]
  }

  function Next(s: State, e: Event): State
    requires Enabled(s, e)
  {
    match e
    case Setup => if s.connected then s else s.(connected := true, pending := true)
    case SetConfiguration => if s.config then s.(pending := true) else s
    case Config(v) => s.(config := v)
    case Disconnect => s.(connected := false, cutting := true)
    case DisconnectSchedule => s.(pending := true, cutting := false)
    case WorkBegin => s.(pending := false, work := Entered)
    case WorkCompare =>
      s.(work := if s.connected != s.swConnected then Compared(s.config) else Sending(Configured(s.config)))
    case WorkBranch => s.(work := Branched(s.connected, s.work.configured))
    case WorkStore => s.(swConnected := s.connected, work := Sending(Queue(s.work.value, s.work.configured)))
    case WorkSend => s.(sent := s.sent + [s.work.queue[0]], work := Sending(s.work.queue[1..]))
    case WorkEnd => s.(work := Resting)
  }

  predicate CanRun(s: State, es: seq<Event>)
    decreases |es|
  {
    es == [] || (Enabled(s, es[0]) && CanRun(Next(s, es[0]), es[1..]))
  }

  function Exec(s: State, es: seq<Event>): State
    requires CanRun(s, es)
    decreases |es|
  {
    if es == [] then s else Exec(Next(s, es[0]), es[1..])
  }

  // ----- a change is never forgotten

  /** A mismatch means that the work is scheduled or being scheduled, or runs and has still to compare or to copy. */
  predicate Noticed(s: State) {
    s.connected != s.swConnected ==> s.pending || s.cutting || s.work.Entered? || Locked(s)
  }

  lemma {:induction false} AlwaysNoticed(s: State, es: seq<Event>)
    requires Noticed(s) && CanRun(s, es)
    ensures Noticed(Exec(s, es))
    decreases |es|
  {
    if es != [] {
      AlwaysNoticed(Next(s, es[0]), es[1..]);
    }
  }

  // ----- what user space is told

  /** The CONNECTED (true) and DISCONNECTED (false) events among `es`. */
  function Told(es: seq<Uevent>): seq<bool> {
    if es == [] then []
    else Told(es[..|es| - 1]) + Says(es[|es| - 1])
  }

  function Says(e: Uevent): seq<bool> {
    match e case CONNECTED => [true] case DISCONNECTED => [false] case CONFIGURED => []
  }

  /** Sent, or certain to be sent. */
  function Due(s: State): seq<Uevent> {
    s.sent + (match s.work case Branched(v, c) => Queue(v, c) case Sending(q) => q case _ => [])
  }

  predicate Alternates(t: seq<bool>) {
    forall i :: 0 <= i < |t| ==> (t[i] <==> i % 2 == 0)
  }

  function Last(t: seq<bool>): bool { t != [] && t[|t| - 1] }

  /** Strict alternation beginning with CONNECTED, and the last event says what sw_connected says, or will say once
      the run of the work that has found a difference is over. */
  predicate InStep(s: State) {
    var t := Told(Due(s));
    && Alternates(t)
    && match s.work
       case Compared(_) => Last(t) != s.connected
       case Branched(v, _) => v == s.connected == Last(t)
       case _ => Last(t) == s.swConnected
  }

  /** CONNECTED was the last event, but sw_connected is, or is about to be, cleared. */
  predicate Owing(s: State) {
    var t := Told(Due(s));
    && Alternates(t) && Last(t)
    && match s.work
       case Compared(_) => s.connected
       case Branched(v, _) => v && !s.connected
       case _ => !s.swConnected
  }

  /** The events do not alternate, or the next one will be a DISCONNECTED for a cable that was never reported. */
  predicate Broken(s: State) {
    var t := Told(Due(s));
    !Alternates(t) || (s.work.Compared? && !Last(t) && !s.connected)
  }

  /** The cable is pulled between the comparison and the branch. */
  predicate PulledBeforeBranch(s: State, e: Event) {
    e == Disconnect && s.work.Compared? && s.connected
  }

  /** The cable is pulled between the branch, which found it plugged in, and the copy. */
  predicate PulledBeforeCopy(s: State, e: Event) {
    e == Disconnect && s.work.Branched? && s.work.value && s.connected
  }

  datatype Verdict = Kept | Owed | Wrong

  /** What one step does to the agreement of events and flags.  Only the place where the cable is pulled counts:
      before the copy, the DISCONNECTED is lost; before the branch, one is sent that is one too many, unless one
      is owed; and a CONNECTED while one is owed is one too many. */
  function Judge(v: Verdict, s: State, e: Event): Verdict {
    match v
    case Kept => if PulledBeforeBranch(s, e) then Wrong else if PulledBeforeCopy(s, e) then Owed else Kept
    case Owed => if PulledBeforeBranch(s, e) then Kept else if e == WorkBranch && s.connected then Wrong else Owed
    case Wrong => Wrong
  }

  function JudgeRun(v: Verdict, s: State, es: seq<Event>): Verdict
    requires CanRun(s, es)
    decreases |es|
  {
    if es == [] then v else JudgeRun(Judge(v, s, es[0]), Next(s, es[0]), es[1..])
  }

  predicate Fits(v: Verdict, s: State) {
    match v case Kept => InStep(s) case Owed => Owing(s) case Wrong => Broken(s)
  }

  lemma ToldSnoc(es: seq<Uevent>, e: Uevent)
    ensures Told(es + [e]) == Told(es) + Says(e)
  {
    assert (es + [e])[..|es|] == es;
  }

  lemma ToldConfigured(es: seq<Uevent>, configured: bool)
    ensures Told(es + Configured(configured)) == Told(es)
  {
    if configured { ToldSnoc(es, CONFIGURED); } else { assert es + [] == es; }
  }

  lemma ToldQueue(es: seq<Uevent>, value: bool, configured: bool)
    ensures Told(es + Queue(value, configured)) == Told(es) + [value]
  {
    var c := Configured(configured);
    if value {
      assert es + Queue(value, configured) == (es + [CONNECTED]) + c;
      ToldConfigured(es + [CONNECTED], configured);
      ToldSnoc(es, CONNECTED);
    } else {
      assert es + Queue(value, configured) == (es + c) + [DISCONNECTED];
      ToldSnoc(es + c, DISCONNECTED);
      ToldConfigured(es, configured);
    }
  }

  lemma DueKept(s: State, e: Event)
    requires Enabled(s, e) && e != WorkBranch && e != WorkCompare
    ensures Due(Next(s, e)) == Due(s)
  {
    hide Queue, Configured;
    if e == WorkSend {
      assert s.sent + s.work.queue == Next(s, e).sent + Next(s, e).work.queue;
    }
  }

  /** Only the branch adds to what user space is told, and it adds what it reads. */
  lemma DueStep(s: State, e: Event)
    requires Enabled(s, e)
    ensures Told(Due(Next(s, e))) == Told(Due(s)) + (if e == WorkBranch then [s.connected] else [])
  {
    hide Told, Queue, Configured;
    var t := Told(Due(s));
    assert t + [] == t;
    if e == WorkBranch {
      assert s.sent + [] == s.sent;
      ToldQueue(s.sent, s.connected, s.work.configured);
    } else if e == WorkCompare {
      assert s.sent + [] == s.sent;
      ToldConfigured(s.sent, s.config);
    } else {
      hide Due, Next;
      DueKept(s, e);
    }
  }

  lemma AlternatesSnoc(t: seq<bool>, v: bool)
    ensures Alternates(t + [v]) <==> Alternates(t) && Last(t) != v
    ensures Last(t + [v]) == v
  {
    if !Alternates(t) {
      var i :| 0 <= i < |t| && !(t[i] <==> i % 2 == 0);
      assert (t + [v])[i] == t[i];
    } else {
      assert (t + [v])[|t|] == v;
    }
  }

  lemma FitsStep(v: Verdict, s: State, e: Event)
    requires Fits(v, s) && Enabled(s, e)
    ensures Fits(Judge(v, s, e), Next(s, e))
  {
    hide Told, Due, Alternates, Last;
    DueStep(s, e);
    var t := Told(Due(s));
    AlternatesSnoc(t, s.connected);
    assert t + [] == t;
  }

  lemma {:induction false} FitsRun(v: Verdict, s: State, es: seq<Event>)
    requires Fits(v, s) && CanRun(s, es)
    ensures Fits(JudgeRun(v, s, es), Exec(s, es))
    decreases |es|
  {
    hide Fits, Judge;
    if es != [] {
      FitsStep(v, s, es[0]);
      FitsRun(Judge(v, s, es[0]), Next(s, es[0]), es[1..]);
    }
  }

  /** From a state in step, exactly a disconnect between two of the three reads, the earlier of which found the cable
      plugged in, gets out of step. */
  lemma InStepExact(s: State, e: Event)
    requires InStep(s) && Enabled(s, e)
    ensures InStep(Next(s, e)) <==> !PulledBeforeBranch(s, e) && !PulledBeforeCopy(s, e)
  {
    hide Told, Due, Alternates;
    FitsStep(Kept, s, e);
  }

  /** A run is in step at its end exactly when its verdict is `Kept`. */
  lemma InStepIff(s: State, es: seq<Event>)
    requires InStep(s) && CanRun(s, es)
    ensures InStep(Exec(s, es)) <==> JudgeRun(Kept, s, es) == Kept
  {
    FitsRun(Kept, s, es);
  }

  /** Quiescence: nothing scheduled, nothing running. */
  predicate Quiet(s: State) { !s.pending && !s.cutting && s.work.Resting? }

  /** The events alternate strictly, beginning with CONNECTED, and the last one tells the real state. */
  predicate Truthful(s: State) {
    Alternates(Told(s.sent)) && Last(Told(s.sent)) == s.connected
  }

  /** Over every run: at quiescence user space has been told the truth exactly when the verdict is `Kept`; if it is
      `Owed`, a CONNECTED stands for a cable that is out, and if it is `Wrong`, the events do not alternate. */
  lemma EventsTellState(es: seq<Event>)
    requires CanRun(INIT, es) && Quiet(Exec(INIT, es))
    ensures var s, v := Exec(INIT, es), JudgeRun(Kept, INIT, es);
            && (Truthful(s) <==> v == Kept)
            && (v == Owed ==> Last(Told(s.sent)) && !s.connected)
            && (v == Wrong ==> !Alternates(Told(s.sent)))
  {
    assert InStep(INIT);
    FitsRun(Kept, INIT, es);
    AlwaysNoticed(INIT, es);
    var s := Exec(INIT, es);
    assert s.sent + [] == s.sent;
  }

  predicate NeverPulled(s: State, es: seq<Event>)
    requires CanRun(s, es)
    decreases |es|
  {
    es == [] || (!PulledBeforeBranch(s, es[0]) && !PulledBeforeCopy(s, es[0]) && NeverPulled(Next(s, es[0]), es[1..]))
  }

  /** In particular, if the cable is never pulled inside the locked section. */
  lemma {:induction false} NeverPulledKept(s: State, es: seq<Event>)
    requires CanRun(s, es) && NeverPulled(s, es)
    ensures JudgeRun(Kept, s, es) == Kept
    decreases |es|
  {
    if es != [] {
      NeverPulledKept(Next(s, es[0]), es[1..]);
    }
  }

  // ----- CONFIGURED

  /** How many CONFIGURED are among `es`. */
  function Times(es: seq<Uevent>): nat {
    if es == [] then 0
    else Times(es[..|es| - 1]) + (if es[|es| - 1] == CONFIGURED then 1 else 0)
  }

  /** How many CONFIGURED have been sent, or are certain to be. */
  function Configurations(s: State): nat {
    Times(Due(s)) + (match s.work case Compared(c) => if c then 1 else 0 case _ => 0)
  }

  /** How many times in a run the work has looked and found cdev->config set. */
  function Found(s: State, es: seq<Event>): nat
    requires CanRun(s, es)
    decreases |es|
  {
    if es == [] then 0
    else (if es[0] == WorkCompare && s.config then 1 else 0) + Found(Next(s, es[0]), es[1..])
  }

  lemma TimesSnoc(es: seq<Uevent>, e: Uevent)
    ensures Times(es + [e]) == Times(es) + (if e == CONFIGURED then 1 else 0)
  {
    assert (es + [e])[..|es|] == es;
  }

  lemma TimesConfigured(es: seq<Uevent>, configured: bool)
    ensures Times(es + Configured(configured)) == Times(es) + (if configured then 1 else 0)
  {
    if configured { TimesSnoc(es, CONFIGURED); } else { assert es + [] == es; }
  }

  lemma TimesQueue(es: seq<Uevent>, value: bool, configured: bool)
    ensures Times(es + Queue(value, configured)) == Times(es) + (if configured then 1 else 0)
  {
    var c := Configured(configured);
    if value {
      assert es + Queue(value, configured) == (es + [CONNECTED]) + c;
      TimesConfigured(es + [CONNECTED], configured);
      TimesSnoc(es, CONNECTED);
    } else {
      assert es + Queue(value, configured) == (es + c) + [DISCONNECTED];
      TimesSnoc(es + c, DISCONNECTED);
      TimesConfigured(es, configured);
    }
  }

  lemma ConfiguredStep(s: State, e: Event)
    requires Enabled(s, e)
    ensures Configurations(Next(s, e)) == Configurations(s) + (if e == WorkCompare && s.config then 1 else 0)
  {
    hide Queue, Configured, Times;
    if e == WorkBranch {
      assert s.sent + [] == s.sent;
      TimesQueue(s.sent, s.connected, s.work.configured);
    } else if e == WorkCompare {
      assert s.sent + [] == s.sent;
      TimesConfigured(s.sent, s.config);
    } else {
      DueKept(s, e);
    }
  }

  /** Over every run there is one CONFIGURED for each time the work found cdev->config set, and no other. */
  lemma {:induction false} ConfiguredRun(s: State, es: seq<Event>)
    requires CanRun(s, es)
    ensures Configurations(Exec(s, es)) == Configurations(s) + Found(s, es)
    decreases |es|
  {
    hide Configurations, Next, Enabled;
    if es != [] {
      ConfiguredStep(s, es[0]);
      ConfiguredRun(Next(s, es[0]), es[1..]);
    }
  }

  /** While the configuration stays set, work that is scheduled or has still to look will find it. */
  lemma {:induction false} FindsConfig(s: State, es: seq<Event>)
    requires CanRun(s, es) && Config(false) !in es && Quiet(Exec(s, es))
    requires s.config && (s.pending || s.work.Entered?)
    ensures Found(s, es) > 0
    decreases |es|
  {
    if es != [] && es[0] != WorkCompare {
      FindsConfig(Next(s, es[0]), es[1..]);
    }
  }

  /** So a SET_CONFIGURATION that leaves a configuration is reported: at any later quiescence, unless the configuration
      has been cleared in between, user space has been sent one more CONFIGURED than was due before it. */
  lemma SetConfigurationReported(s: State, es: seq<Event>)
    requires s.config && Enabled(s, SetConfiguration)
    requires var t := Next(s, SetConfiguration); CanRun(t, es) && Quiet(Exec(t, es))
    requires Config(false) !in es
    ensures Times(Exec(Next(s, SetConfiguration), es).sent) > Configurations(s)
  {
    var t := Next(s, SetConfiguration);
    ConfiguredStep(s, SetConfiguration);
    ConfiguredRun(t, es);
    FindsConfig(t, es);
    var r := Exec(t, es);
    assert r.sent + [] == r.sent;
  }

  // ----- the failing interleavings, concretely

  lemma {:induction false} More(s: State, es: seq<Event>, e: Event) returns (more: seq<Event>)
    requires CanRun(s, es) && Enabled(Exec(s, es), e)
    ensures more == es + [e] && CanRun(s, more) && Exec(s, more) == Next(Exec(s, es), e)
    decreases |es|
  {
    more := es + [e];
    if es == [] {
      assert more[1..] == [];
    } else {
      var tail := More(Next(s, es[0]), es[1..], e);
      assert more[1..] == tail;
    }
  }

  /** Plugged in, and the comparison made. */
  lemma PluggedIn() returns (es: seq<Event>)
    ensures CanRun(INIT, es) && Exec(INIT, es) == INIT.(connected := true, work := Compared(false))
  {
    es := More(INIT, [], Setup);
    es := More(INIT, es, WorkBegin);
    es := More(INIT, es, WorkCompare);
  }

  /** The work comes to its end, and the run that the disconnect has scheduled finds no difference. */
  lemma Drain(es: seq<Event>, e: Uevent) returns (more: seq<Event>)
    requires CanRun(INIT, es) && Exec(INIT, es) == INIT.(cutting := true, work := Sending([e]))
    ensures CanRun(INIT, more) && Exec(INIT, more) == INIT.(sent := [e])
  {
    more := More(INIT, es, DisconnectSchedule);
    more := More(INIT, more, WorkSend);
    more := More(INIT, more, WorkEnd);
    more := More(INIT, more, WorkBegin);
    assert Exec(INIT, more) == INIT.(sent := [e], work := Entered);
    more := More(INIT, more, WorkCompare);
    assert Exec(INIT, more).work == Sending([]);
    more := More(INIT, more, WorkEnd);
  }

  /** Pulled between branch and copy: user space has been told CONNECTED, nothing more will be sent, and the cable
      is out. */
  lemma LostDisconnect() returns (es: seq<Event>)
    ensures CanRun(INIT, es)
    ensures var s := Exec(INIT, es); Quiet(s) && s.sent == [CONNECTED] && !s.connected
  {
    es := PluggedIn();
    es := More(INIT, es, WorkBranch);
    es := More(INIT, es, Disconnect);
    assert Queue(true, false) == [CONNECTED];
    es := More(INIT, es, WorkStore);
    es := Drain(es, CONNECTED);
  }

  /** Pulled between comparison and branch: the first and only event user space sees is DISCONNECTED. */
  lemma StrayDisconnect() returns (es: seq<Event>)
    ensures CanRun(INIT, es)
    ensures var s := Exec(INIT, es); Quiet(s) && s.sent == [DISCONNECTED] && !s.connected
  {
    es := PluggedIn();
    es := More(INIT, es, Disconnect);
    es := More(INIT, es, WorkBranch);
    assert Queue(false, false) == [DISCONNECTED];
    es := More(INIT, es, WorkStore);
    es := Drain(es, DISCONNECTED);
  }

  // ----- the callbacks

  lemma {:induction false} SendAll(s: State, es: seq<Event>) returns (more: seq<Event>)
    requires CanRun(s, es) && Exec(s, es).work.Sending?
    ensures var t := Exec(s, es);
            CanRun(s, more) && Exec(s, more) == t.(sent := t.sent + t.work.queue, work := Resting)
    decreases |Exec(s, es).work.queue|
  {
    var t := Exec(s, es);
    if t.work.queue == [] {
      more := More(s, es, WorkEnd);
      assert t.sent + [] == t.sent;
    } else {
      more := More(s, es, WorkSend);
      assert t.sent + t.work.queue == (t.sent + [t.work.queue[0]]) + t.work.queue[1..];
      more := SendAll(s, more);
    }
  }

  /** Where in the locked section of android_work a disconnect lands, if one does. */
  datatype Landing = Nowhere | BeforeBranch | BeforeCopy

  /** What one run of the work does. */
  function WorkOutcome(s: State, pulled: Landing): State {
    if s.connected == s.swConnected then s.(pending := false, sent := s.sent + Configured(s.config))
    else
      var connected := s.connected && pulled == Nowhere;
      s.(connected := connected, swConnected := connected, pending := pulled != Nowhere,
         sent := s.sent + Queue(s.connected && pulled != BeforeBranch, s.config))
  }

  /** It is a run of the machine. */
  lemma WorkRun(s: State, pulled: Landing) returns (es: seq<Event>)
    requires s.pending && s.work.Resting? && !s.cutting
    ensures CanRun(s, es) && Exec(s, es) == WorkOutcome(s, pulled)
  {
    hide Queue;
    es := More(s, [], WorkBegin);
    es := More(s, es, WorkCompare);
    if s.connected != s.swConnected {
      if pulled == BeforeBranch {
        es := More(s, es, Disconnect);
        es := More(s, es, DisconnectSchedule);
      }
      es := More(s, es, WorkBranch);
      if pulled == BeforeCopy {
        es := More(s, es, Disconnect);
        es := More(s, es, DisconnectSchedule);
      }
      es := More(s, es, WorkStore);
    }
    es := SendAll(s, es);
  }

  class GadgetInfo {
    var connected: bool
    var swConnected: bool
    var config: bool
    var pending: bool
    ghost var work: Work
    ghost var sent: seq<Uevent>

    /** Between two of the methods below no callback is half done. */
    ghost function View(): State
      reads this
    {
      State(connected, swConnected, config, pending, false, work, sent)
    }

    constructor ()
      ensures View() == INIT
    {
      connected, swConnected, config, pending := false, false, false, false;
      work, sent := Resting, [];
    }

    /** android_setup; `configAfter` is what the request leaves in cdev->config. */
    method AndroidSetup(setConfiguration: bool, configAfter: bool)
      requires !Locked(View())
      modifies this
      ensures var s := Next(Next(old(View()), Setup), Config(configAfter));
              View() == if setConfiguration then Next(s, SetConfiguration) else s
      ensures connected
    {
      if !connected {
        connected := true;
        pending := true;
      }
      config := configAfter;
      if setConfiguration && config {
        pending := true;
      }
    }

    /** configfs_composite_disconnect. */
    method Disconnected()
      modifies this
      ensures View() == Next(Next(old(View()), Disconnect), DisconnectSchedule)
    {
      connected := false;
      pending := true;
    }

    /** android_work, with a disconnect landing where `pulled` says, if the flags differ. */
    method AndroidWork(pulled: Landing) returns (uevents: seq<Uevent>, ghost es: seq<Event>)
      requires pending && work.Resting?
      modifies this
      ensures sent == old(sent) + uevents
      // CONFIGURED exactly if a configuration is set, behind CONNECTED and ahead of DISCONNECTED
      ensures var differ, found := old(connected) != old(swConnected), old(connected) && pulled != BeforeBranch;
              uevents == (if differ && found then [CONNECTED] else []) + (if old(config) then [CONFIGURED] else [])
                         + (if differ && !found then [DISCONNECTED] else [])
      ensures CanRun(old(View()), es) && View() == Exec(old(View()), es) == WorkOutcome(old(View()), pulled)
    {
      es := WorkRun(View(), pulled);
      var status0, status1, status2 := false, false, false;
      pending := false;
      if config {
        status1 := true;
      }
      if connected != swConnected {
        if pulled == BeforeBranch {
          Disconnected();
        }
        if connected {
          status0 := true;
        } else {
          status2 := true;
        }
        if pulled == BeforeCopy {
          Disconnected();
        }
        swConnected := connected;
      }
      uevents := [];
      if status0 {
        uevents := uevents + [CONNECTED];
      }
      if status1 {
        uevents := uevents + [CONFIGURED];
      }
      if status2 {
        uevents := uevents + [DISCONNECTED];
      }
      sent := sent + uevents;
    }
  }
}
