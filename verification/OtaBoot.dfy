/** The A/B update protocol over reboots: aawg-ota-apply, S05ota_bootstate and S95ota_confirm as steps that each
    make at most one persistent write, with a power cut possible between any two. */
module OtaBoot {
  import opened Sequences
  import opened Cmdline

  const A := "/dev/mmcblk0p2"
  const B := "/dev/mmcblk0p3"

  predicate IsSlot(r: string) { r == A || r == B }

  predicate AreSlots(rs: set<string>) { forall r :: r in rs ==> IsSlot(r) }

  /** The slot choice of aawg-ota-apply. */
  function Other(r: string): string { if r == A then B else A }

  /** The files under /persist/ota.  `pending` is whether upgrade_pending reads `1`; None is a missing file. */
  datatype Files = Files(pending: bool, target: Option<string>, previous: Option<string>,
                         count: Option<nat>, max: Option<nat>, confirmed: Option<string>)

  /** Where S05ota_bootstate is: before the write or test of that name. */
  datatype BootPc = BMax | BPendingTest | BCount | BCompare(n: nat) | BCmdline | BPendingClear | BCountClear

  datatype ConfirmPc = CTest | CPending | CCount | CConfirmed | CDone

  datatype ApplyPc =
    | AIdle | APrevious | ATarget | ACount | AMax | APending
    | ADownload | AInstall | AInstalling | ASwitch

  datatype Phase =
    | Off
    | Booting(pc: BootPc)
    | Up(confirm: ConfirmPc, apply: ApplyPc)

  /** `files` are what the scripts see under /persist.  `behind` is not empty while a tmpfs stands in for the
      partition: it has the files on the disk, which nothing can change until the power goes off.
      `cmdline` is the boot text, `running` the root the kernel was booted with, `complete` the slots that hold a
      whole image.  `vouched` are the slots S95 has found healthy while they ran as the pending target. */
  datatype State = State(files: Files, behind: Option<Files>, cmdline: string, running: string,
                         complete: set<string>, phase: Phase, vouched: set<string>)

  /** What rcS finds for /persist: the partition, a tmpfs instead of it, or nothing. */
  datatype Mount = Mounted | StandIn | Absent

  datatype Event =
    | PowerOn(mount: Mount)
    | PowerCut
    | Boot(cmdlineOk: bool)             // the next step of S05
    | Confirm(mounted: bool, healthy: bool)   // the next step of S95
    | ApplyStart
    | Apply                             // the next step of aawg-ota-apply succeeds
    | ApplyFails                        // ... or fails, and `set -e` ends the script
    | ApplyStops                        // the boot text is written, and the script ends before the reboot

  function ValueOr<T>(o: Option<T>, d: T): T { if o.Some? then o.value else d }

  function BootRoot(s: State): string { ValueOr(GetRoot(s.cmdline), "") }

  const NO_FILES := Files(false, None, None, None, None, None)

  /** The files on the disk. */
  function Disk(s: State): Files { ValueOr(s.behind, s.files) }

  /** Power off, or a reboot: what was written to a tmpfs is gone. */
  function Down(s: State): State { s.(files := Disk(s), behind := None, phase := Off) }

  predicate Enabled(s: State, e: Event) {
    match e
    case PowerOn(_) => s.phase.Off?
    case PowerCut => true
    case Boot(_) => s.phase.Booting?
    case Confirm(_, _) => s.phase.Up? && s.phase.confirm != CDone
    case ApplyStart => s.phase.Up? && s.phase.apply == AIdle
    case Apply => s.phase.Up? && s.phase.apply != AIdle
    case ApplyFails => s.phase.Up? && s.phase.apply != AIdle
    case ApplyStops => s.phase.Up? && s.phase.apply == ASwitch
  }

  function BootStep(s: State, pc: BootPc, cmdlineOk: bool): State {
    match pc
    case BMax =>
      s.(files := s.files.(max := if s.files.max.None? then Some(2) else s.files.max), phase := Booting(BPendingTest))
    case BPendingTest =>
      if s.files.pending && s.files.target == Some(s.running) then s.(phase := Booting(BCount))
      else s.(phase := Up(CTest, AIdle))
    case BCount =>
      var n := ValueOr(s.files.count, 0) + 1;
      s.(files := s.files.(count := Some(n)), phase := Booting(BCompare(n)))
    case BCompare(n) =>
      if n > ValueOr(s.files.max, 2) then s.(phase := Booting(BCmdline)) else s.(phase := Up(CTest, AIdle))
    case BCmdline =>
      var p := s.files.previous;
      if p.Some? && p.value != s.running && cmdlineOk
      then s.(cmdline := SetRoot(s.cmdline, p.value), phase := Booting(BPendingClear))
      else s.(phase := Booting(BPendingClear))
    case BPendingClear => s.(files := s.files.(pending := false), phase := Booting(BCountClear))
    case BCountClear => Down(s.(files := s.files.(count := Some(0))))
  }

  function ConfirmStep(s: State, c: ConfirmPc, a: ApplyPc, mounted: bool, healthy: bool): State {
    match c
    case CTest =>
      if mounted && s.files.pending && s.files.target == Some(s.running) && healthy
      then s.(phase := Up(CPending, a), vouched := s.vouched + {s.running})
      else s.(phase := Up(CDone, a))
    case CPending => s.(files := s.files.(pending := false), phase := Up(CCount, a))
    case CCount => s.(files := s.files.(count := Some(0)), phase := Up(CConfirmed, a))
    case CConfirmed => s.(files := s.files.(confirmed := Some(s.running)), phase := Up(CDone, a))
    case CDone => s
  }

  function ApplyStep(s: State, c: ConfirmPc, a: ApplyPc): State {
    var to := Other(s.running);
    match a
    case AIdle => s
    case APrevious => s.(files := s.files.(previous := Some(s.running)), phase := Up(c, ATarget))
    case ATarget => s.(files := s.files.(target := Some(to)), phase := Up(c, ACount))
    case ACount => s.(files := s.files.(count := Some(0)), phase := Up(c, AMax))
    case AMax => s.(files := s.files.(max := Some(2)), phase := Up(c, APending))
    case APending => s.(files := s.files.(pending := true), phase := Up(c, ADownload))
    case ADownload => s.(phase := Up(c, AInstall))
    case AInstall => s.(complete := s.complete - {to}, phase := Up(c, AInstalling))
    case AInstalling => s.(complete := s.complete + {to}, phase := Up(c, ASwitch))
    case ASwitch => Down(s.(cmdline := SetRoot(s.cmdline, to)))
  }

  function Next(s: State, e: Event): State
    requires Enabled(s, e)
  {
    match e
    case PowerOn(mount) =>
      var t := s.(running := BootRoot(s), phase := if mount == Absent then Up(CTest, AIdle) else Booting(BMax));
      if mount == StandIn then t.(files := NO_FILES, behind := Some(Disk(s))) else t
    case PowerCut => Down(s)
    case Boot(ok) => BootStep(s, s.phase.pc, ok)
    case Confirm(mounted, healthy) => ConfirmStep(s, s.phase.confirm, s.phase.apply, mounted, healthy)
    case ApplyStart => if IsSlot(s.running) then s.(phase := Up(s.phase.confirm, APrevious)) else s
    case Apply => ApplyStep(s, s.phase.confirm, s.phase.apply)
    case ApplyFails => s.(phase := Up(s.phase.confirm, AIdle))
    case ApplyStops => s.(cmdline := SetRoot(s.cmdline, Other(s.running)), phase := Up(s.phase.confirm, AIdle))
  }

  /** A freshly flashed device: it boots one slot, that slot is whole, and there are no files. */
  predicate Init(s: State) {
    && GetRoot(s.cmdline).Some? && IsSlot(BootRoot(s)) && BootRoot(s) in s.complete && AreSlots(s.complete)
    && s.files == NO_FILES && s.behind.None? && s.phase.Off? && s.vouched == {}
  }

  // ----- safety

  predicate SlotOrNone(o: Option<string>) { o.Some? ==> IsSlot(o.value) }

  predicate Writing(a: ApplyPc) { a in {ACount, AMax, APending, ADownload, AInstall, AInstalling, ASwitch} }

  /** S05 has seen that the pending target is running, and has not yet decided or rolled back. */
  predicate Counting(p: Phase) {
    p.Booting? && (p.pc == BCount || p.pc.BCompare? || p.pc == BCmdline)
  }

  /** Every root that is written down anywhere is one of the two slots. */
  predicate Slots(s: State) {
    && GetRoot(s.cmdline).Some? && IsSlot(BootRoot(s))
    && SlotOrNone(s.files.target) && SlotOrNone(s.files.previous)
    && (s.behind.Some? ==> SlotOrNone(s.behind.value.target) && SlotOrNone(s.behind.value.previous))
    && (!s.phase.Off? ==> IsSlot(s.running))
  }

  /** The files say that this slot is an unconfirmed target. */
  predicate Tries(f: Files, root: string) { f.pending && f.target == Some(root) }

  /** And that S05 would go back to the other one: it rewrites the boot text only for another root. */
  predicate Rolls(f: Files, root: string) { Tries(f, root) && f.previous.Some? && f.previous.value != root }

  /** While a tmpfs stands in, its files never make the running slot a pending target; and an apply only runs if no
      rollback to the other slot can come out of the files on the disk. */
  predicate StandInSafe(s: State) {
    s.behind.Some? ==>
      && !s.phase.Off?
      && (s.phase.Booting? ==> s.phase.pc in {BMax, BPendingTest} && !s.files.pending)
      && (s.phase.Up? ==>
            && !Tries(s.files, s.running) && s.phase.confirm in {CTest, CDone}
            && (s.phase.apply != AIdle ==> !Rolls(s.behind.value, s.running)))
  }

  /** The boot text always names a whole image; an image is only missing while, or because, an update was being
      written to the other slot, and then no rollback can be due. */
  predicate Safe(s: State) {
    && Slots(s) && StandInSafe(s)
    && BootRoot(s) in s.complete && AreSlots(s.complete)
    && (Other(BootRoot(s)) !in s.complete ==> !Rolls(Disk(s), BootRoot(s)))
    && (!s.phase.Off? ==> s.running in s.complete)
    && (s.phase.Up? ==> s.running == BootRoot(s) || s.phase.apply == AIdle)
    && (s.phase.Booting? && s.phase.pc !in {BPendingClear, BCountClear} ==> s.running == BootRoot(s))
    && (Counting(s.phase) ==> Tries(s.files, s.running))
    && (s.phase.Up? && Writing(s.phase.apply) ==> s.files.target == Some(Other(s.running)))
    && (s.phase.Up? && s.phase.apply == ASwitch ==> Other(s.running) in s.complete)
  }

  /** An apply may start if the boot text names the running slot (it does not after an apply that stopped short of
      its reboot), and if no tmpfs hides files out of which a rollback from the running slot can come. */
  predicate Fair(s: State, e: Event) {
    e == ApplyStart ==> s.running == BootRoot(s) && !(s.behind.Some? && Rolls(s.behind.value, s.running))
  }

  lemma SlotsAreWords()
    ensures NoSpace(A) && NoSpace(B) && A != B
  {
    assert A[12] == 'p' && A[13] == '2' && B[13] == '3';
  }

  /** There are two slots. */
  lemma TwoSlots()
    ensures forall r {:trigger Other(r)} :: IsSlot(Other(r)) && (IsSlot(r) ==> Other(r) != r && Other(Other(r)) == r)
    ensures forall a, b {:trigger IsSlot(a), IsSlot(b)} :: IsSlot(a) && IsSlot(b) ==> a == b || a == Other(b)
  {
    SlotsAreWords();
  }

  lemma Switched(s: State, r: string)
    requires GetRoot(s.cmdline).Some? && IsSlot(r)
    ensures GetRoot(SetRoot(s.cmdline, r)) == Some(r)
  {
    SlotsAreWords();
    GetAfterSet(s.cmdline, r);
  }

  lemma InitSafe(s: State)
    requires Init(s)
    ensures Safe(s)
  {
  }

  /** The only steps that write the boot text. */
  predicate WritesText(s: State, e: Event) {
    || (e.Boot? && s.phase.Booting? && s.phase.pc == BCmdline && s.files.previous.Some?)
    || ((e.Apply? || e.ApplyStops?) && s.phase.Up? && s.phase.apply == ASwitch)
  }

  /** What they write into it. */
  function NewRoot(s: State, e: Event): string
    requires WritesText(s, e)
  {
    if e.Boot? then s.files.previous.value else Other(s.running)
  }

  lemma TextStep(s: State, e: Event)
    requires Slots(s) && Enabled(s, e)
    ensures var t := Next(s, e);
            t.cmdline == s.cmdline || (WritesText(s, e) && IsSlot(NewRoot(s, e)) && t.cmdline == SetRoot(s.cmdline, NewRoot(s, e)))
  {
    hide SetRoot, GetRoot;
  }

  /** The boot text goes on naming a slot. */
  lemma RootStep(s: State, e: Event)
    requires Slots(s) && Enabled(s, e)
    ensures var t := Next(s, e);
            && GetRoot(t.cmdline).Some?
            && (BootRoot(t) == BootRoot(s) || (WritesText(s, e) && IsSlot(NewRoot(s, e)) && BootRoot(t) == NewRoot(s, e)))
  {
    hide SetRoot, GetRoot, Next;
    TextStep(s, e);
    if WritesText(s, e) && IsSlot(NewRoot(s, e)) { Switched(s, NewRoot(s, e)); }
  }

  predicate IsPower(e: Event) { e.PowerOn? || e.PowerCut? }

  predicate IsApply(e: Event) { e.Apply? || e.ApplyStops? }

  lemma PowerSlots(s: State, e: Event)
    requires Slots(s) && Enabled(s, e) && IsPower(e)
    ensures Slots(Next(s, e))
  {
    hide SetRoot, GetRoot, IsSlot;
  }

  lemma CountSlots(s: State, e: Event)
    requires Slots(s) && Enabled(s, e) && e.Boot? && s.phase.pc != BCmdline
    ensures Slots(Next(s, e))
  {
    hide SetRoot, GetRoot, IsSlot;
  }

  lemma RollbackSlots(s: State, e: Event)
    requires Slots(s) && Enabled(s, e) && e.Boot? && s.phase.pc == BCmdline
    ensures Slots(Next(s, e))
  {
    hide SetRoot, GetRoot, BootRoot, IsSlot, Other;
    TwoSlots();
    RootStep(s, e);
  }

  lemma BootSlots(s: State, e: Event)
    requires Slots(s) && Enabled(s, e) && e.Boot?
    ensures Slots(Next(s, e))
  {
    hide Slots, Next;
    if s.phase.pc == BCmdline { RollbackSlots(s, e); } else { CountSlots(s, e); }
  }

  lemma PrepareSlots(s: State, e: Event)
    requires Slots(s) && Enabled(s, e) && IsApply(e) && s.phase.apply != ASwitch
    ensures Slots(Next(s, e))
  {
    hide SetRoot, GetRoot, IsSlot, Other;
    TwoSlots();
  }

  lemma SwitchSlots(s: State, e: Event)
    requires Slots(s) && Enabled(s, e) && IsApply(e) && s.phase.apply == ASwitch
    ensures Slots(Next(s, e))
  {
    hide SetRoot, GetRoot, BootRoot, IsSlot, Other;
    TwoSlots();
    RootStep(s, e);
  }

  lemma ApplySlots(s: State, e: Event)
    requires Slots(s) && Enabled(s, e) && IsApply(e)
    ensures Slots(Next(s, e))
  {
    hide Slots, Next;
    if s.phase.apply == ASwitch { SwitchSlots(s, e); } else { PrepareSlots(s, e); }
  }

  lemma OtherSlots(s: State, e: Event)
    requires Slots(s) && Enabled(s, e) && !e.Boot? && !IsPower(e) && !IsApply(e)
    ensures Slots(Next(s, e))
  {
    hide SetRoot, GetRoot, IsSlot;
  }

  lemma NextSlots(s: State, e: Event)
    requires Slots(s) && Enabled(s, e)
    ensures Slots(Next(s, e))
  {
    hide Slots, Next, Enabled;
    if e.Boot? {
      BootSlots(s, e);
    } else if IsPower(e) {
      PowerSlots(s, e);
    } else if IsApply(e) {
      ApplySlots(s, e);
    } else {
      OtherSlots(s, e);
    }
  }

  lemma PowerSafe(s: State, e: Event)
    requires Safe(s) && Enabled(s, e) && IsPower(e)
    ensures Safe(Next(s, e))
  {
    hide SetRoot, GetRoot, IsSlot, Other;
    PowerSlots(s, e);
  }

  lemma CountSafe(s: State, e: Event)
    requires Safe(s) && Enabled(s, e) && e.Boot? && s.phase.pc != BCmdline
    ensures Safe(Next(s, e))
  {
    hide SetRoot, GetRoot, IsSlot, Other, Slots;
    CountSlots(s, e);
  }

  lemma RollbackSafe(s: State, e: Event)
    requires Safe(s) && Enabled(s, e) && e.Boot? && s.phase.pc == BCmdline
    ensures Safe(Next(s, e))
  {
    hide SetRoot, GetRoot, BootRoot, IsSlot, Other, Slots;
    TwoSlots();
    RollbackSlots(s, e);
    SlotFacts(s);
    RootStep(s, e);
  }

  lemma BootSafe(s: State, e: Event)
    requires Safe(s) && Enabled(s, e) && e.Boot?
    ensures Safe(Next(s, e))
  {
    hide Safe, Next;
    if s.phase.pc == BCmdline { RollbackSafe(s, e); } else { CountSafe(s, e); }
  }

  lemma SlotFacts(s: State)
    requires Slots(s)
    ensures IsSlot(BootRoot(s)) && SlotOrNone(s.files.previous) && (!s.phase.Off? ==> IsSlot(s.running))
  {
  }

  lemma PrepareSafe(s: State, e: Event)
    requires Safe(s) && Enabled(s, e) && IsApply(e) && s.phase.apply != ASwitch
    ensures Safe(Next(s, e))
  {
    hide SetRoot, GetRoot, IsSlot, Other, Slots;
    TwoSlots();
    PrepareSlots(s, e);
    SlotFacts(s);
  }

  lemma SwitchSafe(s: State, e: Event)
    requires Safe(s) && Enabled(s, e) && IsApply(e) && s.phase.apply == ASwitch
    ensures Safe(Next(s, e))
  {
    hide SetRoot, GetRoot, BootRoot, IsSlot, Other, Slots;
    TwoSlots();
    SwitchSlots(s, e);
    SlotFacts(s);
    RootStep(s, e);
  }

  lemma ApplySafe(s: State, e: Event)
    requires Safe(s) && Enabled(s, e) && IsApply(e)
    ensures Safe(Next(s, e))
  {
    hide Safe, Next;
    if s.phase.apply == ASwitch { SwitchSafe(s, e); } else { PrepareSafe(s, e); }
  }

  lemma OtherSafe(s: State, e: Event)
    requires Safe(s) && Enabled(s, e) && Fair(s, e) && !e.Boot? && !IsPower(e) && !IsApply(e)
    ensures Safe(Next(s, e))
  {
    hide SetRoot, GetRoot, IsSlot, Other;
    OtherSlots(s, e);
  }

  lemma NextSafe(s: State, e: Event)
    requires Safe(s) && Enabled(s, e) && Fair(s, e)
    ensures Safe(Next(s, e))
  {
    hide Safe, Next, Enabled, Fair;
    if e.Boot? {
      BootSafe(s, e);
    } else if IsPower(e) {
      PowerSafe(s, e);
    } else if IsApply(e) {
      ApplySafe(s, e);
    } else {
      OtherSafe(s, e);
    }
  }

  // ----- whole runs

  predicate CanRun(s: State, es: seq<Event>)
    decreases |es|
  {
    es == [] || (Enabled(s, es[0]) && CanRun(Next(s, es[0]), es[1..]))
  }

  function Exec(s: State, es: seq<Event>): State
    requires CanRun(s, es)
    decreases |es|
  {
    if es == [] then s else Exec(Next(s, es[0]), es[1..])
  }

  predicate AllFair(s: State, es: seq<Event>)
    requires CanRun(s, es)
    decreases |es|
  {
    es == [] || (Fair(s, es[0]) && AllFair(Next(s, es[0]), es[1..]))
  }

  lemma {:induction false} SafeRun(s: State, es: seq<Event>)
    requires Safe(s) && CanRun(s, es) && AllFair(s, es)
    ensures Safe(Exec(s, es))
    decreases |es|
  {
    hide Safe, Next, Enabled;
    if es != [] {
      NextSafe(s, es[0]);
      SafeRun(Next(s, es[0]), es[1..]);
    }
  }

  /** In every interleaving of crashes, failed applies and boots without /persist with the three scripts, the boot text
      names a slot with a whole image, and a slot that is losing its image is neither the running one nor the one the
      boot text names. */
  lemma AlwaysBootable(s: State, es: seq<Event>, e: Event)
    requires Init(s) && CanRun(s, es) && AllFair(s, es) && Enabled(Exec(s, es), e)
    ensures var t := Exec(s, es);
            && GetRoot(t.cmdline).Some? && BootRoot(t) in t.complete
            && (forall r :: r in t.complete && r !in Next(t, e).complete ==>
                  r != t.running && r != BootRoot(t) && t.phase == Up(t.phase.confirm, AInstall))
  {
    hide Safe, Next, Enabled, Exec, CanRun, AllFair, Init;
    InitSafe(s);
    SafeRun(s, es);
    LosesOther(Exec(s, es), e);
  }

  lemma LosesOther(t: State, e: Event)
    requires Safe(t) && Enabled(t, e)
    ensures GetRoot(t.cmdline).Some? && BootRoot(t) in t.complete
    ensures forall r :: r in t.complete && r !in Next(t, e).complete ==>
              r != t.running && r != BootRoot(t) && t.phase == Up(t.phase.confirm, AInstall)
  {
    hide SetRoot, GetRoot, IsSlot, Other;
    TwoSlots();
  }

  /** Everything in the boot text but the root= tokens stays as it was flashed. */
  predicate SameOthers(a: seq<string>, b: seq<string>) {
    && |a| == |b|
    && forall i :: 0 <= i < |a| ==> (IsRoot(a[i]) <==> IsRoot(b[i])) && (!IsRoot(a[i]) ==> a[i] == b[i])
  }

  lemma SetRootSameOthers(text: string, r: string)
    requires IsSlot(r)
    ensures SameOthers(Words(text), Words(SetRoot(text, r)))
  {
    SlotsAreWords();
    SetRootTokens(text, r);
    assert IsRoot(ROOT + r);
  }

  /** Over every run the boot text is the one there was at the start or one line, and all its tokens but the root= ones
      are those there were. */
  lemma {:induction false} BootTextKept(s: State, es: seq<Event>)
    requires Slots(s) && CanRun(s, es)
    ensures SameOthers(Words(s.cmdline), Words(Exec(s, es).cmdline))
    ensures Exec(s, es).cmdline == s.cmdline || OneLine(Exec(s, es).cmdline)
    decreases |es|
  {
    hide SetRoot, Words, Next, Enabled, Slots, SameOthers, OneLine;
    SameAsItself(Words(s.cmdline));
    if es != [] {
      NextSlots(s, es[0]);
      TextStep(s, es[0]);
      var t := Next(s, es[0]);
      if t.cmdline != s.cmdline {
        SetRootSameOthers(s.cmdline, NewRoot(s, es[0]));
        SlotsAreWords();
        SetRootLine(s.cmdline, NewRoot(s, es[0]));
      }
      BootTextKept(t, es[1..]);
      SameOthersChain(Words(s.cmdline), Words(t.cmdline), Words(Exec(s, es).cmdline));
    }
  }

  lemma SameAsItself(a: seq<string>)
    ensures SameOthers(a, a)
  {
  }

  lemma SameOthersChain(a: seq<string>, b: seq<string>, c: seq<string>)
    requires SameOthers(a, b) && SameOthers(b, c)
    ensures SameOthers(a, c)
  {
  }

  // ----- an update on trial, and its rollback

  /** The boot text names an unconfirmed target, and the files say how to go back. */
  predicate Trial(s: State) {
    && GetRoot(s.cmdline).Some? && Tries(Disk(s), BootRoot(s))
    && Disk(s).previous == Some(Other(BootRoot(s)))
  }

  /** What aawg-ota-apply has prepared by the time it is at a given step. */
  predicate Prepared(s: State) {
    s.phase.Up? ==>
      var a := s.phase.apply;
      && (a == ATarget || Writing(a) ==> s.files.previous == Some(s.running))
      && (a in {AMax, APending, ADownload, AInstall, AInstalling, ASwitch} ==> s.files.count == Some(0))
      && (a in {APending, ADownload, AInstall, AInstalling, ASwitch} ==> s.files.max == Some(2))
  }

  lemma NextPrepared(s: State, e: Event)
    requires Safe(s) && Prepared(s) && Enabled(s, e)
    ensures Prepared(Next(s, e))
  {
    hide SetRoot, GetRoot;
  }

  /** Whatever the files held before, the switch starts a trial with no boot counted and two allowed, exactly if
      upgrade_pending still says so.  On a tmpfs what apply has written is gone, and the files on the disk decide. */
  lemma SwitchStartsTrial(s: State)
    requires Safe(s) && Prepared(s) && s.phase.Up? && s.phase.apply == ASwitch
    ensures var t := Next(s, Apply);
            && BootRoot(t) == Other(s.running) && t.phase.Off? && t.behind.None?
            && (s.behind.None? ==>
                  t.files.count == Some(0) && t.files.max == Some(2) && (Trial(t) <==> s.files.pending))
            && (s.behind.Some? ==>
                  t.files == s.behind.value
                  && (Trial(t) <==> Tries(t.files, Other(s.running)) && t.files.previous == Some(s.running)))
  {
    hide SetRoot, GetRoot;
    SlotsAreWords();
    Switched(s, Other(s.running));
  }

  /** An apply that starts on the partition itself, while the boot text names the running slot and no unconfirmed
      upgrade is running, keeps upgrade_pending set. */
  predicate Guarded(s: State, e: Event) {
    e == ApplyStart ==> s.behind.None? && s.running == BootRoot(s) && !Tries(s.files, s.running)
  }

  predicate Undisturbed(s: State) {
    s.phase.Up? ==>
      var c, a := s.phase.confirm, s.phase.apply;
      && (c == CPending ==> Tries(s.files, s.running))
      && (a != AIdle ==> c != CPending && !Tries(s.files, s.running) && s.behind.None?)
      && (a in {ADownload, AInstall, AInstalling, ASwitch} ==> s.files.pending)
  }

  lemma BootUndisturbed(s: State, e: Event)
    requires Safe(s) && Undisturbed(s) && Enabled(s, e) && (e.Boot? || IsPower(e))
    ensures Undisturbed(Next(s, e))
  {
    hide SetRoot, GetRoot, IsSlot, Other, Slots;
  }

  lemma UpUndisturbed(s: State, e: Event)
    requires Safe(s) && Undisturbed(s) && Enabled(s, e) && Guarded(s, e) && !e.Boot? && !IsPower(e)
    ensures Undisturbed(Next(s, e))
  {
    hide SetRoot, GetRoot, BootRoot, IsSlot, Other, Slots;
    TwoSlots();
    SlotFacts(s);
  }

  lemma NextUndisturbed(s: State, e: Event)
    requires Safe(s) && Undisturbed(s) && Enabled(s, e) && Guarded(s, e)
    ensures Undisturbed(Next(s, e))
  {
    hide Safe, Undisturbed, Next, Enabled, Guarded;
    if e.Boot? || IsPower(e) { BootUndisturbed(s, e); } else { UpUndisturbed(s, e); }
  }

  predicate AllGuarded(s: State, es: seq<Event>)
    requires CanRun(s, es)
    decreases |es|
  {
    es == [] || (Guarded(s, es[0]) && AllGuarded(Next(s, es[0]), es[1..]))
  }

  lemma {:induction false} ReadyRun(s: State, es: seq<Event>)
    requires Safe(s) && Prepared(s) && Undisturbed(s) && CanRun(s, es) && AllGuarded(s, es)
    ensures Safe(Exec(s, es)) && Prepared(Exec(s, es)) && Undisturbed(Exec(s, es))
    decreases |es|
  {
    if es != [] {
      NextSafe(s, es[0]);
      NextPrepared(s, es[0]);
      NextUndisturbed(s, es[0]);
      ReadyRun(Next(s, es[0]), es[1..]);
    }
  }

  /** Every switch is a fresh trial, whatever crashes, failed applies and stale files came before it. */
  lemma FreshTrial(s: State, es: seq<Event>)
    requires Init(s) && CanRun(s, es) && AllGuarded(s, es)
    requires Exec(s, es).phase.Up? && Exec(s, es).phase.apply == ASwitch
    ensures var t := Next(Exec(s, es), Apply);
            Trial(t) && t.files.count == Some(0) && t.files.max == Some(2) && BootRoot(t) == Other(Exec(s, es).running)
  {
    InitSafe(s);
    ReadyRun(s, es);
    SwitchStartsTrial(Exec(s, es));
  }

  /** S95 finds the slot healthy between two writes of an apply, and has still to clear upgrade_pending. */
  function Overlapped(s: State): State {
    s.(files := s.files.(previous := Some(s.running), target := Some(Other(s.running)), count := Some(0), max := Some(2)),
       phase := Up(CPending, APending), vouched := s.vouched + {s.running})
  }

  /** Up in the unconfirmed target, before S95 has tested it. */
  predicate Untested(s: State) {
    Trial(s) && s.behind.None? && s.running == BootRoot(s) && s.phase == Up(CTest, AIdle)
  }

  lemma ReachOverlap(s: State) returns (es: seq<Event>)
    requires Safe(s) && Untested(s)
    ensures CanRun(s, es) && Exec(s, es) == Overlapped(s)
  {
    hide SetRoot;
    hide GetRoot;
    es := Trace3(s, ApplyStart, Apply, Confirm(true, true));
    var s1 := Exec(s, es);
    var more := Trace3(s1, Apply, Apply, Apply);
    es := Chain(s, es, more);
  }

  lemma FinishOverlap(s: State) returns (es: seq<Event>)
    requires GetRoot(s.cmdline).Some? && IsSlot(s.running) && s.behind.None? && s.phase == Up(CPending, APending)
    ensures CanRun(s, es) && BootRoot(Exec(s, es)) == Other(s.running) && !Exec(s, es).files.pending
            && Exec(s, es).phase.Off?
  {
    hide SetRoot, GetRoot, IsSlot, Other, Slots;
    TwoSlots();
    SlotsAreWords();
    es := Trace3(s, Apply, Confirm(true, true), Apply);
    var s1 := Exec(s, es);
    assert s1 == s.(files := s.files.(pending := false), phase := Up(CCount, AInstall));
    Switched(s1, Other(s.running));
    var more := Trace3(s1, Apply, Apply, Apply);
    es := Chain(s, es, more);
  }

  /** The guard is needed: an apply that starts on top of any unconfirmed upgrade, before S95 has tested it, can
      end in a switch that no boot counting will undo. */
  lemma UnguardedLosesTrial(s: State) returns (es: seq<Event>)
    requires Safe(s) && Untested(s)
    ensures CanRun(s, es) && BootRoot(Exec(s, es)) == Other(BootRoot(s)) && !Exec(s, es).files.pending
            && Exec(s, es).phase.Off?
  {
    hide SetRoot, GetRoot, Next;
    es := ReachOverlap(s);
    var more := FinishOverlap(Overlapped(s));
    es := Chain(s, es, more);
  }

  lemma OneStep(s: State, e: Event)
    requires Enabled(s, e)
    ensures CanRun(s, [e]) && Exec(s, [e]) == Next(s, e)
  {
    hide Next;
    var t := Next(s, e);
    assert [e][1..] == [];
    assert CanRun(t, []) && Exec(t, []) == t;
  }

  lemma Trace3(s: State, a: Event, b: Event, c: Event) returns (es: seq<Event>)
    requires Enabled(s, a) && Enabled(Next(s, a), b) && Enabled(Next(Next(s, a), b), c)
    ensures es == [a, b, c] && CanRun(s, es) && Exec(s, es) == Next(Next(Next(s, a), b), c)
  {
    hide Next;
    es := [a, b, c];
    var t := Next(s, a);
    var u := Next(t, b);
    assert es[1..] == [b, c] && [b, c][1..] == [c];
    OneStep(u, c);
    assert CanRun(t, [b, c]) && Exec(t, [b, c]) == Next(u, c);
  }

  lemma Trace2(s: State, a: Event, b: Event) returns (es: seq<Event>)
    requires Enabled(s, a) && Enabled(Next(s, a), b)
    ensures es == [a, b] && CanRun(s, es) && Exec(s, es) == Next(Next(s, a), b)
  {
    hide Next;
    es := [a, b];
    var t := Next(s, a);
    assert es[1..] == [b];
    OneStep(t, b);
  }

  lemma {:induction false} Chain(s: State, a: seq<Event>, b: seq<Event>) returns (es: seq<Event>)
    requires CanRun(s, a) && CanRun(Exec(s, a), b)
    ensures es == a + b && CanRun(s, es) && Exec(s, es) == Exec(Exec(s, a), b)
    decreases |a|
  {
    hide Next;
    es := a + b;
    if a == [] {
      assert es == b;
    } else {
      var tail := Chain(Next(s, a[0]), a[1..], b);
      assert es[1..] == tail;
    }
  }

  // ----- how long a trial can last

  /** No apply starts, and S95 does not find the slot healthy. */
  predicate Quiet(e: Event) { e != ApplyStart && !(e.Confirm? && e.mounted && e.healthy) }

  predicate AllQuiet(es: seq<Event>) { forall i :: 0 <= i < |es| ==> Quiet(es[i]) }

  /** S05 has counted a boot and lets it go on to the user. */
  function Pass(s: State, e: Event): nat
    requires Enabled(s, e)
  {
    if e.Boot? && s.phase.pc.BCompare? && Next(s, e).phase.Up? then 1 else 0
  }

  function Passes(s: State, es: seq<Event>): nat
    requires CanRun(s, es)
    decreases |es|
  {
    if es == [] then 0 else Pass(s, es[0]) + Passes(Next(s, es[0]), es[1..])
  }

  predicate NoApply(s: State) { s.phase.Up? ==> s.phase.apply == AIdle }

  /** Nothing on the device will change the boot text until the next apply. */
  predicate Settled(s: State) {
    NoApply(s) && !Tries(Disk(s), BootRoot(s)) && !Counting(s.phase)
  }

  predicate OnTrial(s: State, max: nat) {
    && Trial(s) && NoApply(s) && Disk(s).max == Some(max) && Disk(s).count.Some?
    && (s.phase.Up? ==> s.phase.confirm in {CTest, CDone})
    && s.phase != Booting(BCountClear)
    && (s.phase.Booting? && s.phase.pc.BCompare? ==> s.files.count == Some(s.phase.pc.n))
  }

  /** How many more boots can be let through. */
  function Left(s: State, max: nat): nat {
    var n := ValueOr(Disk(s).count, 0);
    if Settled(s) || n > max then 0
    else if s.phase.Booting? && s.phase.pc.BCompare? then max - n + 1
    else max - n
  }

  lemma SettledStep(s: State, e: Event)
    requires Safe(s) && Settled(s) && Enabled(s, e) && e != ApplyStart
    ensures Settled(Next(s, e)) && Next(s, e).cmdline == s.cmdline && Pass(s, e) == 0
  {
    hide SetRoot;
    hide GetRoot;
    SlotsAreWords();
  }

  lemma TrialStep(s: State, e: Event, max: nat)
    requires Safe(s) && OnTrial(s, max) && Enabled(s, e) && Quiet(e)
    ensures OnTrial(Next(s, e), max) || Settled(Next(s, e))
    ensures Pass(s, e) + Left(Next(s, e), max) <= Left(s, max)
  {
    hide SetRoot, GetRoot, IsSlot, Other;
    TwoSlots();
    if e.Boot? && s.phase.pc == BCmdline { Switched(s, s.files.previous.value); }
  }

  /** However crashes fall, at most `max - count` boots of the target are let through. */
  lemma {:induction false} BoundedTrial(s: State, es: seq<Event>, max: nat)
    requires Safe(s) && (OnTrial(s, max) || Settled(s)) && CanRun(s, es) && AllQuiet(es)
    ensures Passes(s, es) <= Left(s, max)
    decreases |es|
  {
    if es != [] {
      var t := Next(s, es[0]);
      assert Quiet(es[0]);
      NextSafe(s, es[0]);
      if Settled(s) { SettledStep(s, es[0]); } else { TrialStep(s, es[0], max); }
      BoundedTrial(t, es[1..], max);
    }
  }

  /** A fresh trial lets at most two boots through before it is rolled back. */
  lemma TwoBoots(s: State, es: seq<Event>)
    requires Safe(s) && Trial(s) && s.phase.Off? && s.files.count == Some(0) && s.files.max == Some(2)
    requires CanRun(s, es) && AllQuiet(es)
    ensures Passes(s, es) <= 2
  {
    BoundedTrial(s, es, 2);
  }

  // ----- S05 without interruption

  function Rank(pc: BootPc): nat {
    match pc
    case BMax => 6 case BPendingTest => 5 case BCount => 4 case BCompare(_) => 3
    case BCmdline => 2 case BPendingClear => 1 case BCountClear => 0
  }

  /** S05 from where it is to its end. */
  function Drive(s: State, cmdlineOk: bool): State
    requires s.phase.Booting?
    decreases Rank(s.phase.pc)
  {
    var t := Next(s, Boot(cmdlineOk));
    if t.phase.Booting? then Drive(t, cmdlineOk) else t
  }

  /** How many boots that lets through: one or none. */
  function DrivePasses(s: State, cmdlineOk: bool): nat
    requires s.phase.Booting?
    decreases Rank(s.phase.pc)
  {
    var t := Next(s, Boot(cmdlineOk));
    Pass(s, Boot(cmdlineOk)) + (if t.phase.Booting? then DrivePasses(t, cmdlineOk) else 0)
  }

  /** A boot is a run of the machine. */
  lemma {:induction false} DriveRuns(s: State, cmdlineOk: bool) returns (es: seq<Event>)
    requires s.phase.Booting?
    ensures CanRun(s, es) && Exec(s, es) == Drive(s, cmdlineOk) && Passes(s, es) == DrivePasses(s, cmdlineOk)
    ensures forall i :: 0 <= i < |es| ==> es[i] == Boot(cmdlineOk)
    decreases Rank(s.phase.pc)
  {
    hide Pass;
    var e := Boot(cmdlineOk);
    var t := Next(s, e);
    if t.phase.Booting? {
      var tail := DriveRuns(t, cmdlineOk);
      es := [e] + tail;
      assert es[1..] == tail;
    } else {
      es := [e];
      assert es[1..] == [];
    }
  }

  /** What a whole run of S05 does: it counts boots of the pending target only, and rolls back when the count is
      over the limit. */
  function BootOutcome(s: State, cmdlineOk: bool): State {
    var m := ValueOr(s.files.max, 2);
    var f := s.files.(max := Some(m));
    var n := ValueOr(s.files.count, 0) + 1;
    var p := s.files.previous;
    if !(f.pending && f.target == Some(s.running)) then s.(files := f, phase := Up(CTest, AIdle))
    else if n <= m then s.(files := f.(count := Some(n)), phase := Up(CTest, AIdle))
    else
      Down(s.(files := f.(pending := false, count := Some(0)),
              cmdline := if p.Some? && p.value != s.running && cmdlineOk then SetRoot(s.cmdline, p.value) else s.cmdline))
  }

  lemma DriveOutcome(s: State, cmdlineOk: bool)
    requires s.phase == Booting(BMax)
    ensures Drive(s, cmdlineOk) == BootOutcome(s, cmdlineOk)
  {
    hide SetRoot, GetRoot, IsSlot, Other;
    var e := Boot(cmdlineOk);
    var s1 := Next(s, e);
    var s2 := Next(s1, e);
    if s2.phase.Booting? {
      var s3 := Next(s2, e);
      var s4 := Next(s3, e);
      if s4.phase.Booting? {
        var s5 := Next(s4, e);
        var s6 := Next(s5, e);
        assert Drive(s6, cmdlineOk) == Next(s6, e);
        assert Drive(s4, cmdlineOk) == Drive(s5, cmdlineOk) == Drive(s6, cmdlineOk);
      }
      assert Drive(s2, cmdlineOk) == Drive(s3, cmdlineOk);
    }
    assert Drive(s, cmdlineOk) == Drive(s1, cmdlineOk);
  }

  /** It lets the boot through uncounted, counts it and lets it through, or goes back. */
  lemma DrivePassed(s: State, cmdlineOk: bool)
    requires s.phase == Booting(BMax)
    ensures DrivePasses(s, cmdlineOk) ==
            if Tries(s.files, s.running) && ValueOr(s.files.count, 0) < ValueOr(s.files.max, 2) then 1 else 0
  {
    hide SetRoot, GetRoot, IsSlot, Other;
    var e := Boot(cmdlineOk);
    var s2 := Next(Next(s, e), e);
    if s2.phase.Booting? {
      var s4 := Next(Next(s2, e), e);
      if s4.phase.Booting? {
        var s6 := Next(Next(s4, e), e);
        assert DrivePasses(s6, cmdlineOk) == 0;
        assert DrivePasses(s4, cmdlineOk) == DrivePasses(Next(s4, e), cmdlineOk) == DrivePasses(s6, cmdlineOk);
      }
      assert DrivePasses(s2, cmdlineOk) == DrivePasses(Next(s2, e), cmdlineOk);
    }
    assert DrivePasses(s, cmdlineOk) == DrivePasses(Next(s, e), cmdlineOk) == if s2.phase.Booting? then DrivePasses(s2, cmdlineOk) else 0;
  }

  /** The next recorded boot after the last one allowed restores the previous root and ends the trial. */
  lemma NextBootRestores(s: State)
    requires Trial(s) && IsSlot(BootRoot(s)) && s.phase.Off? && s.behind.None?
    requires ValueOr(s.files.count, 0) >= ValueOr(s.files.max, 2)
    ensures var t := Drive(Next(s, PowerOn(Mounted)), true);
            && BootRoot(t) == Other(BootRoot(s)) && t.cmdline == SetRoot(s.cmdline, Other(BootRoot(s)))
            && t.phase.Off? && t.behind.None? && Settled(t) && !t.files.pending && t.files.count == Some(0)
            && t.complete == s.complete
  {
    SlotsAreWords();
    DriveOutcome(Next(s, PowerOn(Mounted)), true);
    Switched(s, Other(BootRoot(s)));
  }

  // ----- no ping-pong

  function Changed(s: State, t: State): nat { if BootRoot(s) != BootRoot(t) then 1 else 0 }

  function Changes(s: State, es: seq<Event>): nat
    requires CanRun(s, es)
    decreases |es|
  {
    if es == [] then 0 else Changed(s, Next(s, es[0])) + Changes(Next(s, es[0]), es[1..])
  }

  /** How often the boot root can still change before another apply starts. */
  function Budget(s: State): nat {
    if !NoApply(s) then 2 else if Settled(s) then 0 else 1
  }

  lemma CountBudget(s: State, e: Event)
    requires Safe(s) && Enabled(s, e) && ((e.Boot? && s.phase.pc != BCmdline) || IsPower(e))
    ensures Changed(s, Next(s, e)) + Budget(Next(s, e)) <= Budget(s)
  {
    hide SetRoot, GetRoot, IsSlot, Other, Slots;
  }

  lemma RollbackBudget(s: State, e: Event)
    requires Safe(s) && Enabled(s, e) && e.Boot? && s.phase.pc == BCmdline
    ensures Changed(s, Next(s, e)) + Budget(Next(s, e)) <= Budget(s)
  {
    hide SetRoot, GetRoot, BootRoot, IsSlot, Other, Slots;
    TwoSlots();
    SlotFacts(s);
    RootStep(s, e);
  }

  lemma ApplyBudget(s: State, e: Event)
    requires Safe(s) && Enabled(s, e) && !e.Boot? && !IsPower(e) && e != ApplyStart
    ensures Changed(s, Next(s, e)) + Budget(Next(s, e)) <= Budget(s)
  {
    hide SetRoot, GetRoot, BootRoot, IsSlot, Other, Slots;
    TwoSlots();
    SlotFacts(s);
    RootStep(s, e);
  }

  lemma BudgetStep(s: State, e: Event)
    requires Safe(s) && Enabled(s, e) && e != ApplyStart
    ensures Changed(s, Next(s, e)) + Budget(Next(s, e)) <= Budget(s)
  {
    hide Safe, Next, Changed, Budget;
    if e.Boot? && s.phase.pc == BCmdline {
      RollbackBudget(s, e);
    } else if e.Boot? || IsPower(e) {
      CountBudget(s, e);
    } else {
      ApplyBudget(s, e);
    }
  }

  predicate NoStart(es: seq<Event>) { forall i :: 0 <= i < |es| ==> es[i] != ApplyStart }

  /** From the start of an apply to the start of the next, the boot root changes at most twice; once the update is
      confirmed or rolled back, not at all. */
  lemma {:induction false} NoPingPong(s: State, es: seq<Event>)
    requires Safe(s) && CanRun(s, es) && NoStart(es)
    ensures Changes(s, es) <= Budget(s) <= 2
    decreases |es|
  {
    if es != [] {
      assert es[0] != ApplyStart;
      NextSafe(s, es[0]);
      BudgetStep(s, es[0]);
      NoPingPong(Next(s, es[0]), es[1..]);
    }
  }

  /** The write that confirms settles the device. */
  lemma ConfirmSettles(s: State, mounted: bool, healthy: bool)
    requires Safe(s) && s.phase == Up(CPending, AIdle)
    ensures Settled(Next(s, Confirm(mounted, healthy)))
  {
  }

  // ----- when an apply may start

  lemma {:induction false} NoStartFair(s: State, es: seq<Event>)
    requires CanRun(s, es) && NoStart(es)
    ensures AllFair(s, es)
    decreases |es|
  {
    hide Next, Enabled;
    if es != [] {
      assert es[0] != ApplyStart;
      NoStartFair(Next(s, es[0]), es[1..]);
    }
  }

  /** An apply up to the point where the image of the other slot is incomplete. */
  lemma InstallHalf(s: State) returns (es: seq<Event>)
    requires IsSlot(s.running) && s.phase.Up? && s.phase.apply == AIdle
    ensures CanRun(s, [ApplyStart] + es) && NoStart(es)
    ensures var t := Exec(s, [ApplyStart] + es);
            && t.cmdline == s.cmdline && t.behind == s.behind && t.phase.Up? && t.phase.apply == AInstalling
            && Other(s.running) !in t.complete
  {
    hide SetRoot, GetRoot;
    var a := Trace3(s, ApplyStart, Apply, Apply);
    var s1 := Exec(s, a);
    var b := Trace3(s1, Apply, Apply, Apply);
    var s2 := Exec(s1, b);
    var c := Trace2(s2, Apply, Apply);
    var d := Chain(s1, b, c);
    d := Chain(s, a, d);
    es := [Apply, Apply] + (b + c);
    assert d == [ApplyStart] + es;
  }

  lemma {:induction false} PassesChain(s: State, a: seq<Event>, b: seq<Event>)
    requires CanRun(s, a) && CanRun(Exec(s, a), b) && CanRun(s, a + b)
    ensures Passes(s, a + b) == Passes(s, a) + Passes(Exec(s, a), b)
    decreases |a|
  {
    hide Next, Enabled, Pass;
    if a == [] {
      assert a + b == b;
    } else {
      assert (a + b)[1..] == a[1..] + b;
      PassesChain(Next(s, a[0]), a[1..], b);
    }
  }

  /** Power on, a whole run of S05, power off. */
  lemma OneBoot(s: State) returns (es: seq<Event>)
    requires s.phase.Off? && s.behind.None?
    ensures var t := Next(s, PowerOn(Mounted));
            && CanRun(s, es) && NoStart(es) && Exec(s, es) == Down(BootOutcome(t, true))
            && Passes(s, es) == DrivePasses(t, true)
  {
    hide Drive, DrivePasses, BootOutcome;
    var on := PowerOn(Mounted);
    var t := Next(s, on);
    OneStep(s, on);
    DriveOutcome(t, true);
    var boot := DriveRuns(t, true);
    var a := Chain(s, [on], boot);
    PassesChain(s, [on], boot);
    var u := BootOutcome(t, true);
    OneStep(u, PowerCut);
    es := Chain(s, a, [PowerCut]);
    PassesChain(s, a, [PowerCut]);
    assert Passes(s, [on]) == Pass(s, on) + Passes(t, []) by { assert [on][1..] == []; }
    assert Passes(u, [PowerCut]) == Pass(u, PowerCut) + Passes(Down(u), []) by { assert [PowerCut][1..] == []; }
  }

  /** How many more boots S05 lets through. */
  function BootsLeft(f: Files): nat {
    var n, m := ValueOr(f.count, 0), ValueOr(f.max, 2);
    if n < m then m - n else 0
  }

  /** A trial with nobody to confirm it ends in the other slot, whatever is in it, after exactly as many boots as are
      left. */
  lemma {:induction false} RollsBack(s: State) returns (es: seq<Event>)
    requires Trial(s) && IsSlot(BootRoot(s)) && s.phase.Off? && s.behind.None?
    ensures CanRun(s, es) && NoStart(es) && Passes(s, es) == BootsLeft(s.files)
    ensures BootRoot(Exec(s, es)) == Other(BootRoot(s)) && Exec(s, es).complete == s.complete
    decreases BootsLeft(s.files)
  {
    hide SetRoot, GetRoot, Next, Enabled, Passes, CanRun, Exec, DrivePasses, IsSlot, Other;
    var boot := OneBoot(s);
    var u := Exec(s, boot);
    BootTurn(s);
    if BootsLeft(s.files) == 0 {
      es := boot;
    } else {
      var more := RollsBack(u);
      es := Chain(s, boot, more);
      PassesChain(s, boot, more);
    }
  }

  /** One recorded boot of a trial: counted, or the last. */
  lemma BootTurn(s: State)
    requires Trial(s) && IsSlot(BootRoot(s)) && s.phase.Off? && s.behind.None?
    ensures var t := Next(s, PowerOn(Mounted));
            var u := Down(BootOutcome(t, true));
            && u.complete == s.complete && u.phase.Off? && u.behind.None?
            && if BootsLeft(s.files) == 0 then DrivePasses(t, true) == 0 && BootRoot(u) == Other(BootRoot(s))
               else DrivePasses(t, true) == 1 && Trial(u) && BootRoot(u) == BootRoot(s)
                    && BootsLeft(u.files) == BootsLeft(s.files) - 1
  {
    hide SetRoot, GetRoot, DrivePasses;
    SlotsAreWords();
    DrivePassed(Next(s, PowerOn(Mounted)), true);
    Switched(s, Other(BootRoot(s)));
  }

  /** An apply that starts unfairly can leave a boot text that names a slot without an image. */
  lemma UnfairBricks(s: State) returns (es: seq<Event>)
    requires Safe(s) && s.phase.Up? && s.phase.apply == AIdle && !Fair(s, ApplyStart)
    ensures CanRun(s, [ApplyStart] + es) && NoStart(es)
    ensures var t := Exec(s, [ApplyStart] + es); BootRoot(t) !in t.complete
  {
    hide SetRoot, GetRoot, Next, Enabled;
    SlotsAreWords();
    es := InstallHalf(s);
    var a := [ApplyStart] + es;
    if s.running == BootRoot(s) {
      var t := Exec(s, a);
      var off := Cut(t);
      var b := Chain(s, a, off);
      var more := RollsBack(Exec(t, off));
      b := Chain(s, b, more);
      es := es + (off + more);
      assert b == [ApplyStart] + es;
    }
  }

  lemma Cut(s: State) returns (es: seq<Event>)
    ensures es == [PowerCut] && CanRun(s, es) && Exec(s, es) == Down(s)
  {
    es := [PowerCut];
    assert es[1..] == [];
  }

  /** Exactly when it is safe to start an apply: when the boot text names the running slot and no tmpfs hides files
      out of which a rollback from it can come, and only then, no continuation with crashes ends in a boot text that
      names a slot without an image. */
  lemma StartExact(s: State)
    requires Safe(s) && s.phase.Up? && s.phase.apply == AIdle
    ensures Fair(s, ApplyStart) <==>
            forall es :: CanRun(s, [ApplyStart] + es) && NoStart(es)
                         ==> var t := Exec(s, [ApplyStart] + es); BootRoot(t) in t.complete
  {
    hide Safe, Next, Enabled;
    if Fair(s, ApplyStart) {
      forall es | CanRun(s, [ApplyStart] + es) && NoStart(es)
        ensures var t := Exec(s, [ApplyStart] + es); BootRoot(t) in t.complete
      {
        assert ([ApplyStart] + es)[1..] == es;
        NextSafe(s, ApplyStart);
        NoStartFair(Next(s, ApplyStart), es);
        SafeRun(Next(s, ApplyStart), es);
        SafeNames(Exec(s, [ApplyStart] + es));
      }
    } else {
      var es := UnfairBricks(s);
      assert CanRun(s, [ApplyStart] + es) && NoStart(es);
    }
  }

  lemma SafeNames(s: State)
    requires Safe(s)
    ensures BootRoot(s) in s.complete
  {
  }

  // ----- what a confirmation vouches for

  predicate Honest(s: State) {
    && (s.files.confirmed.Some? ==> s.files.confirmed.value in s.vouched)
    && (Disk(s).confirmed.Some? ==> Disk(s).confirmed.value in s.vouched)
    && (s.phase.Up? && s.phase.confirm in {CPending, CCount, CConfirmed} ==> s.running in s.vouched)
  }

  lemma NextHonest(s: State, e: Event)
    requires Honest(s) && Enabled(s, e)
    ensures Honest(Next(s, e))
  {
    hide SetRoot, GetRoot, Other;
  }

  lemma {:induction false} ConfirmedWasHealthy(s: State, es: seq<Event>)
    requires Honest(s) && CanRun(s, es)
    ensures Honest(Exec(s, es))
    decreases |es|
  {
    hide Honest, Next, Enabled;
    if es != [] {
      NextHonest(s, es[0]);
      ConfirmedWasHealthy(Next(s, es[0]), es[1..]);
    }
  }

  /** A slot is vouched for only by S95 finding it healthy while it runs as the pending target. */
  lemma VouchedOnlyHealthy(s: State, e: Event, r: string)
    requires Enabled(s, e) && r !in s.vouched && r in Next(s, e).vouched
    ensures e == Confirm(true, true) && s.phase.Up? && s.running == r
            && s.files.pending && s.files.target == Some(r)
  {
  }
}
