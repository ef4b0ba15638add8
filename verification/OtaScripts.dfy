/** The three update scripts as they are written, each run without interruption, and the runs of OtaBoot they
    are. */
module OtaScripts {
  import opened Sequences
  import opened Cmdline
  import opened OtaBoot

  type ExitCode = c: nat | c > 0 witness 1

  /** What becomes of the download: there is no tool, the tool fails, the file is empty, or it is there. */
  datatype Download = NoTool | ToolFails(code: ExitCode) | Empty | Fetched

  /** What becomes of the switch: the boot text cannot be written, or it is and a later command fails, or the device
      reboots. */
  datatype Switching = TextFails(code: ExitCode) | StopsShort(code: ExitCode) | Reboots

  /** The exit code of an apply on a known slot; 0 is the reboot. */
  function ApplyCode(fetch: Download, keyThere: bool, install: nat, switching: Switching): nat {
    match fetch
    case NoTool => 4
    case ToolFails(code) => code
    case Empty => 5
    case Fetched =>
      if !keyThere then 6
      else if install != 0 then install
      else match switching case TextFails(code) => code case StopsShort(code) => code case Reboots => 0
  }

  /** What it leaves behind. */
  function Applied(s: State, fetch: Download, keyThere: bool, install: nat, switching: Switching): State
    requires s.phase.Up?
  {
    var to := Other(s.running);
    var p := s.(files := Prepare(s), phase := Up(s.phase.confirm, AIdle));
    if !fetch.Fetched? || !keyThere then p else Switch(p, to, install, switching)
  }

  function Prepare(s: State): Files {
    Files(true, Some(Other(s.running)), Some(s.running), Some(0), Some(2), s.files.confirmed)
  }

  function Switch(p: State, to: string, install: nat, switching: Switching): State {
    if install != 0 then p.(complete := p.complete - {to})
    else
      var q := p.(complete := p.complete + {to});
      match switching
      case TextFails(_) => q
      case StopsShort(_) => q.(cmdline := SetRoot(q.cmdline, to))
      case Reboots => Down(q.(cmdline := SetRoot(q.cmdline, to)))
  }

  class Board {
    var pending: bool
    var target: Option<string>
    var previous: Option<string>
    var count: Option<nat>
    var max: Option<nat>
    var confirmed: Option<string>
    var behind: Option<Files>
    var cmdline: string
    var procCmdline: string
    var complete: set<string>
    ghost var phase: Phase
    ghost var vouched: set<string>

    ghost function View(): State
      reads this
    {
      State(Files(pending, target, previous, count, max, confirmed), behind, cmdline,
            ValueOr(GetRoot(procCmdline), ""), complete, phase, vouched)
    }

    constructor (cmdline: string, complete: set<string>)
      ensures View() == OtaBoot.State(NO_FILES, None, cmdline, "", complete, Off, {})
    {
      this.cmdline, this.complete, this.procCmdline := cmdline, complete, "";
      pending, target, previous, count, max, confirmed := false, None, None, None, None, None;
      behind, phase, vouched := None, Off, {};
    }

    /** reboot -f: a tmpfs goes, the files on the disk stay. */
    method Reboot()
      modifies this
      ensures View() == Down(old(View()))
    {
      if behind.Some? {
        var f := behind.value;
        pending, target, previous := f.pending, f.target, f.previous;
        count, max, confirmed := f.count, f.max, f.confirmed;
        behind := None;
      }
      phase := Off;
    }

    /** S05ota_bootstate start, with something mounted on /persist.  `cmdlineOk` is whether cmdline.txt is there and
        can be written. */
    method BootstateStart(cmdlineOk: bool)
      requires phase == Booting(BMax) && Safe(View())
      modifies this
      ensures View() == BootOutcome(old(View()), cmdlineOk) == Drive(old(View()), cmdlineOk)
      ensures Safe(View())
    {
      hide SetRoot, GetRoot, Safe, Drive, Next, Exec, CanRun, AllFair, IsSlot, Other;
      DriveOutcome(View(), cmdlineOk);
      ghost var es := DriveRuns(View(), cmdlineOk);
      NoStartFair(View(), es);
      SafeRun(View(), es);
      if max == None {
        max := Some(2);
      }
      if !pending {
        phase := Up(CTest, AIdle);
        return;
      }
      var root := GetRootDev(procCmdline);
      var currentRoot := ValueOr(root, "");
      if target != None && currentRoot == target.value {
        var n := ValueOr(count, 0) + 1;
        count := Some(n);
        if n > ValueOr(max, 2) {
          if previous != None && previous.value != currentRoot {
            if cmdlineOk {
              cmdline := SetCmdlineRoot(cmdline, previous.value);
            }
          }
          pending := false;
          count := Some(0);
          Reboot();
          return;
        }
      }
      phase := Up(CTest, AIdle);
    }

    /** S95ota_confirm start. */
    method ConfirmStart(mounted: bool, healthy: bool)
      requires phase.Up? && phase.confirm == CTest && Safe(View())
      modifies this
      ensures var s, e := old(View()), OtaBoot.Confirm(mounted, healthy);
              View() == if mounted && healthy && s.files.pending && s.files.target == Some(s.running)
                        then Next(Next(Next(Next(s, e), e), e), e) else Next(s, e)
      ensures mounted && healthy && old(pending) && old(target) == Some(old(View()).running)
              ==> !pending && count == Some(0) && confirmed == old(target)
    {
      hide GetRoot, SetRoot, Safe, IsSlot, Other;
      ghost var a := phase.apply;
      phase := Up(CDone, a);
      if !mounted {
        return;
      }
      if !pending {
        return;
      }
      var root := GetRootDev(procCmdline);
      var currentRoot := ValueOr(root, "");
      if target == None || currentRoot != target.value {
        return;
      }
      if !healthy {
        return;
      }
      pending := false;
      count := Some(0);
      confirmed := Some(currentRoot);
      vouched := vouched + {currentRoot};
    }

    /** Note one step of the machine. */
    ghost method Note(s: State, es: seq<Event>, e: Event, c: ConfirmPc, a: ApplyPc) returns (more: seq<Event>)
      requires CanRun(s, es) && Enabled(Exec(s, es), e)
      requires View().(phase := Up(c, a)) == Next(Exec(s, es), e)
      modifies this`phase
      ensures phase == Up(c, a) && more == es + [e] && CanRun(s, more) && Exec(s, more) == View()
    {
      phase := Up(c, a);
      more := Append(s, es, e);
    }

    /** aawg-ota-apply.  The script is told what becomes of the download, the installation and the switch. */
    method OtaApply(fetch: Download, keyThere: bool, install: nat, switching: Switching)
      returns (r: nat, ghost es: seq<Event>)
      requires phase.Up? && phase.apply == AIdle
      modifies this
      ensures CanRun(old(View()), es) && View() == Exec(old(View()), es)
      ensures GetRoot(old(procCmdline)).None? ==> r == 1 && View() == old(View())
      ensures GetRoot(old(procCmdline)).Some? && !IsSlot(old(View()).running) ==> r == 3 && View() == old(View())
      ensures IsSlot(old(View()).running) ==> r == ApplyCode(fetch, keyThere, install, switching)
                                              && View() == Applied(old(View()), fetch, keyThere, install, switching)
      ensures IsSlot(old(View()).running) && Safe(old(View())) && Fair(old(View()), ApplyStart) ==> Safe(View())
    {
      hide SetRoot, GetRoot, Safe, Fair, Exec, CanRun;
      ghost var s := View();
      ghost var c := phase.confirm;
      NoStep(s);
      var root := GetRootDev(procCmdline);
      if root == None {
        return 1, [];
      }
      var currentRoot := root.value;
      if currentRoot != A && currentRoot != B {
        es := Append(s, [], ApplyStart);
        return 3, es;
      }
      var targetRoot := if currentRoot == A then B else A;
      es := WriteFiles(currentRoot, targetRoot);
      if fetch != Fetched || !keyThere {
        es := Note(s, es, ApplyFails, c, AIdle);
        StartedFair(s, es);
        r := match fetch case NoTool => 4 case ToolFails(code) => code case Empty => 5 case Fetched => 6;
        return;
      }
      ghost var more;
      r, more := InstallAndSwitch(targetRoot, install, switching);
      es := Chain(s, es, more);
      StartedFair(s, es);
    }

    /** The first two writes: where to go back to, and where to go. */
    method WriteRoots(currentRoot: string, targetRoot: string) returns (ghost es: seq<Event>)
      requires phase.Up? && phase.apply == AIdle && IsSlot(currentRoot)
      requires currentRoot == View().running && targetRoot == Other(currentRoot)
      modifies this
      ensures CanRun(old(View()), es) && View() == Exec(old(View()), es) && Started(es)
      ensures var s := old(View());
              View() == s.(files := s.files.(previous := Some(currentRoot), target := Some(targetRoot)),
                           phase := Up(s.phase.confirm, ACount))
    {
      hide SetRoot, GetRoot, Exec, CanRun, IsSlot, Other;
      ghost var s := View();
      ghost var c := phase.confirm;
      NoStep(s);
      es := Note(s, [], ApplyStart, c, APrevious);
      previous := Some(currentRoot);
      es := Note(s, es, Apply, c, ATarget);
      target := Some(targetRoot);
      es := Note(s, es, Apply, c, ACount);
    }

    /** The other three: no boot counted, two allowed, and only then the flag. */
    method WriteCounters() returns (ghost es: seq<Event>)
      requires phase.Up? && phase.apply == ACount
      modifies this
      ensures CanRun(old(View()), es) && View() == Exec(old(View()), es) && NoStart(es)
      ensures var s := old(View());
              View() == s.(files := s.files.(count := Some(0), max := Some(2), pending := true),
                           phase := Up(s.phase.confirm, ADownload))
    {
      hide SetRoot, GetRoot, Exec, CanRun, IsSlot, Other;
      ghost var s := View();
      ghost var c := phase.confirm;
      NoStep(s);
      count := Some(0);
      es := Note(s, [], Apply, c, AMax);
      max := Some(2);
      es := Note(s, es, Apply, c, APending);
      pending := true;
      es := Note(s, es, Apply, c, ADownload);
    }

    /** The five writes that prepare an update, in their order. */
    method WriteFiles(currentRoot: string, targetRoot: string) returns (ghost es: seq<Event>)
      requires phase.Up? && phase.apply == AIdle && IsSlot(currentRoot)
      requires currentRoot == View().running && targetRoot == Other(currentRoot)
      modifies this
      ensures CanRun(old(View()), es) && View() == Exec(old(View()), es) && Started(es)
      ensures var s := old(View()); View() == s.(files := Prepare(s), phase := Up(s.phase.confirm, ADownload))
    {
      hide SetRoot, GetRoot, Exec, CanRun, IsSlot, Other;
      ghost var s := View();
      es := WriteRoots(currentRoot, targetRoot);
      ghost var more := WriteCounters();
      assert (es + more)[1..] == es[1..] + more;
      es := Chain(s, es, more);
    }

    /** swupdate into the other slot; `install` is its exit code. */
    method Install(targetRoot: string, install: nat) returns (ghost es: seq<Event>)
      requires phase.Up? && phase.apply == ADownload && targetRoot == Other(View().running)
      modifies this
      ensures CanRun(old(View()), es) && View() == Exec(old(View()), es) && NoStart(es)
      ensures var s := old(View());
              View() == if install != 0 then s.(complete := s.complete - {targetRoot}, phase := Up(s.phase.confirm, AIdle))
                        else s.(complete := s.complete + {targetRoot}, phase := Up(s.phase.confirm, ASwitch))
    {
      hide SetRoot, GetRoot, Exec, CanRun, IsSlot, Other;
      ghost var s := View();
      ghost var c := phase.confirm;
      es := [];
      NoStep(s);
      es := Note(s, es, Apply, c, AInstall);
      complete := complete - {targetRoot};
      es := Note(s, es, Apply, c, AInstalling);
      if install != 0 {
        es := Note(s, es, ApplyFails, c, AIdle);
        return;
      }
      complete := complete + {targetRoot};
      es := Note(s, es, Apply, c, ASwitch);
      assert complete == s.complete + {targetRoot};
    }

    /** set_cmdline_root of the script, and the reboot. */
    method SwitchRoot(targetRoot: string, switching: Switching) returns (r: nat, ghost es: seq<Event>)
      requires phase.Up? && phase.apply == ASwitch && targetRoot == Other(View().running)
      modifies this
      ensures CanRun(old(View()), es) && View() == Exec(old(View()), es) && NoStart(es)
      ensures r == ApplyCode(Fetched, true, 0, switching)
      ensures var s := old(View());
              View() == match switching
                        case TextFails(_) => s.(phase := Up(s.phase.confirm, AIdle))
                        case StopsShort(_) =>
                          s.(cmdline := SetRoot(s.cmdline, targetRoot), phase := Up(s.phase.confirm, AIdle))
                        case Reboots => Down(s.(cmdline := SetRoot(s.cmdline, targetRoot)))
    {
      hide SetRoot, GetRoot, Exec, CanRun, IsSlot, Other;
      ghost var s := View();
      ghost var c := phase.confirm;
      NoStep(s);
      match switching {
        case TextFails(code) =>
          es := Note(s, [], ApplyFails, c, AIdle);
          r := code;
        case StopsShort(code) =>
          cmdline := SetCmdlineRoot(cmdline, targetRoot);
          es := Note(s, [], ApplyStops, c, AIdle);
          r := code;
        case Reboots =>
          es := Append(s, [], Apply);
          cmdline := SetCmdlineRoot(cmdline, targetRoot);
          Reboot();
          r := 0;
      }
    }

    /** swupdate, the boot text, and the reboot. */
    method InstallAndSwitch(targetRoot: string, install: nat, switching: Switching) returns (r: nat, ghost es: seq<Event>)
      requires phase.Up? && phase.apply == ADownload && targetRoot == Other(View().running)
      modifies this
      ensures CanRun(old(View()), es) && View() == Exec(old(View()), es) && NoStart(es)
      ensures r == ApplyCode(Fetched, true, install, switching)
      ensures var s := old(View()); View() == Switch(s.(phase := Up(s.phase.confirm, AIdle)), targetRoot, install, switching)
    {
      hide SetRoot, GetRoot, Exec, CanRun, IsSlot, Other;
      ghost var s := View();
      es := Install(targetRoot, install);
      if install != 0 {
        return install, es;
      }
      ghost var more;
      r, more := SwitchRoot(targetRoot, switching);
      es := Chain(s, es, more);
    }
  }

  /** The events of one apply. */
  predicate Started(es: seq<Event>) { es != [] && es[0] == ApplyStart && NoStart(es[1..]) }

  lemma StartedFair(s: State, es: seq<Event>)
    requires CanRun(s, es) && Started(es)
    ensures Safe(s) && Fair(s, ApplyStart) ==> Safe(Exec(s, es))
  {
    hide Safe, Next, Enabled;
    NoStartFair(Next(s, es[0]), es[1..]);
    if Safe(s) && Fair(s, ApplyStart) {
      SafeRun(s, es);
    }
  }

  lemma NoStep(s: State)
    ensures CanRun(s, []) && Exec(s, []) == s
  {
  }

  lemma Append(s: State, es: seq<Event>, e: Event) returns (more: seq<Event>)
    requires CanRun(s, es) && Enabled(Exec(s, es), e)
    ensures more == es + [e] && CanRun(s, more) && Exec(s, more) == Next(Exec(s, es), e)
  {
    hide Next;
    OneStep(Exec(s, es), e);
    more := Chain(s, es, [e]);
  }
}
