/** The control socket: the answer to LIST, the dispatch of a command line, and the loops with which both ends
    read a line that may arrive in any pieces. */
module ControlChannel {
  import opened Sequences
  import opened Sockets
  import opened JsonText
  import OtaBoot

  datatype Device = Device(objectPath: string, address: string, name: string,
                           paired: bool, trusted: bool, connected: bool)

  /** What LIST reports; the uptime is the text the stream prints for the number. */
  datatype Status = Status(uptime: string, rootDev: string, slot: string, kernelRelease: string,
                           version: string, gitSha: string, buildTimeUtc: string, devices: seq<Device>)

  function SlotOf(rootDev: string): string {
    if rootDev == "/dev/mmcblk0p2" then "A" else if rootDev == "/dev/mmcblk0p3" then "B" else "unknown"
  }

  /** The two system partitions, and everything else. */
  lemma SlotExact(rootDev: string)
    ensures SlotOf(rootDev) == "A" <==> rootDev == "/dev/mmcblk0p2" == OtaBoot.A
    ensures SlotOf(rootDev) == "B" <==> rootDev == "/dev/mmcblk0p3" == OtaBoot.B
    ensures SlotOf(rootDev) == "unknown" <==> !OtaBoot.IsSlot(rootDev)
  {
    var a, b, u := "A", "B", "unknown";
    assert a[0] != b[0] && a[0] != u[0] && b[0] != u[0];
    assert OtaBoot.A[13] == '2' && OtaBoot.B[13] == '3';
  }

  /** The characters of a printed number. */
  predicate IsNumber(t: string) {
    forall i :: 0 <= i < |t| ==> t[i] in "0123456789.e+-"
  }

  const HEAD := "{\"ok\":true,\"uptimeSec\":"
  const BUILD := ",\"build\":{"
  const DEVICES := "},\"devices\":["
  const CLOSE := "]}\n"

  // ----- the printed form, each piece in front of what follows

  function Flags(d: Device, rest: string): string {
    "," + Flag("paired", d.paired, "," + Flag("trusted", d.trusted, "," + Flag("connected", d.connected, "}" + rest)))
  }

  function PrintDevice(d: Device, rest: string): string {
    "{" + Member("objectPath", d.objectPath,
          "," + Member("address", d.address, "," + Member("name", d.name, Flags(d, rest))))
  }

  function PrintDevices(ds: seq<Device>, rest: string): string {
    if ds == [] then rest
    else PrintDevice(ds[0], (if |ds| > 1 then "," else "") + PrintDevices(ds[1..], rest))
  }

  function PrintBuild(s: Status, rest: string): string {
    BUILD + Member("version", s.version,
            "," + Member("gitSha", s.gitSha, "," + Member("buildTimeUtc", s.buildTimeUtc, rest)))
  }

  function PrintRoot(s: Status, rest: string): string {
    "," + Member("rootDev", s.rootDev,
          "," + Member("slot", s.slot, "," + Member("kernelRelease", s.kernelRelease, rest)))
  }

  function PrintListed(ds: seq<Device>): string {
    DEVICES + PrintDevices(ds, CLOSE)
  }

  function PrintTail(s: Status): string {
    PrintRoot(s, PrintBuild(s, PrintListed(s.devices)))
  }

  function PrintList(s: Status): string {
    HEAD + (s.uptime + PrintTail(s))
  }

  // ----- the same, key by key

  /** A string behind what opens it, and the quote that closes it. */
  function Quoted(open: string, v: string): string { open + Escape(v) + "\"" }

  function Bool(open: string, v: bool): string { open + (if v then "true" else "false") }

  lemma MemberText(separator: string, key: string, open: string, v: string, rest: string)
    requires open == separator + "\"" + key + "\":\""
    ensures separator + Member(key, v, rest) == Quoted(open, v) + rest
  {
    hide Escape;
  }

  lemma FlagText(key: string, open: string, v: bool, rest: string)
    requires open == ",\"" + key + "\":"
    ensures "," + Flag(key, v, rest) == Bool(open, v) + rest
  {
  }

  lemma RootText(s: Status, rest: string)
    ensures PrintRoot(s, rest) == Quoted(",\"rootDev\":\"", s.rootDev)
                                + (Quoted(",\"slot\":\"", s.slot)
                                + (Quoted(",\"kernelRelease\":\"", s.kernelRelease) + rest))
  {
    hide Quoted, Member;
    var r2 := "," + Member("kernelRelease", s.kernelRelease, rest);
    var r1 := "," + Member("slot", s.slot, r2);
    MemberText(",", "rootDev", ",\"rootDev\":\"", s.rootDev, r1);
    MemberText(",", "slot", ",\"slot\":\"", s.slot, r2);
    MemberText(",", "kernelRelease", ",\"kernelRelease\":\"", s.kernelRelease, rest);
  }

  lemma BuildText(s: Status, rest: string)
    ensures PrintBuild(s, rest) == Quoted(",\"build\":{\"version\":\"", s.version)
                                 + (Quoted(",\"gitSha\":\"", s.gitSha)
                                 + (Quoted(",\"buildTimeUtc\":\"", s.buildTimeUtc) + rest))
  {
    hide Quoted, Member;
    var r5 := "," + Member("buildTimeUtc", s.buildTimeUtc, rest);
    var r4 := "," + Member("gitSha", s.gitSha, r5);
    MemberText(BUILD, "version", ",\"build\":{\"version\":\"", s.version, r4);
    MemberText(",", "gitSha", ",\"gitSha\":\"", s.gitSha, r5);
    MemberText(",", "buildTimeUtc", ",\"buildTimeUtc\":\"", s.buildTimeUtc, rest);
  }

  /** An answer without devices. */
  lemma ListText(s: Status)
    requires s.devices == []
    ensures PrintList(s) == "{\"ok\":true,\"uptimeSec\":" + (s.uptime
                          + (Quoted(",\"rootDev\":\"", s.rootDev)
                          + (Quoted(",\"slot\":\"", s.slot)
                          + (Quoted(",\"kernelRelease\":\"", s.kernelRelease)
                          + (Quoted(",\"build\":{\"version\":\"", s.version)
                          + (Quoted(",\"gitSha\":\"", s.gitSha)
                          + (Quoted(",\"buildTimeUtc\":\"", s.buildTimeUtc)
                          + "},\"devices\":[]}\n")))))))
  {
    hide Quoted, PrintRoot, PrintBuild;
    var end := "},\"devices\":[]}\n";
    RootText(s, PrintBuild(s, end));
    BuildText(s, end);
    assert PrintListed(s.devices) == end;
  }

  lemma DeviceText(d: Device, rest: string)
    ensures PrintDevice(d, rest) == Quoted("{\"objectPath\":\"", d.objectPath)
                                  + (Quoted(",\"address\":\"", d.address)
                                  + (Quoted(",\"name\":\"", d.name)
                                  + (Bool(",\"paired\":", d.paired)
                                  + (Bool(",\"trusted\":", d.trusted)
                                  + (Bool(",\"connected\":", d.connected)
                                  + ("}" + rest))))))
  {
    hide Quoted, Member, Bool, Flag;
    var f3 := "}" + rest;
    var f2 := "," + Flag("connected", d.connected, f3);
    var f1 := "," + Flag("trusted", d.trusted, f2);
    var f0 := Flags(d, rest);
    var n := "," + Member("name", d.name, f0);
    var a := "," + Member("address", d.address, n);
    MemberText("{", "objectPath", "{\"objectPath\":\"", d.objectPath, a);
    MemberText(",", "address", ",\"address\":\"", d.address, n);
    MemberText(",", "name", ",\"name\":\"", d.name, f0);
    FlagText("paired", ",\"paired\":", d.paired, f1);
    FlagText("trusted", ",\"trusted\":", d.trusted, f2);
    FlagText("connected", ",\"connected\":", d.connected, f3);
  }

  // ----- a reader for it

  function NextMember(key: string, t: string): (r: Option<(string, string)>)
    ensures r.Some? ==> |r.value.1| < |t|
  {
    var a := Expect(",", t);
    if a.None? then None else ReadMember(key, a.value)
  }

  function NextFlag(key: string, t: string): (r: Option<(bool, string)>)
    ensures r.Some? ==> |r.value.1| < |t|
  {
    var a := Expect(",", t);
    if a.None? then None else ReadFlag(key, a.value)
  }

  function ReadFlags(t: string): (r: Option<((bool, bool, bool), string)>)
    ensures r.Some? ==> |r.value.1| < |t|
  {
    var a := NextFlag("paired", t);
    if a.None? then None else
      var b := NextFlag("trusted", a.value.1);
      if b.None? then None else
        var c := NextFlag("connected", b.value.1);
        if c.None? then None else
          var e := Expect("}", c.value.1);
          if e.None? then None else Some(((a.value.0, b.value.0, c.value.0), e.value))
  }

  function ReadDevice(t: string): (r: Option<(Device, string)>)
    ensures r.Some? ==> |r.value.1| < |t|
  {
    var o := Expect("{", t);
    if o.None? then None else
      var a := ReadMember("objectPath", o.value);
      if a.None? then None else
        var b := NextMember("address", a.value.1);
        if b.None? then None else
          var c := NextMember("name", b.value.1);
          if c.None? then None else
            var f := ReadFlags(c.value.1);
            if f.None? then None
            else Some((Device(a.value.0, b.value.0, c.value.0, f.value.0.0, f.value.0.1, f.value.0.2), f.value.1))
  }

  function ReadDevices(t: string): Option<seq<Device>>
    decreases |t|
  {
    if t == CLOSE then Some([])
    else
      var d := ReadDevice(t);
      if d.None? then None
      else if d.value.1 == CLOSE then Some([d.value.0])
      else
        var comma := Expect(",", d.value.1);
        if comma.None? then None
        else
          var more := ReadDevices(comma.value);
          if more.None? || more.value == [] then None else Some([d.value.0] + more.value)
  }

  /** The text up to the next comma. */
  function UpToComma(t: string): (string, string) {
    if t == [] || t[0] == ',' then ("", t)
    else
      var (a, rest) := UpToComma(t[1..]);
      ([t[0]] + a, rest)
  }

  function ReadRoot(t: string): Option<((string, string, string), string)> {
    var a := NextMember("rootDev", t);
    if a.None? then None else
      var b := NextMember("slot", a.value.1);
      if b.None? then None else
        var c := NextMember("kernelRelease", b.value.1);
        if c.None? then None else Some(((a.value.0, b.value.0, c.value.0), c.value.1))
  }

  function ReadBuild(t: string): Option<((string, string, string), string)> {
    var o := Expect(BUILD, t);
    if o.None? then None else
      var a := ReadMember("version", o.value);
      if a.None? then None else
        var b := NextMember("gitSha", a.value.1);
        if b.None? then None else
          var c := NextMember("buildTimeUtc", b.value.1);
          if c.None? then None else Some(((a.value.0, b.value.0, c.value.0), c.value.1))
  }

  function ReadListed(t: string): Option<seq<Device>> {
    var o := Expect(DEVICES, t);
    if o.None? then None else ReadDevices(o.value)
  }

  /** Everything behind the uptime. */
  function ReadTail(uptime: string, t: string): Option<Status> {
    var r := ReadRoot(t);
    if r.None? then None else
      var b := ReadBuild(r.value.1);
      if b.None? then None else
        var ds := ReadListed(b.value.1);
        if ds.None? then None
        else Some(Status(uptime, r.value.0.0, r.value.0.1, r.value.0.2,
                         b.value.0.0, b.value.0.1, b.value.0.2, ds.value))
  }

  function ReadList(t: string): Option<Status> {
    var h := Expect(HEAD, t);
    if h.None? then None else
      var (uptime, rest) := UpToComma(h.value);
      ReadTail(uptime, rest)
  }

  // ----- reading undoes printing

  lemma NextMemberRead(key: string, value: string, rest: string)
    ensures NextMember(key, "," + Member(key, value, rest)) == Some((value, rest))
  {
    ExpectFound(",", Member(key, value, rest));
    MemberRead(key, value, rest);
  }

  lemma NextFlagRead(key: string, value: bool, rest: string)
    ensures NextFlag(key, "," + Flag(key, value, rest)) == Some((value, rest))
  {
    ExpectFound(",", Flag(key, value, rest));
    FlagRead(key, value, rest);
  }

  lemma FlagsRead(d: Device, rest: string)
    ensures ReadFlags(Flags(d, rest)) == Some(((d.paired, d.trusted, d.connected), rest))
  {
    var c := "," + Flag("connected", d.connected, "}" + rest);
    NextFlagRead("paired", d.paired, "," + Flag("trusted", d.trusted, c));
    NextFlagRead("trusted", d.trusted, c);
    NextFlagRead("connected", d.connected, "}" + rest);
    ExpectFound("}", rest);
  }

  lemma DeviceRead(d: Device, rest: string)
    ensures ReadDevice(PrintDevice(d, rest)) == Some((d, rest))
  {
    var f := Flags(d, rest);
    var n := "," + Member("name", d.name, f);
    var a := "," + Member("address", d.address, n);
    ExpectFound("{", Member("objectPath", d.objectPath, a));
    MemberRead("objectPath", d.objectPath, a);
    NextMemberRead("address", d.address, n);
    NextMemberRead("name", d.name, f);
    FlagsRead(d, rest);
  }

  lemma LastDevice(d: Device)
    ensures ReadDevices(PrintDevice(d, CLOSE)) == Some([d])
  {
    DeviceRead(d, CLOSE);
    assert PrintDevice(d, CLOSE)[0] == '{';
  }

  lemma DeviceBegins(d: Device, rest: string)
    ensures PrintDevice(d, rest) != [] && PrintDevice(d, rest)[0] == '{'
  {
  }

  lemma OneMoreDevice(d: Device, later: string)
    requires ReadDevices(later).Some? && ReadDevices(later).value != []
    ensures ReadDevices(PrintDevice(d, "," + later)) == Some([d] + ReadDevices(later).value)
  {
    hide PrintDevice, ReadDevice;
    DeviceRead(d, "," + later);
    DeviceBegins(d, "," + later);
    ExpectFound(",", later);
    assert ("," + later)[0] == ',';
  }

  lemma PrintStep(ds: seq<Device>, rest: string)
    requires ds != []
    ensures PrintDevices(ds, rest) ==
            PrintDevice(ds[0], if |ds| > 1 then "," + PrintDevices(ds[1..], rest) else rest)
  {
    hide PrintDevice;
    assert "" + PrintDevices(ds[1..], rest) == PrintDevices(ds[1..], rest);
  }

  lemma {:induction false} DevicesRead(ds: seq<Device>, text: string)
    requires text == PrintDevices(ds, CLOSE)
    ensures ReadDevices(text) == Some(ds)
    decreases |ds|
  {
    hide PrintDevice;
    hide ReadDevice;
    if ds != [] {
      PrintStep(ds, CLOSE);
      if |ds| == 1 {
        LastDevice(ds[0]);
        assert ds == [ds[0]];
      } else {
        var later := PrintDevices(ds[1..], CLOSE);
        DevicesRead(ds[1..], later);
        OneMoreDevice(ds[0], later);
        assert ds == [ds[0]] + ds[1..];
      }
    }
  }

  lemma ListedRead(ds: seq<Device>)
    ensures ReadListed(PrintListed(ds)) == Some(ds)
  {
    var text := PrintDevices(ds, CLOSE);
    ExpectFound(DEVICES, text);
    DevicesRead(ds, text);
  }

  lemma {:induction false} NumberRead(n: string, rest: string)
    requires IsNumber(n) && rest != [] && rest[0] == ','
    ensures UpToComma(n + rest) == (n, rest)
  {
    if n == [] {
      assert n + rest == rest;
    } else {
      assert (n + rest)[1..] == n[1..] + rest;
      assert n[0] in "0123456789.e+-";
      NumberRead(n[1..], rest);
      assert [n[0]] + n[1..] == n;
    }
  }

  lemma RootRead(s: Status, rest: string)
    ensures ReadRoot(PrintRoot(s, rest)) == Some(((s.rootDev, s.slot, s.kernelRelease), rest))
  {
    var k := "," + Member("kernelRelease", s.kernelRelease, rest);
    NextMemberRead("rootDev", s.rootDev, "," + Member("slot", s.slot, k));
    NextMemberRead("slot", s.slot, k);
    NextMemberRead("kernelRelease", s.kernelRelease, rest);
  }

  lemma BuildRead(s: Status, rest: string)
    ensures ReadBuild(PrintBuild(s, rest)) == Some(((s.version, s.gitSha, s.buildTimeUtc), rest))
  {
    var t := "," + Member("buildTimeUtc", s.buildTimeUtc, rest);
    var g := "," + Member("gitSha", s.gitSha, t);
    ExpectFound(BUILD, Member("version", s.version, g));
    MemberRead("version", s.version, g);
    NextMemberRead("gitSha", s.gitSha, t);
    NextMemberRead("buildTimeUtc", s.buildTimeUtc, rest);
  }

  lemma TailRead(s: Status)
    ensures ReadTail(s.uptime, PrintTail(s)) == Some(s)
  {
    var listed := PrintListed(s.devices);
    RootRead(s, PrintBuild(s, listed));
    BuildRead(s, listed);
    ListedRead(s.devices);
  }

  /** Every field of every device, and everything else, can be read back, whatever the strings contain. */
  lemma ListRead(s: Status)
    requires IsNumber(s.uptime)
    ensures ReadList(PrintList(s)) == Some(s)
  {
    ExpectFound(HEAD, s.uptime + PrintTail(s));
    TailBegins(s);
    NumberRead(s.uptime, PrintTail(s));
    TailRead(s);
  }

  lemma TailBegins(s: Status)
    ensures PrintTail(s) != [] && PrintTail(s)[0] == ','
  {
  }

  // ----- the answer is one line

  lemma DeviceLine(d: Device, rest: string)
    requires IsLine(rest)
    ensures IsLine(PrintDevice(d, rest))
  {
    hide Member, Flag, IsLine;
    LinePrefix("}", rest);
    FlagLine("connected", d.connected, "}" + rest);
    var c := Flag("connected", d.connected, "}" + rest);
    LinePrefix(",", c);
    FlagLine("trusted", d.trusted, "," + c);
    var t := Flag("trusted", d.trusted, "," + c);
    LinePrefix(",", t);
    FlagLine("paired", d.paired, "," + t);
    LinePrefix(",", Flag("paired", d.paired, "," + t));
    var f := Flags(d, rest);
    MemberLine("name", d.name, f);
    var n := Member("name", d.name, f);
    LinePrefix(",", n);
    MemberLine("address", d.address, "," + n);
    var a := Member("address", d.address, "," + n);
    LinePrefix(",", a);
    MemberLine("objectPath", d.objectPath, "," + a);
    LinePrefix("{", Member("objectPath", d.objectPath, "," + a));
  }

  lemma {:induction false} DevicesLine(ds: seq<Device>)
    ensures IsLine(PrintDevices(ds, CLOSE))
  {
    if ds != [] {
      DevicesLine(ds[1..]);
      var comma := if |ds| > 1 then "," else "";
      LinePrefix(comma, PrintDevices(ds[1..], CLOSE));
      DeviceLine(ds[0], comma + PrintDevices(ds[1..], CLOSE));
    }
  }

  lemma BuildLine(s: Status, rest: string)
    requires IsLine(rest)
    ensures IsLine(PrintBuild(s, rest))
  {
    MemberLine("buildTimeUtc", s.buildTimeUtc, rest);
    var t := Member("buildTimeUtc", s.buildTimeUtc, rest);
    LinePrefix(",", t);
    MemberLine("gitSha", s.gitSha, "," + t);
    var g := Member("gitSha", s.gitSha, "," + t);
    LinePrefix(",", g);
    MemberLine("version", s.version, "," + g);
    LinePrefix(BUILD, Member("version", s.version, "," + g));
  }

  lemma RootLine(s: Status, rest: string)
    requires IsLine(rest)
    ensures IsLine(PrintRoot(s, rest))
  {
    MemberLine("kernelRelease", s.kernelRelease, rest);
    var k := Member("kernelRelease", s.kernelRelease, rest);
    LinePrefix(",", k);
    MemberLine("slot", s.slot, "," + k);
    var t := Member("slot", s.slot, "," + k);
    LinePrefix(",", t);
    MemberLine("rootDev", s.rootDev, "," + t);
    LinePrefix(",", Member("rootDev", s.rootDev, "," + t));
  }

  lemma ListedLine(ds: seq<Device>)
    ensures IsLine(PrintListed(ds))
  {
    hide PrintDevices;
    DevicesLine(ds);
    LinePrefix(DEVICES, PrintDevices(ds, CLOSE));
  }

  lemma TailLine(s: Status)
    ensures IsLine(PrintTail(s))
  {
    var listed := PrintListed(s.devices);
    ListedLine(s.devices);
    BuildLine(s, listed);
    RootLine(s, PrintBuild(s, listed));
  }

  lemma NumberPrefix(n: string, rest: string)
    requires IsNumber(n) && IsLine(rest)
    ensures IsLine(n + rest)
  {
    forall i | 0 <= i < |n| ensures n[i] != '\n' {
      assert n[i] in "0123456789.e+-";
    }
    LinePrefix(n, rest);
  }

  lemma ListLine(s: Status)
    requires IsNumber(s.uptime)
    ensures IsLine(PrintList(s))
  {
    hide PrintTail, IsLine;
    TailLine(s);
    NumberPrefix(s.uptime, PrintTail(s));
    LinePrefix(HEAD, s.uptime + PrintTail(s));
  }

  // ----- handleCommand

  /** The LIST branch: the answer is appended to the stream piece by piece. */
  method ListResponse(uptime: string, rootDev: string, kernelRelease: string,
                      version: string, gitSha: string, buildTimeUtc: string, devices: seq<Device>)
    returns (os: string)
    ensures os == PrintList(Status(uptime, rootDev, SlotOf(rootDev), kernelRelease,
                                   version, gitSha, buildTimeUtc, devices))
  {
    hide PrintDevices;
    var slot := "unknown";
    if rootDev == "/dev/mmcblk0p2" {
      slot := "A";
    }
    if rootDev == "/dev/mmcblk0p3" {
      slot := "B";
    }
    ghost var s := Status(uptime, rootDev, slot, kernelRelease, version, gitSha, buildTimeUtc, devices);
    ghost var listed := PrintListed(devices);
    ghost var build := PrintBuild(s, listed);
    os := HEAD + uptime;
    Associate(HEAD, uptime, PrintTail(s));
    os := WriteRoot(os, rootDev, slot, kernelRelease, s, build);
    os := WriteBuild(os, version, gitSha, buildTimeUtc, s, listed);
    Associate(os, DEVICES, PrintDevices(devices, CLOSE));
    os := os + DEVICES;
    os := WriteDevices(os, devices);
    os := os + CLOSE;
  }

  method WriteRoot(os: string, rootDev: string, slot: string, kernelRelease: string, ghost s: Status, ghost rest: string)
    returns (r: string)
    requires s.rootDev == rootDev && s.slot == slot && s.kernelRelease == kernelRelease
    ensures r + rest == os + PrintRoot(s, rest)
  {
    ghost var k := "," + Member("kernelRelease", kernelRelease, rest);
    r := WriteMember(os, ",", "rootDev", rootDev, "," + Member("slot", slot, k));
    r := WriteMember(r, ",", "slot", slot, k);
    r := WriteMember(r, ",", "kernelRelease", kernelRelease, rest);
  }

  method WriteBuild(os: string, version: string, gitSha: string, buildTimeUtc: string, ghost s: Status, ghost rest: string)
    returns (r: string)
    requires s.version == version && s.gitSha == gitSha && s.buildTimeUtc == buildTimeUtc
    ensures r + rest == os + PrintBuild(s, rest)
  {
    ghost var t := "," + Member("buildTimeUtc", buildTimeUtc, rest);
    r := WriteMember(os, BUILD, "version", version, "," + Member("gitSha", gitSha, t));
    r := WriteMember(r, ",", "gitSha", gitSha, t);
    r := WriteMember(r, ",", "buildTimeUtc", buildTimeUtc, rest);
  }

  /** The loop over the devices. */
  method WriteDevices(start: string, devices: seq<Device>) returns (os: string)
    ensures os + CLOSE == start + PrintDevices(devices, CLOSE)
  {
    hide PrintDevice;
    ghost var total := start + PrintDevices(devices, CLOSE);
    os := start;
    var i := 0;
    assert devices[0..] == devices;
    while i < |devices|
      invariant i <= |devices|
      invariant os + Remaining(devices, i) == total
    {
      ghost var rest := Remaining(devices, i + 1);
      DevicesHead(devices, i);
      ghost var here := os;
      if i > 0 {
        os := os + ",";
        Associate(here, ",", PrintDevice(devices[i], rest));
      }
      os := WriteDevice(os, devices[i], rest);
      i := i + 1;
    }
  }

  /** What the loop has still to print, with the comma in front of the next device and the closing behind. */
  ghost function Remaining(ds: seq<Device>, i: nat): string
    requires i <= |ds|
  {
    if i == |ds| then CLOSE
    else if i == 0 then PrintDevices(ds, CLOSE)
    else "," + PrintDevices(ds[i..], CLOSE)
  }

  lemma DevicesHead(ds: seq<Device>, i: nat)
    requires i < |ds|
    ensures Remaining(ds, i) == if i == 0 then PrintDevice(ds[i], Remaining(ds, i + 1))
                                else "," + PrintDevice(ds[i], Remaining(ds, i + 1))
  {
    hide PrintDevice;
    PrintStep(ds[i..], CLOSE);
    assert ds[i..][1..] == ds[i + 1..];
    assert ds[0..] == ds;
  }

  method WriteDevice(os: string, d: Device, ghost rest: string) returns (r: string)
    ensures r + rest == os + PrintDevice(d, rest)
  {
    ghost var f3 := "}" + rest;
    ghost var f2 := "," + Flag("connected", d.connected, f3);
    ghost var f1 := "," + Flag("trusted", d.trusted, f2);
    ghost var f0 := Flags(d, rest);
    ghost var m2 := "," + Member("name", d.name, f0);
    ghost var m1 := "," + Member("address", d.address, m2);
    r := WriteMember(os, "{", "objectPath", d.objectPath, m1);
    r := WriteMember(r, ",", "address", d.address, m2);
    r := WriteMember(r, ",", "name", d.name, f0);
    r := WriteFlag(r, ",", "paired", d.paired, f1);
    r := WriteFlag(r, ",", "trusted", d.trusted, f2);
    r := WriteFlag(r, ",", "connected", d.connected, f3);
    Associate(r, "}", rest);
    r := r + "}";
  }

  datatype Command = List | Disconnect | Switch(selector: string) | Unknown

  const SWITCH := "SWITCH "

  /** Which branch of handleCommand a line takes. */
  function Dispatch(line: string): Command {
    if line == "LIST" then List
    else if line == "DISCONNECT" then Disconnect
    else if SWITCH <= line then Switch(line[|SWITCH|..])
    else Unknown
  }

  /** handleCommand.  `switched` says whether the switch to a selector succeeds. */
  method HandleCommand(line: string, uptime: string, rootDev: string, kernelRelease: string, version: string,
                       gitSha: string, buildTimeUtc: string, devices: seq<Device>, switched: string -> bool)
    returns (command: Command, response: string)
    ensures command == Dispatch(line)
    ensures line == "LIST" ==>
              command == List && response == PrintList(Status(uptime, rootDev, SlotOf(rootDev), kernelRelease,
                                                              version, gitSha, buildTimeUtc, devices))
    ensures line == "DISCONNECT" ==> command == Disconnect && response == "{\"ok\":true}\n"
    ensures forall sel :: line == SWITCH + sel ==>
              command == Switch(sel) && response == if switched(sel) then "{\"ok\":true}\n" else "{\"ok\":false}\n"
    ensures !("SWITCH " <= line) && line != "LIST" && line != "DISCONNECT" ==>
              command == Unknown && response == "{\"ok\":false,\"error\":\"unknown command\"}\n"
    ensures IsNumber(uptime) ==> IsLine(response)
  {
    hide PrintList, IsLine;
    command := Dispatch(line);
    forall sel | line == SWITCH + sel
      ensures SWITCH <= line && line[|SWITCH|..] == sel && line != "LIST" && line != "DISCONNECT"
    {
      assert line[0] == 'S' && line[1] == 'W';
    }
    if line == "LIST" {
      response := ListResponse(uptime, rootDev, kernelRelease, version, gitSha, buildTimeUtc, devices);
      if IsNumber(uptime) {
        ListLine(Status(uptime, rootDev, SlotOf(rootDev), kernelRelease, version, gitSha, buildTimeUtc, devices));
      }
    } else if line == "DISCONNECT" {
      response := "{\"ok\":true}\n";
    } else if SWITCH <= line {
      var selector := line[|SWITCH|..];
      response := if switched(selector) then "{\"ok\":true}\n" else "{\"ok\":false}\n";
    } else {
      response := "{\"ok\":false,\"error\":\"unknown command\"}\n";
    }
    if line != "LIST" { ShortLines(); }
  }

  lemma ShortLines()
    ensures IsLine("{\"ok\":true}\n") && IsLine("{\"ok\":false}\n")
    ensures IsLine("{\"ok\":false,\"error\":\"unknown command\"}\n")
  {
    LinePrefix("{\"ok\":false,\"error\":", "\"unknown command\"}\n");
  }

  /** LIST from end to end: the client's request in any pieces, the server's answer in any pieces, and every field of the
      status is there again, if the answer fits the client's limit. */
  method AskStatus(uptime: string, rootDev: string, kernelRelease: string, version: string, gitSha: string,
                   buildTimeUtc: string, devices: seq<Device>, there: nat -> nat, back: nat -> nat)
    returns (answer: Option<Status>)
    requires IsNumber(uptime)
    ensures var s := Status(uptime, rootDev, SlotOf(rootDev), kernelRelease, version, gitSha, buildTimeUtc, devices);
            |PrintList(s)| <= 64 * 1024 + 1 ==> answer == Some(s)
  {
    hide PrintList, ReadList;
    var request := "LIST";
    assert NoNewline(request) && TrimCr(request) == request;
    var server := new Source(Request(request), there, _ => false);
    var line := ServerReadLine(server);
    assert line == request;
    var command, response := HandleCommand(line, uptime, rootDev, kernelRelease, version, gitSha, buildTimeUtc,
                                           devices, _ => false);
    var client := new Source(response, back, _ => false);
    var out, pieces := ClientRead(client);
    ListRead(Status(uptime, rootDev, SlotOf(rootDev), kernelRelease, version, gitSha, buildTimeUtc, devices));
    answer := ReadList(out);
  }

  // ----- reading a line in pieces

  /** What a reader has when it stops: at the first piece that completes a line, or as soon as it holds more than
      `limit` characters, or when the pieces end. */
  function Collect(got: string, pieces: seq<string>, limit: nat): string
    decreases |pieces|
  {
    if pieces == [] then got
    else
      var out := got + pieces[0];
      if '\n' in out || |out| > limit then out else Collect(out, pieces[1..], limit)
  }

  /** A line that fits is collected whole, however it is cut. */
  lemma {:induction false} CollectWhole(got: string, pieces: seq<string>, limit: nat)
    requires IsLine(got + Flatten(pieces)) && |got + Flatten(pieces)| <= limit + 1
    requires forall i :: 0 <= i < |pieces| ==> pieces[i] != []
    requires NoNewline(got)
    ensures Collect(got, pieces, limit) == got + Flatten(pieces)
    decreases |pieces|
  {
    var all := got + Flatten(pieces);
    if pieces != [] {
      var out := got + pieces[0];
      assert all == out + Flatten(pieces[1..]);
      if Flatten(pieces[1..]) == [] {
        assert out == all;
        assert out[|out| - 1] == '\n';
      } else {
        assert NoNewline(out) by {
          forall i | 0 <= i < |out| ensures out[i] != '\n' {
            assert out[i] == all[..|all| - 1][i];
          }
        }
        CollectWhole(out, pieces[1..], limit);
      }
    }
  }

  /** A way in which `t` can arrive. */
  ghost predicate Cuts(pieces: seq<string>, t: string) {
    Flatten(pieces) == t && forall i :: 0 <= i < |pieces| ==> pieces[i] != []
  }

  /** The worst way to cut a text. */
  function Singles(t: string): seq<string> {
    if t == [] then [] else [[t[0]]] + Singles(t[1..])
  }

  lemma {:induction false} SinglesCut(t: string)
    ensures Flatten(Singles(t)) == t && forall i :: 0 <= i < |Singles(t)| ==> Singles(t)[i] != []
  {
    if t != [] {
      SinglesCut(t[1..]);
      assert t == [t[0]] + t[1..];
    }
  }

  lemma {:induction false} CollectCut(got: string, t: string, limit: nat)
    requires NoNewline(got) && |got| <= limit && |got| + |t| > limit + 1 && NoNewline(t[..|t| - 1])
    ensures |Collect(got, Singles(t), limit)| == limit + 1
    decreases |t|
  {
    var out := got + [t[0]];
    var pieces := Singles(t);
    assert pieces[0] == [t[0]] && pieces[1..] == Singles(t[1..]);
    assert t[..|t| - 1][0] == t[0];
    assert NoNewline(out);
    if |out| <= limit {
      assert t[1..][..|t| - 2] == t[..|t| - 1][1..];
      CollectCut(out, t[1..], limit);
    }
  }

  /** Exactly when a line arrives whole however it is cut: when it has at most `limit` characters before its
      newline. */
  lemma CollectExact(line: string, limit: nat)
    requires IsLine(line)
    ensures |line| <= limit + 1 <==> forall pieces :: Cuts(pieces, line) ==> Collect([], pieces, limit) == line
  {
    if |line| <= limit + 1 {
      forall pieces | Cuts(pieces, line)
        ensures Collect([], pieces, limit) == line
      {
        assert [] + Flatten(pieces) == line;
        CollectWhole([], pieces, limit);
      }
    } else {
      SinglesCut(line);
      CollectCut([], line, limit);
      assert Cuts(Singles(line), line);
    }
  }

  /** unixSockRequest, from the request on: the client's loop, 64 KiB and one piece at most. */
  method ClientRead(fd: Source<char>) returns (out: string, pieces: seq<string>)
    modifies fd
    ensures out == Collect([], pieces, 64 * 1024)
    ensures Flatten(pieces) <= old(fd.input) && forall i :: 0 <= i < |pieces| ==> pieces[i] != []
    ensures fd.Reliable() && IsLine(old(fd.input)) && |old(fd.input)| <= 64 * 1024 + 1 ==> out == old(fd.input)
  {
    out, pieces := ReadPieces(fd, 1024, 64 * 1024);
  }

  /** The two read loops: read a piece, append it, stop at a newline or beyond the limit. */
  method ReadPieces(fd: Source<char>, size: nat, limit: nat) returns (out: string, pieces: seq<string>)
    requires size > 0
    modifies fd
    ensures out == Collect([], pieces, limit)
    ensures Flatten(pieces) <= old(fd.input) && forall i :: 0 <= i < |pieces| ==> pieces[i] != []
    ensures fd.Reliable() && IsLine(old(fd.input)) && |old(fd.input)| <= limit + 1 ==> out == old(fd.input)
  {
    hide Collect, IsLine, Flatten;
    out, pieces := "", [];
    ghost var all := fd.input;
    CollectNone(limit);
    while true
      invariant out == Flatten(pieces) && out + fd.input == all
      invariant Collect([], pieces, limit) == out && NoNewline(out) && |out| <= limit
      invariant forall i :: 0 <= i < |pieces| ==> pieces[i] != []
      decreases |fd.input|
    {
      var r, buf := fd.Read(size);
      if r <= 0 {
        break;
      }
      CollectMore([], pieces, buf, limit);
      FlattenSnoc(pieces, buf);
      out, pieces := out + buf, pieces + [buf];
      if '\n' in out || |out| > limit {
        LineFound(out, fd.input, all, limit);
        break;
      }
    }
  }

  lemma CollectNone(limit: nat)
    ensures Collect([], [], limit) == [] && Flatten<char>([]) == []
  {
  }

  /** A piece more, when no earlier piece ended the collecting. */
  lemma {:induction false} CollectMore(got: string, pieces: seq<string>, buf: string, limit: nat)
    requires NoNewline(got + Flatten(pieces)) && |got + Flatten(pieces)| <= limit
    ensures Collect(got, pieces + [buf], limit) == got + Flatten(pieces) + buf
    decreases |pieces|
  {
    if pieces == [] {
      assert pieces + [buf] == [buf] && [buf][1..] == [];
      assert got + Flatten(pieces) == got;
    } else {
      var out, rest := got + pieces[0], Flatten(pieces[1..]);
      assert got + Flatten(pieces) == out + rest;
      assert (pieces + [buf])[1..] == pieces[1..] + [buf];
      assert forall i :: 0 <= i < |out| ==> out[i] == (out + rest)[i];
      CollectMore(out, pieces[1..], buf, limit);
    }
  }

  lemma NewlineLast(t: string, i: nat)
    requires IsLine(t) && i < |t| && t[i] == '\n'
    ensures i == |t| - 1
  {
    var body := t[..|t| - 1];
    assert forall k :: 0 <= k < |body| ==> t[k] == body[k];
  }

  lemma LineFound(out: string, rest: string, all: string, limit: nat)
    requires out + rest == all && ('\n' in out || |out| > limit)
    ensures IsLine(all) && |all| <= limit + 1 ==> rest == []
  {
    if IsLine(all) && |all| <= limit + 1 {
      if '\n' in out {
        var i :| 0 <= i < |out| && out[i] == '\n';
        NewlineLast(all, i);
      }
      assert |out| == |all|;
    }
  }

  /** The text before the first newline, or all of it. */
  function FirstLine(s: string): (r: string)
    ensures r <= s && NoNewline(r)
  {
    if s == [] || s[0] == '\n' then [] else [s[0]] + FirstLine(s[1..])
  }

  lemma {:induction false} FirstLineOf(line: string, rest: string)
    requires NoNewline(line) && (rest == [] || rest[0] == '\n')
    ensures FirstLine(line + rest) == line
  {
    if line == [] {
      assert line + rest == rest;
    } else {
      assert (line + rest)[1..] == line[1..] + rest;
      FirstLineOf(line[1..], rest);
    }
  }

  function TrimCr(s: string): string {
    if s != [] && s[|s| - 1] == '\r' then s[..|s| - 1] else s
  }

  /** The command line as ControlSocketServer::run takes it from a connection. */
  method ServerReadLine(fd: Source<char>) returns (line: string)
    modifies fd
    ensures NoNewline(line)
    ensures fd.Reliable() ==> forall cmd :: old(fd.input) == Request(cmd) && NoNewline(cmd) && |cmd| <= 4096
                                            ==> line == TrimCr(cmd)
    // a carriage return in front of the newline is no part of the command
    ensures fd.Reliable() ==> forall s :: old(fd.input) == s + "\r\n" && NoNewline(s) && |s| < 4096 ==> line == s
  {
    ghost var all := fd.input;
    var out, pieces := ReadPieces(fd, 256, 4096);
    line := FirstLine(out);
    forall cmd | fd.Reliable() && all == Request(cmd) && NoNewline(cmd) && |cmd| <= 4096
      ensures line == cmd
    {
      RequestLine(cmd);
      FirstLineOf(cmd, "\n");
    }
    forall s | fd.Reliable() && all == s + "\r\n" && NoNewline(s) && |s| < 4096
      ensures line == s + "\r"
    {
      CrRequest(s);
      assert out == all;
    }
    if line != [] && line[|line| - 1] == '\r' {
      line := line[..|line| - 1];
    }
  }

  lemma CrRequest(s: string)
    requires NoNewline(s)
    ensures IsLine(s + "\r\n") && FirstLine(s + "\r\n") == s + "\r" && |s + "\r\n"| == |s| + 2
  {
    var cmd := s + "\r";
    assert s + "\r\n" == cmd + "\n";
    RequestLine(cmd);
    FirstLineOf(cmd, "\n");
  }

  /** The framing of unixSockRequest. */
  function Request(line: string): string {
    if line == [] || line[|line| - 1] != '\n' then line + "\n" else line
  }

  lemma RequestLine(cmd: string)
    requires NoNewline(cmd)
    ensures Request(cmd) == cmd + "\n" && IsLine(Request(cmd))
  {
    assert (cmd + "\n")[..|cmd|] == cmd;
  }
}
