/** flasher.py, the earlier single-file revision of the station. Its helpers
    (`pipe`, `all_eq`, `dev_name`), `find_class`, `STORAGE_DEV_RE` and
    `process_state` are the same text as in the package and are modelled by
    `Util`, `Usb` and `Monitor`; what differs is modelled here: the password
    handed to `sudo -S`, the command script `_run` started by
    `on_new_device`, and `main`, whose event window holds 5 tags and which
    starts one thread per new device instead of queueing a job. */
module Legacy {
  import opened Util
  import opened Usb
  import opened OrderedMap
  import opened Monitor
  import opened Removal
  import opened Callbacks

  /** `LABEL`. */
  const LABEL: string := "FlasherTest"
  /** `SRC_DIR`. */
  const SRC_DIR: string := "/home/blake/logs"
  /** `deque([], maxlen=5)`. */
  const WINDOW: nat := 5

  // ---------------------------------------------------------------------------
  // PASSWORD

  /** The characters Python's `str.strip()` removes, as far as ASCII goes:
      space, tab through carriage return, and the separators 0x1C-0x1F. */
  predicate IsSpace(c: char) {
    c == ' ' || ('\t' <= c <= '\r') || ('\U{1C}' <= c <= '\U{1F}')
  }

  function TrimLeft(s: string): (r: string)
    ensures |r| <= |s|
  {
    if s != [] && IsSpace(s[0]) then TrimLeft(s[1..]) else s
  }

  /** `lstrip`: a suffix of `s` that does not start with white space, all
      that was cut off being white space. */
  lemma {:induction false} TrimLeftShape(s: string)
    ensures var r := TrimLeft(s);
      && r == s[|s| - |r|..]
      && (r == [] || !IsSpace(r[0]))
      && (forall i :: 0 <= i < |s| - |r| ==> IsSpace(s[i]))
    decreases |s|
  {
    if s != [] && IsSpace(s[0]) {
      TrimLeftShape(s[1..]);
      assert forall i :: 1 <= i < |s| ==> s[i] == s[1..][i - 1];
    }
  }

  function TrimRight(s: string): (r: string)
    ensures |r| <= |s|
  {
    if s != [] && IsSpace(s[|s| - 1]) then TrimRight(s[..|s| - 1]) else s
  }

  /** `rstrip`: a prefix of `s` that does not end with white space, all that
      was cut off being white space. */
  lemma {:induction false} TrimRightShape(s: string)
    ensures var r := TrimRight(s);
      && r == s[..|r|]
      && (r == [] || !IsSpace(r[|r| - 1]))
      && (forall i :: |r| <= i < |s| ==> IsSpace(s[i]))
    decreases |s|
  {
    if s != [] && IsSpace(s[|s| - 1]) {
      TrimRightShape(s[..|s| - 1]);
    }
  }

  /** `s.strip()`. */
  function Strip(s: string): string {
    TrimRight(TrimLeft(s))
  }

  /** `PASSWORD.strip() + '\n'`, where the raw password comes from the
      environment or from `getpass`. */
  function Password(raw: string): string {
    Strip(raw) + "\n"
  }

  /** The stripped password has no white space at either end, and it is
      the raw text with only white space cut off at both ends: `cut` leading
      characters and whatever follows the stripped text. */
  lemma StripTrims(raw: string)
    ensures var r := Strip(raw);
      var cut := |raw| - |TrimLeft(raw)|;
      && (r == [] || (!IsSpace(r[0]) && !IsSpace(r[|r| - 1])))
      && cut + |r| <= |raw|
      && raw[cut..cut + |r|] == r
      && (forall k :: 0 <= k < cut ==> IsSpace(raw[k]))
      && (forall k :: cut + |r| <= k < |raw| ==> IsSpace(raw[k]))
  {
    var l := TrimLeft(raw);
    var r := TrimRight(l);
    TrimLeftShape(raw);
    TrimRightShape(l);
    assert Strip(raw) == r;
    StripMiddle(raw, l, r, |raw| - |l|);
    if r != [] {
      assert r[0] == l[0];
    }
  }

  /** `r`, a prefix of `l` followed only by white space in it, sits at `cut`
      in `raw`, of which `l` is the part from `cut` on. */
  lemma StripMiddle(raw: string, l: string, r: string, cut: nat)
    requires cut + |l| == |raw| && l == raw[cut..]
    requires |r| <= |l| && r == l[..|r|]
    requires forall i :: |r| <= i < |l| ==> IsSpace(l[i])
    ensures raw[cut..cut + |r|] == r
    ensures forall k :: cut + |r| <= k < |raw| ==> IsSpace(raw[k])
  {
    assert raw[cut..cut + |r|] == raw[cut..][..|r|];
    forall k | cut + |r| <= k < |raw|
      ensures IsSpace(raw[k])
    {
      assert raw[k] == l[k - cut];
    }
  }

  // ---------------------------------------------------------------------------
  // The command script of on_new_device._run

  /** A command run as `sudo -S ...`: `sudo` reads the password from the
      standard input it was baked with. */
  function SudoS(password: string, prog: string, args: seq<string>): Cmd {
    Cmd(true, prog, args, [password])
  }

  /** The `fdisk` answers of flasher.py: the password for `sudo -S` first,
      then the same seven answers as the package. */
  function LegacyFlow(password: string): seq<string> {
    [password] + FdiskFlow
  }

  /** The script `_run(device)` executes once the mount probe has answered
      `mounted`. `device` is the device path: the thread is started with
      `args=(mount, )`. `mountName` stands for `hex(abs(hash(device)))` and
      `tmpRoot` for `TMP_MOUNT`. */
  function LegacyPlan(raw: string, tmpRoot: string, mountName: string -> string, device: string, mounted: bool)
    : seq<Step>
  {
    var pw := Password(raw);
    var tmp := PathJoin(tmpRoot, mountName(device));
    (if mounted then [Exec(SudoS(pw, "umount", [Partition(device)]))] else [])
    + LegacyCopy(pw, device, tmp)
    + LegacyCleanup(pw, device, tmp)
  }

  /** Wipe, partition, format, mount and copy `SRC_DIR`. The format step is
      `sudo.mkfs(...)`, so `sudo` runs the program `mkfs` itself (the
      module-level `mkfs.ext4` command object is not used on this path), and
      no file-system type is passed. */
  function LegacyCopy(pw: string, device: string, tmp: string): seq<Step> {
    var part := Partition(device);
    [ Exec(SudoS(pw, "dd", ["if=/dev/zero", "of=" + device, "bs=1M", "count=25"])),
      Exec(Plain("sync", [])),
      Exec(Cmd(true, "fdisk", [device], Pipe(LegacyFlow(pw)))),
      Exec(Plain("sync", [])),
      Exec(SudoS(pw, "partprobe", [device])),
      Exec(SudoS(pw, "mkfs", ["-L", LABEL, part])),
      Exec(Plain("mkdir", ["-p", tmp])),
      Exec(SudoS(pw, "mount", [part, tmp])),
      Exec(SudoS(pw, "cp", ["-r", SRC_DIR, tmp])),
      Exec(Plain("sync", [])) ]
  }

  /** Unmount, remove the mount point, eject. */
  function LegacyCleanup(pw: string, device: string, tmp: string): seq<Step> {
    [ Exec(SudoS(pw, "umount", [Partition(device)])),
      Exec(SudoS(pw, "rm", ["-rf", tmp])),
      Exec(SudoS(pw, "eject", [device])) ]
  }

  /** What one `_run(device)` thread does: the mount probe, then the script
      it selects, stopping at the first command that fails (the exception
      ends the thread). The thread starts with an empty log. */
  function LegacySpec(raw: string, tmpRoot: string, mountName: string -> string, device: string, env: Env): Trace {
    var probe := MountProbe(Partition(device));
    RunFrom(LegacyPlan(raw, tmpRoot, mountName, device, env.exec(0, probe)), env, None, [probe], map[])
  }

  /** Only commands: no scan of the clone directories, no verification. */
  predicate OnlyCommands(steps: seq<Step>) {
    forall i :: 0 <= i < |steps| ==> steps[i].Exec?
  }

  /** The script has 13 commands after the optional unmount, all of them
      commands; it works on the partition `device + "1"` and ends with
      unmounting it, removing the mount point and ejecting the device. */
  lemma LegacyPlanShape(raw: string, tmpRoot: string, mountName: string -> string, device: string, mounted: bool)
    ensures var p := LegacyPlan(raw, tmpRoot, mountName, device, mounted);
      var pw := Password(raw);
      && |p| == (if mounted then 1 else 0) + 13
      && OnlyCommands(p)
      && (mounted ==> p[0] == Exec(SudoS(pw, "umount", [device + "1"])))
      && p[(if mounted then 1 else 0) + 5] == Exec(SudoS(pw, "mkfs", ["-L", LABEL, device + "1"]))
      && p[|p| - 3..] == LegacyCleanup(pw, device, PathJoin(tmpRoot, mountName(device)))
      && LegacyCleanup(pw, device, PathJoin(tmpRoot, mountName(device)))[0] == Exec(SudoS(pw, "umount", [device + "1"]))
  {
    var pw := Password(raw);
    var tmp := PathJoin(tmpRoot, mountName(device));
    var pre: seq<Step> := if mounted then [Exec(SudoS(pw, "umount", [Partition(device)]))] else [];
    var body := LegacyCopy(pw, device, tmp);
    var tail := LegacyCleanup(pw, device, tmp);
    CopyShape(pw, device, tmp);
    CleanupShape(pw, device, tmp);
    OnlyCommandsAppend(pre, body);
    OnlyCommandsAppend(pre + body, tail);
    AppendTail(pre + body, tail);
  }

  /** Ten commands; the sixth formats the partition with the program
      `mkfs` and the label. */
  lemma CopyShape(pw: string, device: string, tmp: string)
    ensures |LegacyCopy(pw, device, tmp)| == 10 && OnlyCommands(LegacyCopy(pw, device, tmp))
    ensures LegacyCopy(pw, device, tmp)[5] == Exec(SudoS(pw, "mkfs", ["-L", LABEL, device + "1"]))
  {
  }

  lemma CleanupShape(pw: string, device: string, tmp: string)
    ensures var c := LegacyCleanup(pw, device, tmp);
      |c| == 3 && OnlyCommands(c) && c[0] == Exec(SudoS(pw, "umount", [device + "1"]))
  {
  }

  lemma AppendTail<T>(a: seq<T>, b: seq<T>)
    ensures (a + b)[|a + b| - |b|..] == b
  {
  }

  lemma OnlyCommandsAppend(a: seq<Step>, b: seq<Step>)
    requires OnlyCommands(a) && OnlyCommands(b)
    ensures OnlyCommands(a + b)
  {
    forall i | 0 <= i < |a + b| ensures (a + b)[i].Exec? {
      if i >= |a| {
        assert (a + b)[i] == b[i - |a|];
      }
    }
  }

  /** The first line piped to `fdisk` is the stripped password followed by
      two newlines (one from `PASSWORD`, one from `pipe`); the seven answers
      follow, each on its own line. */
  lemma LegacyFdiskInput(raw: string)
    ensures var input := Pipe(LegacyFlow(Password(raw)));
      && |input| == 8
      && input[0] == Strip(raw) + "\n\n"
      && input[1..] == ["g\n", "n\n", "1\n", "\n", "\n", "\n", "w\n"]
      && (Strip(raw) == [] || !IsSpace(Strip(raw)[|Strip(raw)| - 1]))
  {
    var flow := LegacyFlow(Password(raw));
    var input := Pipe(flow);
    PipeLines(flow);
    assert input[0] == flow[0] + "\n";
    PipeTail(flow);
    assert flow[1..] == FdiskFlow;
    FdiskInput();
    StripTrims(raw);
  }

  /** `pipe` of all but the first line is all but the first piped line. */
  lemma PipeTail(lines: seq<string>)
    requires lines != []
    ensures Pipe(lines)[1..] == Pipe(lines[1..])
  {
  }

  /** A run of commands only ends `Completed` or `Failed`, and leaves the
      hash index alone. */
  lemma {:induction false} RunCommands(steps: seq<Step>, exec: (nat, Cmd) -> bool, scan: Scanner,
                                       log: seq<Cmd>, h: map<string, string>)
    requires OnlyCommands(steps)
    ensures var r := RunSteps(steps, exec, scan, log, h);
      (r.outcome.Completed? || r.outcome.Failed?) && r.hashsums == h
    decreases |steps|
  {
    if steps != [] {
      OnlyCommandsTail(steps);
      RunExec(steps, exec, scan, log, h);
      RunCommands(steps[1..], exec, scan, log + [steps[0].cmd], h);
    }
  }

  lemma OnlyCommandsTail(steps: seq<Step>)
    requires steps != [] && OnlyCommands(steps)
    ensures steps[0].Exec? && OnlyCommands(steps[1..])
  {
    forall i | 0 <= i < |steps[1..]| ensures steps[1..][i].Exec? {
      assert steps[1..][i] == steps[i + 1];
    }
  }

  /** What a run of commands leaves when it started after `log` with the
      commands `cmds` to issue: it completed or failed; it issued a prefix
      of `cmds`, all of them when it completed; a failing command was the
      last one issued; every other command it issued succeeded. */
  ghost predicate IssuedInOrder(r: Trace, log: seq<Cmd>, cmds: seq<Cmd>, exec: (nat, Cmd) -> bool) {
    && (r.outcome.Completed? || r.outcome.Failed?)
    && log <= r.log <= log + cmds
    && (r.outcome.Completed? ==> r.log == log + cmds)
    && (r.outcome.Failed? ==> |r.log| > |log| && r.log[|r.log| - 1] == r.outcome.cmd && !exec(|r.log| - 1, r.outcome.cmd))
    && (forall j :: |log| <= j < |r.log| && !(r.outcome.Failed? && j == |r.log| - 1) ==> exec(j, r.log[j]))
  }

  /** A run of a plan that holds only commands issues them in order until
      one fails. */
  lemma CommandRun(steps: seq<Step>, exec: (nat, Cmd) -> bool, scan: Scanner, log: seq<Cmd>, h: map<string, string>)
    requires OnlyCommands(steps)
    ensures IssuedInOrder(RunSteps(steps, exec, scan, log, h), log, Cmds(steps), exec)
  {
    RunCommands(steps, exec, scan, log, h);
    RunPrefix(steps, exec, scan, log, h);
    RunCompleted(steps, exec, scan, log, h);
    RunFailed(steps, exec, scan, log, h);
    RunSucceeded(steps, exec, scan, log, h);
  }

  /** A `_run` thread issues the probe and then the script's commands in
      order: all of them when every one succeeds, or up to and including the
      first that fails, which ends it (the clean-up included). */
  lemma LegacyOutcome(raw: string, tmpRoot: string, mountName: string -> string, device: string, env: Env)
    ensures var probe := MountProbe(Partition(device));
      IssuedInOrder(LegacySpec(raw, tmpRoot, mountName, device, env), [probe],
                    Cmds(LegacyPlan(raw, tmpRoot, mountName, device, env.exec(0, probe))), env.exec)
  {
    var probe := MountProbe(Partition(device));
    var plan := LegacyPlan(raw, tmpRoot, mountName, device, env.exec(0, probe));
    LegacyPlanShape(raw, tmpRoot, mountName, device, env.exec(0, probe));
    CommandRun(plan, env.exec, ScannerOf(env.fs, None), [probe], map[]);
  }

  /** `_run(device)` as a method: the probe, then the commands one by one
      until one fails. */
  method RunScript(raw: string, tmpRoot: string, mountName: string -> string, device: string, env: Env)
    returns (log: seq<Cmd>, outcome: Outcome)
    ensures Trace(log, map[], outcome) == LegacySpec(raw, tmpRoot, mountName, device, env)
  {
    var probe := MountProbe(Partition(device));
    var mounted := env.exec(0, probe);
    log := [probe];
    var steps := LegacyPlan(raw, tmpRoot, mountName, device, mounted);
    ghost var scan := ScannerOf(env.fs, None);
    LegacyPlanShape(raw, tmpRoot, mountName, device, mounted);
    for i := 0 to |steps|
      invariant RunSteps(steps[i..], env.exec, scan, log, map[]) == LegacySpec(raw, tmpRoot, mountName, device, env)
    {
      ScriptStep(steps, i);
      var c := steps[i].cmd;
      RunExec(steps[i..], env.exec, scan, log, map[]);
      var ok := env.exec(|log|, c);
      log := log + [c];
      if !ok {
        return log, Failed(c);
      }
    }
    assert steps[|steps|..] == [];
    return log, Completed;
  }

  lemma ScriptStep(steps: seq<Step>, i: nat)
    requires i < |steps| && OnlyCommands(steps)
    ensures steps[i].Exec? && steps[i..][0] == steps[i] && steps[i..][1..] == steps[i + 1..]
  {
  }

  // ---------------------------------------------------------------------------
  // on_new_device and main

  /** A thread started by `on_new_device`: its name and the device path its
      `_run` receives. */
  datatype Thread = Thread(name: string, device: string)

  function Fields(x: Identity): seq<int> {
    [x.0, x.1, x.2, x.3]
  }

  /** `on_new_device(device, mount)`: a thread named `dev_name(device)`
      that runs the script on `mount`. */
  function Launch(x: Identity, mount: string): Thread {
    Thread(DevName(Fields(x)), mount)
  }

  /** The thread name of a launch reads back as the device identity, and the
      script it runs depends on the device path only. */
  lemma LaunchNamesIdentity(x: Identity, mount: string)
    ensures ParseDevName(Launch(x, mount).name) == Some(Fields(x))
    ensures Count(Launch(x, mount).name, '_') == 3
    ensures Launch(x, mount).device == mount
  {
    DevNameRoundTrip(Fields(x));
  }

  /** The threads for `keys`, in order. */
  function Launches(keys: seq<Identity>, m: map<Identity, string>): (r: seq<Thread>)
    requires forall k :: k in keys ==> k in m
    ensures |r| == |keys|
  {
    if keys == [] then [] else Launches(keys[..|keys| - 1], m) + [Launch(keys[|keys| - 1], m[keys[|keys| - 1]])]
  }

  /** Thread `j` is the launch for the `j`-th key and its device path. */
  lemma {:induction false} LaunchesAt(keys: seq<Identity>, m: map<Identity, string>)
    requires forall k :: k in keys ==> k in m
    ensures forall j :: 0 <= j < |keys| ==> Launches(keys, m)[j] == Launch(keys[j], m[keys[j]])
    decreases |keys|
  {
    if keys != [] {
      var init := keys[..|keys| - 1];
      LaunchesAt(init, m);
      assert forall j :: 0 <= j < |init| ==> keys[j] == init[j];
    }
  }

  lemma LaunchesSnoc(t0: seq<Thread>, keys: seq<Identity>, j: nat, m: map<Identity, string>)
    requires j < |keys| && forall k :: k in keys ==> k in m
    ensures t0 + Launches(keys[..j + 1], m) == t0 + Launches(keys[..j], m) + [Launch(keys[j], m[keys[j]])]
  {
    assert keys[..j + 1][..j] == keys[..j];
    var t := Launch(keys[j], m[keys[j]]);
    assert Launches(keys[..j + 1], m) == Launches(keys[..j], m) + [t];
    assert t0 + (Launches(keys[..j], m) + [t]) == t0 + Launches(keys[..j], m) + [t];
  }

  class LegacyStation {
    /** The keys of `orig_devices`. */
    const orig: set<Identity>
    /** `cur_devices`. */
    var cur: Dict<Identity, string>
    /** `last_actions`. */
    const window: EventWindow
    /** The threads started so far, in order. */
    var threads: seq<Thread>

    ghost predicate Valid()
      reads this, window
    {
      && cur.Valid()
      && (forall x :: x in cur.entries ==> x !in orig)
      && window.Valid() && window.maxlen == WINDOW
    }

    /** The start of `main`. */
    constructor (attached: seq<Device>)
      ensures Valid()
      ensures orig == set x | x in StorageDevices(attached)
      ensures cur == Empty() && window.tags == [] && threads == []
      ensures fresh(window)
    {
      orig := set x | x in StorageDevices(attached);
      cur := Empty();
      window := new EventWindow(WINDOW);
      threads := [];
    }

    /** One pass of `main`'s `while True` loop: `process_state` over the
        events with the listing `live`, then either the new devices are
        merged into `cur_devices` and a thread is started for each, or the
        table is swept against the listing `now`. */
    method Pass(events: seq<Event>, live: seq<Device>, now: seq<Device>)
      returns (found: Dict<Identity, string>, rest: seq<Event>, removed: seq<(Identity, string)>)
      requires Valid()
      modifies this, window
      ensures Valid()
      ensures Detection(found, window.tags, rest)
              == Detect(WINDOW, old(window.tags), events, orig, old(cur.entries).Keys, StorageDevices(live))
      ensures forall x :: x in found.entries ==>
                x in StorageDevices(live) && x !in orig && x !in old(cur.entries)
      ensures !found.IsEmpty() ==>
                && removed == []
                && cur.entries == old(cur.entries) + found.entries
                && cur.keys == old(cur.keys) + found.keys
                && threads == old(threads) + Launches(found.keys, found.entries)
      ensures found.IsEmpty() ==>
                && (cur, removed) == SweepFrom(old(cur).keys, StorageDevices(now), old(cur), [])
                && threads == old(threads)
    {
      ghost var w0 := window.tags;
      found, rest := ProcessState(window, events, orig, cur.entries.Keys, StorageDevices(live));
      DetectFoundEntries(WINDOW, w0, events, orig, cur.entries.Keys, StorageDevices(live));
      removed := React(found, now);
    }

    /** The rest of a pass once `process_state` has answered `found`. */
    method React(found: Dict<Identity, string>, now: seq<Device>) returns (removed: seq<(Identity, string)>)
      requires Valid() && found.Valid()
      requires forall x :: x in found.entries ==> x !in orig && x !in cur.entries
      modifies this
      ensures Valid()
      ensures !found.IsEmpty() ==>
                && removed == []
                && cur.entries == old(cur.entries) + found.entries
                && cur.keys == old(cur.keys) + found.keys
                && threads == old(threads) + Launches(found.keys, found.entries)
      ensures found.IsEmpty() ==>
                && (cur, removed) == SweepFrom(old(cur).keys, StorageDevices(now), old(cur), [])
                && threads == old(threads)
    {
      removed := [];
      if !found.IsEmpty() {
        Merge(found);
        LaunchAll(found);
      } else {
        cur, removed := Sweep(cur, StorageDevices(now));
      }
    }

    /** `cur_devices.update(new_devices)`. */
    method Merge(found: Dict<Identity, string>)
      requires Valid() && found.Valid()
      requires forall x :: x in found.entries ==> x !in orig && x !in cur.entries
      modifies this
      ensures Valid()
      ensures cur.entries == old(cur.entries) + found.entries
      ensures cur.keys == old(cur.keys) + found.keys
      ensures threads == old(threads)
    {
      assert forall x :: x in found.keys ==> x !in cur.entries;
      cur := cur.Update(found);
    }

    /** `for device, mount in new_devices.items(): on_new_device(device,
        mount)`. Every device is already in the table when the first thread
        starts. */
    method LaunchAll(found: Dict<Identity, string>)
      requires Valid() && found.Valid()
      requires forall x :: x in found.entries ==> x in cur.entries
      modifies this`threads
      ensures threads == old(threads) + Launches(found.keys, found.entries)
    {
      var ks := found.keys;
      ghost var t0 := threads;
      for j := 0 to |ks|
        invariant threads == t0 + Launches(ks[..j], found.entries)
      {
        LaunchesSnoc(t0, ks, j, found.entries);
        threads := threads + [Launch(ks[j], found.entries[ks[j]])];
      }
      assert ks[..|ks|] == ks;
    }
  }
}
