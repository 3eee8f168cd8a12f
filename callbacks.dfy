/** The worker side of flasher/callbacks.py: `CallbackManager` with its job
    queue and running flag, the per-device command pipeline `_process`, and
    the hash index kept by `scan_clone_dirs`.

    Shell commands are not run: each one is a `Cmd` value handed to an
    executor that answers success or failure, given how many commands were
    issued before it. The file system is a `FileSystem` value, and `md5sum`
    is its uninterpreted `md5` field. */
module Callbacks {
  import opened Util
  import opened Usb

  // ---------------------------------------------------------------------------
  // Commands and the environment

  /** A command line: whether it goes through `sudo`, the program, its
      arguments and the lines piped to its standard input. `MountProbe(p)` is
      `grep(df('-h'), p)`: it succeeds when `p` is listed as mounted. */
  datatype Cmd =
    | Cmd(sudo: bool, prog: string, args: seq<string>, input: seq<string>)
    | MountProbe(partition: string)

  function Sudo(prog: string, args: seq<string>): Cmd {
    Cmd(true, prog, args, [])
  }

  function Plain(prog: string, args: seq<string>): Cmd {
    Cmd(false, prog, args, [])
  }

  datatype Kind = RegularFile | Directory | OtherNode | Missing

  /** One triple of `os.walk`: a directory and the names of the files in it
      (the sub-directory names are not used). */
  datatype Walked = Walked(root: string, files: seq<string>)

  /** What `scan_clone_dirs` sees of the disk: the kind of a path
      (`os.path.isfile` / `os.path.isdir`, or `Missing` when `os.stat`
      raises), the triples `os.walk` yields, the digest `md5sum` prints (None
      when `md5sum` exits with an error) and the modification time. */
  datatype FileSystem = FileSystem(
    kind: string -> Kind,
    walk: string -> seq<Walked>,
    md5: string -> Option<string>,
    mtime: string -> int)

  /** The outside world of a worker: the command executor, which answers
      for the `n`-th command issued, and the file system. */
  datatype Env = Env(exec: (nat, Cmd) -> bool, fs: FileSystem)

  /** `self._data`: the clone paths, the file-system label and the
      directory under which devices are mounted. `mountName(device)` stands
      for `hex(abs(hash(device)))`. */
  datatype Config = Config(clone: seq<string>, volumeLabel: string, tmpMount: string, mountName: string -> string)

  // ---------------------------------------------------------------------------
  // The pipeline of _process

  /** A step of `_process`: a command, or the call of `scan_clone_dirs`. */
  datatype Step = Exec(cmd: Cmd) | Scan(paths: seq<string>)

  /** How `_process` ends: it ran to the end; a command exited with an error
      (`ErrorReturnCode`); `md5sum` failed on a file during the scan (also an
      `ErrorReturnCode`); or `os.stat` raised on a clone path, an exception
      `_run` does not catch. */
  datatype Outcome = Completed | Failed(cmd: Cmd) | Md5Failed(file: string) | Crashed

  /** `'%s1' % device`. */
  function Partition(device: string): (r: string)
    ensures |r| == |device| + 1 && r[..|device|] == device && r[|device|] == '1'
  {
    device + "1"
  }

  function TmpMount(cfg: Config, device: string): string {
    PathJoin(cfg.tmpMount, cfg.mountName(device))
  }

  /** The answers typed into `fdisk`: GPT table, new partition number 1,
      default first and last sectors, write. */
  const FdiskFlow: seq<string> := ["g", "n", "1", "", "", "", "w"]

  /** `sudo.cp('-r', path, tmp_mount)` for every clone path, in order. */
  function Copies(paths: seq<string>, tmp: string): (r: seq<Step>)
    ensures |r| == |paths|
  {
    if paths == [] then [] else [Exec(Sudo("cp", ["-r", paths[0], tmp]))] + Copies(paths[1..], tmp)
  }

  /** Step `i` copies clone path `i`. */
  lemma {:induction false} CopiesAt(paths: seq<string>, tmp: string)
    ensures forall i :: 0 <= i < |paths| ==> Copies(paths, tmp)[i] == Exec(Sudo("cp", ["-r", paths[i], tmp]))
    decreases |paths|
  {
    if paths != [] {
      CopiesAt(paths[1..], tmp);
      assert forall i :: 1 <= i < |paths| ==> Copies(paths, tmp)[i] == Copies(paths[1..], tmp)[i - 1];
    }
  }

  /** Everything `_process` does before `scan_clone_dirs`. The conditional
      unmount runs the program `unmount`, as written. */
  function Setup(cfg: Config, device: string, mounted: bool): seq<Step> {
    var part := Partition(device);
    var tmp := TmpMount(cfg, device);
    (if mounted then [Exec(Sudo("unmount", [part]))] else [])
    + [ Exec(Sudo("dd", ["if=/dev/zero", "of=" + device, "bs=4k", "count=1000"])),
        Exec(Plain("sync", [])),
        Exec(Cmd(true, "fdisk", [device], Pipe(FdiskFlow))),
        Exec(Plain("sync", [])),
        Exec(Sudo("partprobe", [device])),
        Exec(Sudo("mkfs", ["--type=ext4", "discard", "-b", "4096", "-L", cfg.volumeLabel, part])),
        Exec(Plain("mkdir", ["-p", tmp])),
        Exec(Sudo("mount", [part, tmp])) ]
    + Copies(cfg.clone, tmp)
    + [Exec(Plain("sync", []))]
  }

  /** The clean-up after the scan: unmount, remove the mount point, eject. */
  function Cleanup(cfg: Config, device: string): seq<Step> {
    [ Exec(Sudo("umount", [Partition(device)])),
      Exec(Sudo("rm", ["-rf", TmpMount(cfg, device)])),
      Exec(Sudo("eject", [device])) ]
  }

  /** The steps of `_process` once the mount probe has answered `mounted`:
      one `scan_clone_dirs` after the commands that fill the device and
      before the three clean-up commands; every other step is a command. */
  function Plan(cfg: Config, device: string, mounted: bool): seq<Step> {
    Setup(cfg, device, mounted) + [Scan(cfg.clone)] + Cleanup(cfg, device)
  }

  /** The plan has 13 steps besides the optional unmount and the copies;
      its only scan comes fourth from the end, over the clone paths, and the
      clean-up ends it. */
  lemma PlanShape(cfg: Config, device: string, mounted: bool)
    ensures var r := Plan(cfg, device, mounted);
      && |r| == (if mounted then 1 else 0) + 13 + |cfg.clone|
      && r[|r| - 4] == Scan(cfg.clone)
      && r[|r| - 3..] == Cleanup(cfg, device)
      && (forall i :: 0 <= i < |r| && i != |r| - 4 ==> r[i].Exec?)
  {
    var s := Setup(cfg, device, mounted);
    var c := Cleanup(cfg, device);
    var r := s + [Scan(cfg.clone)] + c;
    SetupCommands(cfg, device, mounted);
    assert r[|r| - 3..] == c;
    forall i | 0 <= i < |r| && i != |r| - 4
      ensures r[i].Exec?
    {
      if i < |s| {
        assert r[i] == s[i];
      } else {
        assert r[i] == c[i - |s| - 1];
      }
    }
  }

  /** Every step before the scan is a command. */
  lemma SetupCommands(cfg: Config, device: string, mounted: bool)
    ensures forall i :: 0 <= i < |Setup(cfg, device, mounted)| ==> Setup(cfg, device, mounted)[i].Exec?
  {
    var tmp := TmpMount(cfg, device);
    var pre: seq<Step> := if mounted then [Exec(Sudo("unmount", [Partition(device)]))] else [];
    var body: seq<Step> :=
      [ Exec(Sudo("dd", ["if=/dev/zero", "of=" + device, "bs=4k", "count=1000"])),
        Exec(Plain("sync", [])),
        Exec(Cmd(true, "fdisk", [device], Pipe(FdiskFlow))),
        Exec(Plain("sync", [])),
        Exec(Sudo("partprobe", [device])),
        Exec(Sudo("mkfs", ["--type=ext4", "discard", "-b", "4096", "-L", cfg.volumeLabel, Partition(device)])),
        Exec(Plain("mkdir", ["-p", tmp])),
        Exec(Sudo("mount", [Partition(device), tmp])) ];
    var copies := Copies(cfg.clone, tmp);
    var s := pre + body + copies + [Exec(Plain("sync", []))];
    assert Setup(cfg, device, mounted) == s;
    CopiesAt(cfg.clone, tmp);
    forall i | 0 <= i < |s|
      ensures s[i].Exec?
    {
      if i < |pre| {
        assert s[i] == pre[i];
      } else if i < |pre| + |body| {
        assert s[i] == body[i - |pre|];
      } else if i < |pre| + |body| + |copies| {
        assert s[i] == copies[i - |pre| - |body|];
      }
    }
  }

  /** The `fdisk` input: the seven answers, each on its own line. */
  lemma FdiskInput()
    ensures Pipe(FdiskFlow) == ["g\n", "n\n", "1\n", "\n", "\n", "\n", "w\n"]
  {
    var p := Pipe(FdiskFlow);
    PipeLines(FdiskFlow);
    var q := ["g\n", "n\n", "1\n", "\n", "\n", "\n", "w\n"];
    forall i | 0 <= i < 7
      ensures p[i] == q[i]
    {
      assert FdiskFlow[i] + "\n" == q[i];
    }
  }

  /** The commands among `steps`, in order. */
  function Cmds(steps: seq<Step>): (r: seq<Cmd>)
    ensures |r| <= |steps|
  {
    if steps == [] then []
    else (if steps[0].Exec? then [steps[0].cmd] else []) + Cmds(steps[1..])
  }

  // ---------------------------------------------------------------------------
  // scan_clone_dirs

  /** `os.path.join(root, file)` for every file of one `os.walk` triple. */
  function JoinAll(root: string, files: seq<string>): (r: seq<string>)
    ensures |r| == |files|
    ensures forall i :: 0 <= i < |files| ==> r[i] == PathJoin(root, files[i])
  {
    if files == [] then [] else JoinAll(root, files[..|files| - 1]) + [PathJoin(root, files[|files| - 1])]
  }

  /** Every file `os.walk` reports under a directory, in walk order. */
  function WalkFiles(tree: seq<Walked>): seq<string> {
    if tree == [] then []
    else WalkFiles(tree[..|tree| - 1]) + JoinAll(tree[|tree| - 1].root, tree[|tree| - 1].files)
  }

  /** The files one clone path contributes: itself when it is a regular
      file, everything under it when it is a directory, nothing otherwise. */
  function PathFiles(fs: FileSystem, path: string): seq<string> {
    match fs.kind(path)
    case RegularFile => [path]
    case Directory => WalkFiles(fs.walk(path))
    case _ => []
  }

  /** The files `scan_clone_dirs` hashes, in order. */
  function ScanFiles(fs: FileSystem, paths: seq<string>): seq<string> {
    if paths == [] then [] else ScanFiles(fs, paths[..|paths| - 1]) + PathFiles(fs, paths[|paths| - 1])
  }

  /** `self._hashsums[f] = get_md5sum(f)` for the files in order, stopping
      at the first file `md5sum` fails on (named in the second component). */
  function HashInto(h: map<string, string>, md5: string -> Option<string>, files: seq<string>)
    : (map<string, string>, Option<string>)
  {
    if files == [] then (h, None)
    else
      var p := HashInto(h, md5, files[..|files| - 1]);
      var f := files[|files| - 1];
      if p.1.Some? then p
      else match md5(f)
        case None => (p.0, Some(f))
        case Some(d) => (p.0[f := d], None)
  }

  /** `sum(map(lambda o: os.stat(o).st_mtime, paths))`; None when some path
      does not exist (`os.stat` raises). */
  function MtimeSum(fs: FileSystem, paths: seq<string>): (r: Option<int>)
    ensures r.None? <==> exists i :: 0 <= i < |paths| && fs.kind(paths[i]) == Missing
  {
    if paths == [] then Some(0)
    else
      var rest := MtimeSum(fs, paths[1..]);
      assert forall i :: 1 <= i < |paths| ==> paths[i] == paths[1..][i - 1];
      if fs.kind(paths[0]) == Missing || rest.None? then None else Some(fs.mtime(paths[0]) + rest.value)
  }

  /** How a scan ends: normally, or at a file `md5sum` failed on, or with
      `os.stat` raising on a missing clone path. */
  datatype ScanResult = Scanned | ScanMd5Failed(file: string) | ScanCrashed

  /** Specification of `scan_clone_dirs` on the hash index `h`, given the
      stored modification stamp `lastModified`. */
  function ScanSpec(h: map<string, string>, fs: FileSystem, lastModified: Option<int>, paths: seq<string>)
    : (map<string, string>, ScanResult)
  {
    match MtimeSum(fs, paths)
    case None => (h, ScanCrashed)
    case Some(n) =>
      if lastModified == Some(n) then (h, Scanned)
      else
        var p := HashInto(h, fs.md5, ScanFiles(fs, paths));
        (p.0, if p.1.Some? then ScanMd5Failed(p.1.value) else Scanned)
  }

  // ---------------------------------------------------------------------------
  // Running a pipeline

  /** The commands issued, the hash index afterwards and the outcome. */
  datatype Trace = Trace(log: seq<Cmd>, hashsums: map<string, string>, outcome: Outcome)

  /** What one `scan_clone_dirs` call does to the hash index, given the
      clone paths. */
  type Scanner = (map<string, string>, seq<string>) -> (map<string, string>, ScanResult)

  /** The scan of a worker whose stored stamp is `lastModified`; a scan
      never changes that stamp, so it is the same for the whole run. */
  function ScannerOf(fs: FileSystem, lastModified: Option<int>): Scanner {
    (h, paths) => ScanSpec(h, fs, lastModified, paths)
  }

  /** Runs `steps` after the commands in `log` were issued, with hash index
      `h`, the executor `exec` and the scan `scan`: a failing command is the
      last one issued and nothing after it runs. */
  function RunSteps(steps: seq<Step>, exec: (nat, Cmd) -> bool, scan: Scanner, log: seq<Cmd>, h: map<string, string>)
    : Trace
    decreases |steps|
  {
    if steps == [] then Trace(log, h, Completed)
    else match steps[0]
      case Exec(c) =>
        if exec(|log|, c) then RunSteps(steps[1..], exec, scan, log + [c], h)
        else Trace(log + [c], h, Failed(c))
      case Scan(paths) =>
        var s := scan(h, paths);
        match s.1
        case ScanCrashed => Trace(log, h, Crashed)
        case ScanMd5Failed(f) => Trace(log, s.0, Md5Failed(f))
        case Scanned => RunSteps(steps[1..], exec, scan, log, s.0)
  }

  /** A worker's run of `steps` in the environment `env`. */
  function RunFrom(steps: seq<Step>, env: Env, lastModified: Option<int>, log: seq<Cmd>, h: map<string, string>)
    : Trace
  {
    RunSteps(steps, env.exec, ScannerOf(env.fs, lastModified), log, h)
  }

  /** `_process(device)`: the mount probe, then the plan it selects. */
  function ProcessSpec(cfg: Config, device: string, env: Env, lastModified: Option<int>,
                       log: seq<Cmd>, h: map<string, string>): Trace
  {
    var probe := MountProbe(Partition(device));
    RunFrom(Plan(cfg, device, env.exec(|log|, probe)), env, lastModified, log + [probe], h)
  }

  // ---------------------------------------------------------------------------
  // Properties of a run

  /** A command step issues the command and either goes on or, when the
      command fails, ends the run with it. */
  lemma RunExec(steps: seq<Step>, exec: (nat, Cmd) -> bool, scan: Scanner, log: seq<Cmd>, h: map<string, string>)
    requires steps != [] && steps[0].Exec?
    ensures var c := steps[0].cmd;
      var r := RunSteps(steps, exec, scan, log, h);
      && |log + [c]| == |log| + 1
      && if exec(|log|, c) then r == RunSteps(steps[1..], exec, scan, log + [c], h)
         else r == Trace(log + [c], h, Failed(c)) && |r.log| - 1 == |log| && !exec(|r.log| - 1, c)
  {
  }

  /** A scan step either lets the run go on with the new index, or ends it
      without issuing a command. */
  lemma RunScan(steps: seq<Step>, exec: (nat, Cmd) -> bool, scan: Scanner, log: seq<Cmd>, h: map<string, string>)
    requires steps != [] && steps[0].Scan?
    ensures var sc := scan(h, steps[0].paths);
      var r := RunSteps(steps, exec, scan, log, h);
      if sc.1 == Scanned then r == RunSteps(steps[1..], exec, scan, log, sc.0)
      else r.log == log && !r.outcome.Failed? && !r.outcome.Completed?
  {
  }

  /** The commands issued are the plan's commands, in order, up to where the
      run stopped. */
  lemma {:induction false} RunPrefix(steps: seq<Step>, exec: (nat, Cmd) -> bool, scan: Scanner, log: seq<Cmd>, h: map<string, string>)
    ensures var r := RunSteps(steps, exec, scan, log, h);
      log <= r.log <= log + Cmds(steps)
    decreases |steps|
  {
    if steps == [] {
      PrefixRefl(log, []);
    } else {
      var rest := Cmds(steps[1..]);
      CmdsHead(steps);
      match steps[0]
      case Exec(c) =>
        RunExec(steps, exec, scan, log, h);
        if exec(|log|, c) {
          RunPrefix(steps[1..], exec, scan, log + [c], h);
        } else {
          PrefixRefl(log + [c], rest);
        }
        PrefixCons(log, c, rest, RunSteps(steps, exec, scan, log, h).log);
      case Scan(paths) =>
        RunScan(steps, exec, scan, log, h);
        if scan(h, paths).1 == Scanned {
          RunPrefix(steps[1..], exec, scan, log, scan(h, paths).0);
        } else {
          PrefixRefl(log, rest);
        }
    }
  }

  /** `Cmds` on a non-empty plan: the first step's command, then the rest. */
  lemma CmdsHead(steps: seq<Step>)
    requires steps != []
    ensures steps[0].Exec? ==> Cmds(steps) == [steps[0].cmd] + Cmds(steps[1..])
    ensures steps[0].Scan? ==> Cmds(steps) == Cmds(steps[1..])
  {
  }

  lemma PrefixRefl<T>(a: seq<T>, b: seq<T>)
    ensures a <= a <= a + b
  {
    assert (a + b)[..|a|] == a;
  }

  lemma PrefixCons<T>(log: seq<T>, c: T, rest: seq<T>, x: seq<T>)
    requires log + [c] <= x <= (log + [c]) + rest
    ensures log <= x <= log + ([c] + rest)
  {
    assert (log + [c]) + rest == log + ([c] + rest);
    PrefixTrans(log, log + [c], x);
  }

  lemma PrefixTrans<T>(a: seq<T>, b: seq<T>, c: seq<T>)
    requires a <= b && b <= c
    ensures a <= c
  {
    assert c[..|a|] == b[..|a|];
  }



  /** A run that completes has issued every command of the plan. */
  lemma {:induction false} RunCompleted(steps: seq<Step>, exec: (nat, Cmd) -> bool, scan: Scanner, log: seq<Cmd>, h: map<string, string>)
    ensures var r := RunSteps(steps, exec, scan, log, h);
      r.outcome.Completed? ==> r.log == log + Cmds(steps)
    decreases |steps|
  {
    if steps == [] {
      assert log + [] == log;
    } else {
      CmdsHead(steps);
      match steps[0]
      case Exec(c) =>
        RunExec(steps, exec, scan, log, h);
        if exec(|log|, c) {
          RunCompleted(steps[1..], exec, scan, log + [c], h);
          AppendAssoc(log, [c], Cmds(steps[1..]));
        }
      case Scan(paths) =>
        RunScan(steps, exec, scan, log, h);
        if scan(h, paths).1 == Scanned {
          RunCompleted(steps[1..], exec, scan, log, scan(h, paths).0);
        }
    }
  }

  /** A run that ends with `Failed(c)` issued `c` last, and `c` failed. */
  lemma {:induction false} RunFailed(steps: seq<Step>, exec: (nat, Cmd) -> bool, scan: Scanner, log: seq<Cmd>, h: map<string, string>)
    ensures var r := RunSteps(steps, exec, scan, log, h);
      r.outcome.Failed? ==>
        |r.log| > |log| && r.log[|r.log| - 1] == r.outcome.cmd && !exec(|r.log| - 1, r.outcome.cmd)
    decreases |steps|
  {
    if steps != [] {
      match steps[0]
      case Exec(c) =>
        RunExec(steps, exec, scan, log, h);
        RunFailed(steps[1..], exec, scan, log + [c], h);
      case Scan(paths) =>
        RunScan(steps, exec, scan, log, h);
        RunFailed(steps[1..], exec, scan, log, scan(h, paths).0);
    }
  }

  /** Every command a run issued succeeded, except the last one of a run
      that ended with `Failed`. */
  lemma {:induction false} RunSucceeded(steps: seq<Step>, exec: (nat, Cmd) -> bool, scan: Scanner, log: seq<Cmd>, h: map<string, string>)
    ensures var r := RunSteps(steps, exec, scan, log, h);
      forall j :: |log| <= j < |r.log| && !(r.outcome.Failed? && j == |r.log| - 1) ==> exec(j, r.log[j])
    decreases |steps|
  {
    if steps != [] {
      match steps[0]
      case Exec(c) =>
        RunExec(steps, exec, scan, log, h);
        if exec(|log|, c) {
          var r := RunSteps(steps[1..], exec, scan, log + [c], h);
          RunSucceeded(steps[1..], exec, scan, log + [c], h);
          RunPrefix(steps[1..], exec, scan, log + [c], h);
          SucceededStep(log, c, r.log, r.outcome.Failed?, exec);
        }
      case Scan(paths) =>
        RunScan(steps, exec, scan, log, h);
        if scan(h, paths).1 == Scanned {
          RunSucceeded(steps[1..], exec, scan, log, scan(h, paths).0);
        }
    }
  }

  /** One successful command in front of a run whose commands succeeded. */
  lemma SucceededStep<T>(log: seq<T>, c: T, rlog: seq<T>, failed: bool, ok: (nat, T) -> bool)
    requires log + [c] <= rlog && ok(|log|, c)
    requires forall j :: |log| + 1 <= j < |rlog| && !(failed && j == |rlog| - 1) ==> ok(j, rlog[j])
    ensures forall j :: |log| <= j < |rlog| && !(failed && j == |rlog| - 1) ==> ok(j, rlog[j])
  {
    assert rlog[|log|] == (log + [c])[|log|] == c;
  }

  /** Running `a + b` runs `a`, then `b` only if `a` completed. */
  lemma {:induction false} RunAppend(a: seq<Step>, b: seq<Step>, exec: (nat, Cmd) -> bool, scan: Scanner, log: seq<Cmd>, h: map<string, string>)
    ensures var p := RunSteps(a, exec, scan, log, h);
      RunSteps(a + b, exec, scan, log, h) == if p.outcome.Completed? then RunSteps(b, exec, scan, p.log, p.hashsums) else p
    decreases |a|
  {
    if a == [] {
      assert a + b == b;
    } else {
      assert (a + b)[0] == a[0] && (a + b)[1..] == a[1..] + b;
      match a[0]
      case Exec(c) =>
        if exec(|log|, c) {
          RunAppend(a[1..], b, exec, scan, log + [c], h);
        }
      case Scan(paths) =>
        if scan(h, paths).1 == Scanned {
          RunAppend(a[1..], b, exec, scan, log, scan(h, paths).0);
        }
    }
  }

  /** The clean-up commands of `_process` run only when every earlier
      command succeeded and the scan finished; otherwise the run ends where
      the first failure happened. */
  lemma ProcessCleanupLast(cfg: Config, device: string, env: Env, lm: Option<int>, log: seq<Cmd>, h: map<string, string>)
    ensures var probe := MountProbe(Partition(device));
      var mounted := env.exec(|log|, probe);
      var pre := RunFrom(Setup(cfg, device, mounted) + [Scan(cfg.clone)], env, lm, log + [probe], h);
      ProcessSpec(cfg, device, env, lm, log, h)
        == if pre.outcome.Completed? then RunFrom(Cleanup(cfg, device), env, lm, pre.log, pre.hashsums) else pre
  {
    var probe := MountProbe(Partition(device));
    var mounted := env.exec(|log|, probe);
    RunAppend(Setup(cfg, device, mounted) + [Scan(cfg.clone)], Cleanup(cfg, device),
              env.exec, ScannerOf(env.fs, lm), log + [probe], h);
  }

  // ---------------------------------------------------------------------------
  // Properties of the hash index

  /** Hashing never removes an entry, and an entry for a file not hashed
      again keeps its digest, even if that file no longer exists. */
  lemma {:induction false} HashIntoKeeps(h: map<string, string>, md5: string -> Option<string>, files: seq<string>)
    ensures var r := HashInto(h, md5, files).0;
      && (forall k :: k in h ==> k in r)
      && (forall k :: k in h && k !in files ==> r[k] == h[k])
      && (forall k :: k in r ==> k in h || k in files)
    decreases |files|
  {
    if files != [] {
      var init := files[..|files| - 1];
      HashIntoKeeps(h, md5, init);
      assert forall k :: k in files <==> k in init || k == files[|files| - 1];
    }
  }

  /** A scan that finishes holds, for every file it visited, the digest
      `md5sum` gives for it. A failing scan names a visited file `md5sum`
      failed on. */
  lemma {:induction false} HashIntoDigests(h: map<string, string>, md5: string -> Option<string>, files: seq<string>)
    ensures var r := HashInto(h, md5, files);
      && (r.1.None? ==> forall f :: f in files ==> f in r.0 && md5(f) == Some(r.0[f]))
      && (r.1.Some? ==> r.1.value in files && md5(r.1.value) == None)
    decreases |files|
  {
    if files != [] {
      var init := files[..|files| - 1];
      HashIntoDigests(h, md5, init);
      assert forall k :: k in files <==> k in init || k == files[|files| - 1];
    }
  }

  /** With `_last_modified` still None, the early return never fires: every
      scan that does not crash hashes all the files again. */
  lemma ScanAlwaysRehashes(h: map<string, string>, fs: FileSystem, paths: seq<string>)
    ensures var s := ScanSpec(h, fs, None, paths);
      && (s.1 == ScanCrashed <==> exists i :: 0 <= i < |paths| && fs.kind(paths[i]) == Missing)
      && (s.1 == ScanCrashed ==> s.0 == h)
      && (s.1 != ScanCrashed ==> s.0 == HashInto(h, fs.md5, ScanFiles(fs, paths)).0)
  {
  }

  /** `f` is one of the files of a walk entry, joined to its root. */
  predicate Listed(w: Walked, f: string) {
    exists i :: 0 <= i < |w.files| && f == PathJoin(w.root, w.files[i])
  }

  /** What one clone path contributes: a regular file itself, every file
      found under a directory (joined to its walk root), nothing else. */
  lemma PathFilesKinds(fs: FileSystem, path: string)
    ensures fs.kind(path) == RegularFile ==> PathFiles(fs, path) == [path]
    ensures fs.kind(path) == Directory ==>
              forall f :: f in PathFiles(fs, path) <==>
                exists j :: 0 <= j < |fs.walk(path)| && Listed(fs.walk(path)[j], f)
    ensures fs.kind(path) != RegularFile && fs.kind(path) != Directory ==> PathFiles(fs, path) == []
  {
    if fs.kind(path) == Directory {
      WalkFilesMembers(fs.walk(path));
    }
  }

  lemma JoinAllMembers(w: Walked)
    ensures forall f :: f in JoinAll(w.root, w.files) <==> Listed(w, f)
  {
    var r := JoinAll(w.root, w.files);
    forall f | Listed(w, f) ensures f in r {
      var i :| 0 <= i < |w.files| && f == PathJoin(w.root, w.files[i]);
      assert r[i] == f;
    }
  }

  lemma {:induction false} WalkFilesMembers(tree: seq<Walked>)
    ensures forall f :: f in WalkFiles(tree) <==> exists j :: 0 <= j < |tree| && Listed(tree[j], f)
    decreases |tree|
  {
    if tree != [] {
      var init := tree[..|tree| - 1];
      var last := tree[|tree| - 1];
      WalkFilesMembers(init);
      JoinAllMembers(last);
      assert WalkFiles(tree) == WalkFiles(init) + JoinAll(last.root, last.files);
      forall f ensures f in WalkFiles(tree) <==> exists j :: 0 <= j < |tree| && Listed(tree[j], f) {
        if f in WalkFiles(init) {
          var j :| 0 <= j < |init| && Listed(init[j], f);
          assert tree[j] == init[j];
        }
        if exists j :: 0 <= j < |tree| && Listed(tree[j], f) {
          var j :| 0 <= j < |tree| && Listed(tree[j], f);
          if j < |init| {
            assert init[j] == tree[j];
          }
        }
      }
    }
  }

  // ---------------------------------------------------------------------------
  // The manager

  /** `(device_id, device_path)` as queued by `on_new_device`. */
  type Job = (Identity, string)

  /** What one pass of `_run`'s loop did. */
  datatype Tick =
    | Exit                        // the running flag was clear: the worker stops
    | Idle                        // `get(timeout=1.0)` found the queue empty
    | Handled(job: Job, outcome: Outcome)  // `task_done` was called
    | Died(job: Job)              // an uncaught exception ended the worker

  class CallbackManager {
    const cfg: Config
    /** `self._queue`, head first. */
    var queue: seq<Job>
    /** `self._running.is_set()`. */
    var running: bool
    /** The queue's count of jobs put but not yet marked `task_done`. */
    var unfinished: nat
    var lastModified: Option<int>
    var hashsums: map<string, string>
    /** Every command issued so far, in order. */
    var log: seq<Cmd>

    /** Every queued job is unfinished. */
    ghost predicate Valid()
      reads this
    {
      |queue| <= unfinished
    }

    /** The part of the manager's state that only the workers change. */
    ghost function WorkerState(): (bool, Option<int>, map<string, string>, seq<Cmd>)
      reads this
    {
      (running, lastModified, hashsums, log)
    }

    /** The part of the manager's state that a pass of `_run` changes. */
    ghost function Vars(): WorkerVars
      reads this
    {
      WorkerVars(queue, unfinished, log, hashsums)
    }

    constructor (cfg: Config)
      ensures Valid()
      ensures this.cfg == cfg && queue == [] && running && unfinished == 0
      ensures lastModified == None && hashsums == map[] && log == []
    {
      this.cfg := cfg;
      queue := [];
      running := true;
      unfinished := 0;
      lastModified := None;
      hashsums := map[];
      log := [];
    }

    /** `stop()`: clears the running flag and nothing else. */
    method Stop()
      requires Valid()
      modifies this`running
      ensures Valid()
      ensures !running
    {
      running := false;
    }

    /** `on_new_device(device_id, device_path)`: the job goes to the tail of
        the queue, whether or not the same job is already queued. */
    method OnNewDevice(id: Identity, path: string)
      requires Valid()
      modifies this`queue, this`unfinished
      ensures Valid()
      ensures queue == old(queue) + [(id, path)] && unfinished == old(unfinished) + 1
    {
      queue := queue + [(id, path)];
      unfinished := unfinished + 1;
    }

    /** `_process(device)`: probes whether the partition is mounted (a
        failing probe is ignored), then issues the plan's commands in order
        and stops at the first failure. */
    method Process(device: string, env: Env) returns (outcome: Outcome)
      modifies this`log, this`hashsums
      ensures Trace(log, hashsums, outcome) == ProcessSpec(cfg, device, env, lastModified, old(log), old(hashsums))
    {
      var probe := MountProbe(Partition(device));
      var mounted := env.exec(|log|, probe);
      log := log + [probe];
      var steps := Plan(cfg, device, mounted);
      PlanShape(cfg, device, mounted);
      outcome := RunPlan(steps, env);
    }

    /** The steps of `_process` after the probe, in order, stopping at the
        first that fails. */
    method RunPlan(steps: seq<Step>, env: Env) returns (outcome: Outcome)
      requires forall i :: 0 <= i < |steps| && steps[i].Scan? ==> steps[i].paths == cfg.clone
      modifies this`log, this`hashsums
      ensures Trace(log, hashsums, outcome) == RunFrom(steps, env, lastModified, old(log), old(hashsums))
    {
      for i := 0 to |steps|
        invariant RunFrom(steps[i..], env, lastModified, log, hashsums)
               == RunFrom(steps, env, lastModified, old(log), old(hashsums))
      {
        var done;
        done, outcome := RunStep(steps, i, env);
        if done {
          return;
        }
      }
      assert steps[|steps|..] == [];
      return Completed;
    }

    /** One step of `_process`: a command, or the scan. `done` is set when
        the run stops here, with its outcome. */
    method RunStep(steps: seq<Step>, i: nat, env: Env) returns (done: bool, outcome: Outcome)
      requires i < |steps| && (steps[i].Scan? ==> steps[i].paths == cfg.clone)
      modifies this`log, this`hashsums
      ensures done ==> Trace(log, hashsums, outcome) == RunFrom(steps[i..], env, lastModified, old(log), old(hashsums))
      ensures !done ==> RunFrom(steps[i + 1..], env, lastModified, log, hashsums)
                        == RunFrom(steps[i..], env, lastModified, old(log), old(hashsums))
    {
      assert steps[i..][0] == steps[i] && steps[i..][1..] == steps[i + 1..];
      done, outcome := false, Completed;
      match steps[i]
      case Exec(c) =>
        var ok := env.exec(|log|, c);
        log := log + [c];
        if !ok {
          done, outcome := true, Failed(c);
        }
      case Scan(paths) =>
        var r := ScanCloneDirs(env.fs);
        if r == ScanCrashed {
          done, outcome := true, Crashed;
        } else if r.ScanMd5Failed? {
          done, outcome := true, Md5Failed(r.file);
        }
    }

    /** One pass of `_run`'s loop: stop when the flag is clear; otherwise
        take the oldest job, if any, and process it. An `ErrorReturnCode` is
        caught and the job marked done; any other exception ends the worker
        without marking it done. The ghost `process` stands for `_process`
        (`Processor` is the one `Run` passes), so the pass can be stated
        with `PassSpec` without unfolding the plan. */
    method WorkerStep(env: Env, ghost process: Process) returns (t: Tick)
      requires Valid() && IsProcess(process, cfg, env, lastModified)
      modifies this`queue, this`unfinished, this`log, this`hashsums
      ensures Valid()
      ensures (t, Vars()) == PassSpec(process, running, old(Vars()))
    {
      if !running {
        return Exit;
      }
      if queue == [] {
        return Idle;
      }
      var job := queue[0];
      queue := queue[1..];
      var outcome := Process(job.1, env);
      if outcome == Crashed {
        return Died(job);
      }
      unfinished := unfinished - 1;
      return Handled(job, outcome);
    }

    /** `_run`, for at most `fuel` passes of its `while True` loop (it never
        ends on its own while the flag is set). The passes are those of
        `RunSpec`: jobs are taken in FIFO order, each is processed as
        `_process` specifies, a caught error does not stop the worker, and a
        cleared flag stops it at the next check. */
    method Run(env: Env, fuel: nat) returns (ticks: seq<Tick>)
      requires Valid()
      modifies this`queue, this`unfinished, this`log, this`hashsums
      ensures Valid()
      ensures (ticks, Vars()) == RunSpec(Processor(cfg, env, lastModified), running, old(Vars()), fuel)
      ensures |ticks| == fuel || (ticks != [] && (ticks[|ticks| - 1].Exit? || ticks[|ticks| - 1].Died?))
      ensures forall j :: 0 <= j < |ticks| - 1 ==> ticks[j].Idle? || ticks[j].Handled?
      ensures running ==> forall j :: 0 <= j < |ticks| ==> !ticks[j].Exit?
      ensures !running ==> ticks == (if fuel == 0 then [] else [Exit]) && queue == old(queue)
      ensures unfinished + HandledCount(ticks) == old(unfinished)
      ensures running && |old(queue)| <= fuel && (forall j :: 0 <= j < |ticks| ==> !ticks[j].Died?) ==>
                queue == [] && HandledCount(ticks) >= |old(queue)|
      ensures |Jobs(ticks)| <= |old(queue)| && Jobs(ticks) == old(queue)[..|Jobs(ticks)|]
      ensures queue == old(queue)[|Jobs(ticks)|..]
    {
      ticks := Passes(env, fuel, Processor(cfg, env, lastModified));
      RunSpecFacts(Processor(cfg, env, lastModified), running, old(Vars()), fuel, ticks, Vars());
    }

    /** The loop of `Run`: passes until `fuel` runs out or one exits or dies,
        as `RunSpec` describes, taking jobs in FIFO order. */
    method Passes(env: Env, fuel: nat, ghost process: Process) returns (ticks: seq<Tick>)
      requires Valid() && IsProcess(process, cfg, env, lastModified)
      modifies this`queue, this`unfinished, this`log, this`hashsums
      ensures Valid()
      ensures (ticks, Vars()) == RunSpec(process, running, old(Vars()), fuel)
    {
      ghost var v0 := Vars();
      ticks := [];
      while |ticks| < fuel
        invariant Valid() && |ticks| <= fuel
        invariant (ticks, Vars()) == PassesFrom(process, running, v0, |ticks|)
        invariant forall j :: 0 <= j < |ticks| ==> !ticks[j].Exit? && !ticks[j].Died?
      {
        var t := WorkerStep(env, process);
        ticks := ticks + [t];
        if t.Exit? || t.Died? {
          break;
        }
      }
      RunSpecPasses(process, running, v0, fuel, |ticks|);
    }

    /** `scan_clone_dirs()`: the stamp is computed first (a missing clone
        path raises there), then every clone path is hashed in order. */
    method ScanCloneDirs(fs: FileSystem) returns (r: ScanResult)
      modifies this`hashsums
      ensures (hashsums, r) == ScanSpec(old(hashsums), fs, lastModified, cfg.clone)
    {
      var stamp := MtimeSum(fs, cfg.clone);
      if stamp.None? {
        return ScanCrashed;
      }
      if lastModified == Some(stamp.value) {
        return Scanned;
      }
      var failed := HashPaths(fs, cfg.clone);
      r := if failed.Some? then ScanMd5Failed(failed.value) else Scanned;
    }

    /** The `for path in paths` loop of `scan_clone_dirs`, stopping at the
        first file `md5sum` fails on. */
    method HashPaths(fs: FileSystem, paths: seq<string>) returns (failed: Option<string>)
      modifies this`hashsums
      ensures (hashsums, failed) == HashInto(old(hashsums), fs.md5, ScanFiles(fs, paths))
    {
      ghost var h0 := hashsums;
      for i := 0 to |paths|
        invariant (hashsums, None) == HashInto(h0, fs.md5, ScanFiles(fs, paths[..i]))
      {
        ghost var hi := hashsums;
        failed := HashPath(fs, paths[i]);
        ScanStep(h0, fs, paths, i, hi);
        if failed.Some? {
          return;
        }
      }
      assert paths[..|paths|] == paths;
      failed := None;
    }

    /** One pass of the `for path in paths` loop of `scan_clone_dirs`: a
        regular file is hashed under its own path, a directory is walked,
        anything else is skipped. */
    method HashPath(fs: FileSystem, path: string) returns (failed: Option<string>)
      modifies this`hashsums
      ensures (hashsums, failed) == HashInto(old(hashsums), fs.md5, PathFiles(fs, path))
    {
      var kind := fs.kind(path);
      if kind == RegularFile {
        var d := fs.md5(path);
        HashIntoSnoc(hashsums, fs.md5, [], path);
        assert [] + [path] == [path];
        if d.None? {
          return Some(path);
        }
        hashsums := hashsums[path := d.value];
        return None;
      } else if kind != Directory {
        return None;
      }
      failed := HashTree(fs, fs.walk(path));
    }

    /** The `os.walk` loop of `scan_clone_dirs` for one clone directory. */
    method HashTree(fs: FileSystem, tree: seq<Walked>) returns (failed: Option<string>)
      modifies this`hashsums
      ensures (hashsums, failed) == HashInto(old(hashsums), fs.md5, WalkFiles(tree))
    {
      ghost var h0 := hashsums;
      for j := 0 to |tree|
        invariant (hashsums, None) == HashInto(h0, fs.md5, WalkFiles(tree[..j]))
      {
        ghost var done := WalkFiles(tree[..j]);
        WalkFilesStep(tree, j);
        failed := HashDir(fs, tree[j].root, tree[j].files);
        HashIntoAppend(h0, fs.md5, done, JoinAll(tree[j].root, tree[j].files));
        if failed.Some? {
          HashIntoStops(h0, fs.md5, WalkFiles(tree[..j + 1]), WalkFiles(tree));
          return;
        }
      }
      assert tree[..|tree|] == tree;
      failed := None;
    }

    /** `for file in files: self._hashsums[join(root, file)] = get_md5sum(...)`. */
    method HashDir(fs: FileSystem, root: string, files: seq<string>) returns (failed: Option<string>)
      modifies this`hashsums
      ensures (hashsums, failed) == HashInto(old(hashsums), fs.md5, JoinAll(root, files))
    {
      ghost var h0 := hashsums;
      for k := 0 to |files|
        invariant (hashsums, None) == HashInto(h0, fs.md5, JoinAll(root, files[..k]))
      {
        var file := PathJoin(root, files[k]);
        var d := fs.md5(file);
        JoinAllStep(root, files, k);
        HashIntoSnoc(h0, fs.md5, JoinAll(root, files[..k]), file);
        if d.None? {
          HashIntoStops(h0, fs.md5, JoinAll(root, files[..k + 1]), JoinAll(root, files));
          return Some(file);
        }
        hashsums := hashsums[file := d.value];
      }
      assert files[..|files|] == files;
      failed := None;
    }
  }

  /** Hashing the files of one more clone path, after the earlier ones
      finished, is hashing the files of the paths so far; once it fails,
      hashing the rest changes nothing. */
  lemma ScanStep(h0: map<string, string>, fs: FileSystem, paths: seq<string>, i: nat, hi: map<string, string>)
    requires i < |paths| && (hi, None) == HashInto(h0, fs.md5, ScanFiles(fs, paths[..i]))
    ensures var p := HashInto(hi, fs.md5, PathFiles(fs, paths[i]));
      && HashInto(h0, fs.md5, ScanFiles(fs, paths[..i + 1])) == p
      && (p.1.Some? ==> HashInto(h0, fs.md5, ScanFiles(fs, paths)) == p)
  {
    ScanFilesStep(fs, paths, i);
    HashIntoAppend(h0, fs.md5, ScanFiles(fs, paths[..i]), PathFiles(fs, paths[i]));
    if HashInto(hi, fs.md5, PathFiles(fs, paths[i])).1.Some? {
      HashIntoStops(h0, fs.md5, ScanFiles(fs, paths[..i + 1]), ScanFiles(fs, paths));
    }
  }

  lemma ScanFilesStep(fs: FileSystem, paths: seq<string>, i: nat)
    requires i < |paths|
    ensures ScanFiles(fs, paths[..i + 1]) == ScanFiles(fs, paths[..i]) + PathFiles(fs, paths[i])
    ensures ScanFiles(fs, paths[..i + 1]) <= ScanFiles(fs, paths)
  {
    assert paths[..i + 1][..i] == paths[..i];
    ScanFilesPrefix(fs, paths, i + 1);
  }

  lemma {:induction false} ScanFilesPrefix(fs: FileSystem, paths: seq<string>, i: nat)
    requires i <= |paths|
    ensures ScanFiles(fs, paths[..i]) <= ScanFiles(fs, paths)
    decreases |paths| - i
  {
    if i < |paths| {
      ScanFilesPrefix(fs, paths, i + 1);
      assert paths[..i + 1][..i] == paths[..i];
    } else {
      assert paths[..i] == paths;
    }
  }

  lemma WalkFilesStep(tree: seq<Walked>, j: nat)
    requires j < |tree|
    ensures WalkFiles(tree[..j + 1]) == WalkFiles(tree[..j]) + JoinAll(tree[j].root, tree[j].files)
    ensures WalkFiles(tree[..j + 1]) <= WalkFiles(tree)
  {
    assert tree[..j + 1][..j] == tree[..j];
    WalkFilesPrefix(tree, j + 1);
  }

  lemma {:induction false} WalkFilesPrefix(tree: seq<Walked>, j: nat)
    requires j <= |tree|
    ensures WalkFiles(tree[..j]) <= WalkFiles(tree)
    decreases |tree| - j
  {
    if j < |tree| {
      WalkFilesPrefix(tree, j + 1);
      assert tree[..j + 1][..j] == tree[..j];
    } else {
      assert tree[..j] == tree;
    }
  }

  lemma JoinAllStep(root: string, files: seq<string>, k: nat)
    requires k < |files|
    ensures JoinAll(root, files[..k + 1]) == JoinAll(root, files[..k]) + [PathJoin(root, files[k])]
    ensures JoinAll(root, files[..k + 1]) <= JoinAll(root, files)
  {
    assert files[..k + 1][..k] == files[..k];
  }

  /** Hashing `a + b` is hashing `a`, then `b` unless `a` already failed. */
  lemma {:induction false} HashIntoAppend(h: map<string, string>, md5: string -> Option<string>, a: seq<string>, b: seq<string>)
    ensures var p := HashInto(h, md5, a);
      HashInto(h, md5, a + b) == if p.1.Some? then p else HashInto(p.0, md5, b)
    decreases |b|
  {
    if b == [] {
      assert a + b == a;
    } else {
      var b' := b[..|b| - 1];
      HashIntoAppend(h, md5, a, b');
      assert (a + b)[..|a + b| - 1] == a + b';
    }
  }

  /** After a failure, hashing more files changes nothing. */
  lemma HashIntoStops(h: map<string, string>, md5: string -> Option<string>, a: seq<string>, b: seq<string>)
    requires a <= b && HashInto(h, md5, a).1.Some?
    ensures HashInto(h, md5, b) == HashInto(h, md5, a)
  {
    HashIntoAppend(h, md5, a, b[|a|..]);
    assert a + b[|a|..] == b;
  }

  lemma HashIntoSnoc(h: map<string, string>, md5: string -> Option<string>, files: seq<string>, f: string)
    ensures var p := HashInto(h, md5, files);
      HashInto(h, md5, files + [f])
        == if p.1.Some? then p
           else match md5(f)
             case None => (p.0, Some(f))
             case Some(d) => (p.0[f := d], None)
  {
    assert (files + [f])[..|files|] == files;
  }

  /** `_process` as a function of the device path, the command log and the
      hash index, returning the trace of the run. */
  type Process = (string, seq<Cmd>, map<string, string>) -> Trace

  /** `_process` under the manager's configuration, environment and stamp. */
  function Processor(cfg: Config, env: Env, lastModified: Option<int>): (p: Process)
    ensures IsProcess(p, cfg, env, lastModified)
  {
    (device, log, h) => ProcessSpec(cfg, device, env, lastModified, log, h)
  }

  /** `process` computes `_process` under the configuration, environment
      and stamp given. */
  ghost predicate IsProcess(process: Process, cfg: Config, env: Env, lastModified: Option<int>) {
    forall device, log, h {:trigger ProcessSpec(cfg, device, env, lastModified, log, h)} ::
      process(device, log, h) == ProcessSpec(cfg, device, env, lastModified, log, h)
  }

  /** The state a worker's pass changes: the queue, the count of jobs not
      yet marked done, the command log and the hash index. */
  datatype WorkerVars = WorkerVars(queue: seq<Job>, unfinished: nat, log: seq<Cmd>, hashsums: map<string, string>)

  /** One pass of `_run`'s loop from the state `v`: exit when the flag is
      clear; idle on an empty queue; otherwise take the head job and run
      `_process` on its device path. A caught failure still marks the job
      done; a crash ends the worker without doing so. */
  function PassSpec(process: Process, running: bool, v: WorkerVars): (r: (Tick, WorkerVars))
    requires |v.queue| <= v.unfinished
    ensures |r.1.queue| <= r.1.unfinished
  {
    if !running then (Exit, v)
    else if v.queue == [] then (Idle, v)
    else
      var job := v.queue[0];
      var p := process(job.1, v.log, v.hashsums);
      if p.outcome == Crashed then (Died(job), WorkerVars(v.queue[1..], v.unfinished, p.log, p.hashsums))
      else (Handled(job, p.outcome), WorkerVars(v.queue[1..], v.unfinished - 1, p.log, p.hashsums))
  }

  /** At most `fuel` passes of `_run`'s loop from the state `v`, stopping
      after a pass that exits or dies: the passes and the final state. */
  function RunSpec(process: Process, running: bool, v: WorkerVars, fuel: nat)
    : (seq<Tick>, WorkerVars)
    requires |v.queue| <= v.unfinished
    decreases fuel
  {
    if fuel == 0 then ([], v)
    else
      var p := PassSpec(process, running, v);
      if p.0.Exit? || p.0.Died? then ([p.0], p.1)
      else
        var r := RunSpec(process, running, p.1, fuel - 1);
        ([p.0] + r.0, r.1)
  }

  /** The number of jobs marked done in `ticks`. */
  function HandledCount(ticks: seq<Tick>): nat {
    if ticks == [] then 0 else (if ticks[0].Handled? then 1 else 0) + HandledCount(ticks[1..])
  }

  /** One pass of `RunSpec`: a pass that neither exits nor dies is
      followed by the remaining passes. */
  lemma RunSpecUnfold(process: Process, running: bool, v: WorkerVars, fuel: nat)
    requires |v.queue| <= v.unfinished && fuel > 0
    ensures var p := PassSpec(process, running, v);
      var r := RunSpec(process, running, v, fuel);
      && (p.0.Exit? || p.0.Died? ==> r == ([p.0], p.1))
      && (!(p.0.Exit? || p.0.Died?) ==>
            var r' := RunSpec(process, running, p.1, fuel - 1);
            r.1 == r'.1 && r.0 == [p.0] + r'.0 && r.0[0] == p.0 && r.0[1..] == r'.0)
  {
  }

  /** The jobs are taken in FIFO order: the jobs of the passes are the head
      of the queue, and the queue left is the rest of it. */
  lemma {:induction false} RunSpecFifo(process: Process, running: bool, v: WorkerVars, fuel: nat)
    requires |v.queue| <= v.unfinished
    ensures var r := RunSpec(process, running, v, fuel);
      Served(v.queue, r.0, r.1.queue)
    decreases fuel
  {
    var r := RunSpec(process, running, v, fuel);
    if fuel == 0 {
      assert r.0 == [] && r.1 == v;
      assert v.queue[..0] == [] && v.queue[0..] == v.queue;
    } else {
      RunSpecUnfold(process, running, v, fuel);
      var p := PassSpec(process, running, v);
      var rest := if p.0.Exit? || p.0.Died? then ([], p.1) else RunSpec(process, running, p.1, fuel - 1);
      if p.0.Exit? || p.0.Died? {
        assert p.1.queue[..0] == [] && p.1.queue[0..] == p.1.queue;
        assert r.0 == [p.0] + [];
      } else {
        RunSpecFifo(process, running, p.1, fuel - 1);
      }
      assert Served(p.1.queue, rest.0, rest.1.queue) && r == ([p.0] + rest.0, rest.1);
      assert p.0.Handled? || p.0.Died? ==> v.queue != [] && p.0.job == v.queue[0] && p.1.queue == v.queue[1..];
      assert !(p.0.Handled? || p.0.Died?) ==> p.1.queue == v.queue;
      ServedCons(v.queue, p.0, rest.0, rest.1.queue);
    }
  }

  /** What a run of `fuel` passes from `v` amounts to, gathered from the
      lemmas below for `Run`. */
  lemma RunSpecFacts(process: Process, running: bool, v: WorkerVars, fuel: nat, ticks: seq<Tick>, v': WorkerVars)
    requires |v.queue| <= v.unfinished && (ticks, v') == RunSpec(process, running, v, fuel)
    ensures |ticks| == fuel || (ticks != [] && (ticks[|ticks| - 1].Exit? || ticks[|ticks| - 1].Died?))
    ensures forall j :: 0 <= j < |ticks| - 1 ==> ticks[j].Idle? || ticks[j].Handled?
    ensures running ==> forall j :: 0 <= j < |ticks| ==> !ticks[j].Exit?
    ensures !running ==> ticks == (if fuel == 0 then [] else [Exit]) && v' == v
    ensures v'.unfinished + HandledCount(ticks) == v.unfinished
    ensures running && |v.queue| <= fuel && (forall j :: 0 <= j < |ticks| ==> !ticks[j].Died?) ==>
              v'.queue == [] && HandledCount(ticks) >= |v.queue|
    ensures |Jobs(ticks)| <= |v.queue| && Jobs(ticks) == v.queue[..|Jobs(ticks)|]
    ensures v'.queue == v.queue[|Jobs(ticks)|..]
  {
    RunSpecFifo(process, running, v, fuel);
    RunSpecStops(process, running, v, fuel);
    RunSpecEarlier(process, running, v, fuel);
    RunSpecExit(process, running, v, fuel);
    RunSpecUnfinished(process, running, v, fuel);
    if running && |v.queue| <= fuel {
      RunSpecDrains(process, v, fuel);
    }
  }

  /** The first `k` passes from `v`, whether or not one of them exits or
      dies. */
  function PassesFrom(process: Process, running: bool, v: WorkerVars, k: nat): (r: (seq<Tick>, WorkerVars))
    requires |v.queue| <= v.unfinished
    ensures |r.1.queue| <= r.1.unfinished && |r.0| == k
  {
    if k == 0 then ([], v)
    else
      var s := PassesFrom(process, running, v, k - 1);
      var p := PassSpec(process, running, s.1);
      (s.0 + [p.0], p.1)
  }

  /** The first `k` passes are the first pass followed by `k - 1` more. */
  lemma {:induction false} PassesCons(process: Process, running: bool, v: WorkerVars, k: nat)
    requires |v.queue| <= v.unfinished && k > 0
    ensures var p := PassSpec(process, running, v);
      var r := PassesFrom(process, running, p.1, k - 1);
      PassesFrom(process, running, v, k) == ([p.0] + r.0, r.1)
  {
    var p := PassSpec(process, running, v);
    if k == 1 {
      assert [] + [p.0] == [p.0] + [];
    } else {
      PassesCons(process, running, v, k - 1);
      var a := PassesFrom(process, running, p.1, k - 2).0;
      var q := PassSpec(process, running, PassesFrom(process, running, p.1, k - 2).1);
      AppendAssoc([p.0], a, [q.0]);
    }
  }

  /** A run is its first passes up to the first that exits or dies, or
      all `fuel` of them when none does. */
  lemma {:induction false} RunSpecPasses(process: Process, running: bool, v: WorkerVars, fuel: nat, k: nat)
    requires |v.queue| <= v.unfinished && k <= fuel
    requires var ts := PassesFrom(process, running, v, k).0;
      && (forall j :: 0 <= j < k - 1 ==> !ts[j].Exit? && !ts[j].Died?)
      && (k == fuel || (k > 0 && (ts[k - 1].Exit? || ts[k - 1].Died?)))
    ensures RunSpec(process, running, v, fuel) == PassesFrom(process, running, v, k)
    decreases k
  {
    if k > 0 {
      var p := PassSpec(process, running, v);
      var r' := PassesFrom(process, running, p.1, k - 1);
      PassesCons(process, running, v, k);
      var ts := [p.0] + r'.0;
      assert ts[0] == p.0 && ts[1..] == r'.0;
      if p.0.Exit? || p.0.Died? {
        assert k == 1;
        assert r' == ([], p.1) && ts == [p.0];
      } else {
        RunSpecPasses(process, running, p.1, fuel - 1, k - 1);
      }
    }
  }

  /** The worker goes on: it takes all `fuel` passes unless one exits or
      dies, which is then the last. */
  lemma {:induction false} RunSpecStops(process: Process, running: bool, v: WorkerVars, fuel: nat)
    requires |v.queue| <= v.unfinished
    ensures var r := RunSpec(process, running, v, fuel).0;
      && |r| <= fuel
      && (|r| == fuel || (r != [] && (r[|r| - 1].Exit? || r[|r| - 1].Died?)))
    decreases fuel
  {
    if fuel > 0 {
      RunSpecUnfold(process, running, v, fuel);
      var p := PassSpec(process, running, v);
      if !(p.0.Exit? || p.0.Died?) {
        RunSpecStops(process, running, p.1, fuel - 1);
      }
    }
  }

  /** Only the last pass can exit or die: every earlier one idled or
      handled a job (a caught failure included). */
  lemma {:induction false} RunSpecEarlier(process: Process, running: bool, v: WorkerVars, fuel: nat)
    requires |v.queue| <= v.unfinished
    ensures var r := RunSpec(process, running, v, fuel).0;
      forall j :: 0 <= j < |r| - 1 ==> r[j].Idle? || r[j].Handled?
    decreases fuel
  {
    if fuel > 0 {
      RunSpecUnfold(process, running, v, fuel);
      var p := PassSpec(process, running, v);
      if !(p.0.Exit? || p.0.Died?) {
        RunSpecEarlier(process, running, p.1, fuel - 1);
        var r := RunSpec(process, running, v, fuel).0;
        assert forall j :: 1 <= j < |r| ==> r[j] == r[1..][j - 1];
      }
    }
  }

  /** A worker whose flag is set never exits; one whose flag is clear
      exits at its first check and changes nothing. */
  lemma {:induction false} RunSpecExit(process: Process, running: bool, v: WorkerVars, fuel: nat)
    requires |v.queue| <= v.unfinished
    ensures var r := RunSpec(process, running, v, fuel);
      && (running ==> forall j :: 0 <= j < |r.0| ==> !r.0[j].Exit?)
      && (!running ==> r == (if fuel == 0 then [] else [Exit], v))
    decreases fuel
  {
    if fuel > 0 {
      RunSpecUnfold(process, running, v, fuel);
      var p := PassSpec(process, running, v);
      if !(p.0.Exit? || p.0.Died?) {
        RunSpecExit(process, running, p.1, fuel - 1);
        var r := RunSpec(process, running, v, fuel).0;
        assert forall j :: 1 <= j < |r| ==> r[j] == r[1..][j - 1];
      }
    }
  }

  /** Every job handled, failed or not, is marked done: the unfinished
      count drops by the number of `Handled` passes, and by nothing else. */
  lemma {:induction false} RunSpecUnfinished(process: Process, running: bool, v: WorkerVars, fuel: nat)
    requires |v.queue| <= v.unfinished
    ensures var r := RunSpec(process, running, v, fuel);
      r.1.unfinished + HandledCount(r.0) == v.unfinished
    decreases fuel
  {
    if fuel > 0 {
      var p := PassSpec(process, running, v);
      RunSpecUnfold(process, running, v, fuel);
      if !(p.0.Exit? || p.0.Died?) {
        RunSpecUnfinished(process, running, p.1, fuel - 1);
      } else {
        assert [p.0][1..] == [];
      }
    }
  }

  /** A running worker with at least one pass per queued job that never
      dies handles every queued job and leaves the queue empty. */
  lemma {:induction false} RunSpecDrains(process: Process, v: WorkerVars, fuel: nat)
    requires |v.queue| <= v.unfinished && |v.queue| <= fuel
    ensures var r := RunSpec(process, true, v, fuel);
      (forall j :: 0 <= j < |r.0| ==> !r.0[j].Died?) ==>
        r.1.queue == [] && HandledCount(r.0) >= |v.queue|
    decreases fuel
  {
    if fuel > 0 {
      var p := PassSpec(process, true, v);
      RunSpecUnfold(process, true, v, fuel);
      if !p.0.Died? {
        assert !p.0.Exit?;
        assert |p.1.queue| <= fuel - 1;
        RunSpecDrains(process, p.1, fuel - 1);
        var r := RunSpec(process, true, v, fuel);
        var r' := RunSpec(process, true, p.1, fuel - 1);
        assert forall j :: 0 <= j < |r'.0| ==> r'.0[j] == r.0[j + 1];
        if forall j :: 0 <= j < |r.0| ==> !r.0[j].Died? {
          assert r'.1.queue == [];
          assert HandledCount(r.0) == (if p.0.Handled? then 1 else 0) + HandledCount(r'.0);
        }
      }
    }
  }

  /** The jobs a worker took, in order. */
  function Jobs(ticks: seq<Tick>): seq<Job> {
    if ticks == [] then []
    else (if ticks[0].Handled? || ticks[0].Died? then [ticks[0].job] else []) + Jobs(ticks[1..])
  }

  /** The jobs taken in `ticks` are the first ones of `q0`, and `queue` is
      what is left of it. */
  ghost predicate Served(q0: seq<Job>, ticks: seq<Tick>, queue: seq<Job>) {
    && |Jobs(ticks)| <= |q0|
    && Jobs(ticks) == q0[..|Jobs(ticks)|]
    && queue == q0[|Jobs(ticks)|..]
  }

  /** The jobs of a pass followed by more passes. */
  lemma JobsCons(t: Tick, ticks: seq<Tick>)
    ensures Jobs([t] + ticks) == (if t.Handled? || t.Died? then [t.job] else []) + Jobs(ticks)
  {
    assert ([t] + ticks)[1..] == ticks;
  }

  /** A first pass that takes the head job (or none) followed by passes
      that serve the rest in order serves the whole queue in order. */
  lemma ServedCons(q0: seq<Job>, t: Tick, ticks: seq<Tick>, q: seq<Job>)
    requires (t.Handled? || t.Died?) ==> q0 != [] && t.job == q0[0]
    requires Served(if t.Handled? || t.Died? then q0[1..] else q0, ticks, q)
    ensures Served(q0, [t] + ticks, q)
  {
    JobsCons(t, ticks);
    if t.Handled? || t.Died? {
      var k := |Jobs(ticks)|;
      assert q0[..k + 1] == [q0[0]] + q0[1..][..k];
      assert q0[k + 1..] == q0[1..][k..];
    }
  }
}
