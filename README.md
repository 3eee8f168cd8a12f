# python-flashstation, modelled in Dafny

The flash station watches `/dev` for USB mass-storage sticks being plugged
in. It tells a new stick apart from the ones that were attached when it
started, hands each new stick to a pool of worker threads, and keeps a table
of the sticks it is tracking. A worker:

1. unmounts the partition if it is mounted;
2. wipes the start of the device;
3. writes a GPT table with one partition through `fdisk`;
4. formats the partition with the configured label (as ext4; the earlier `flasher.py` runs plain `mkfs` with no type);
5. mounts it and copies the clone paths onto it;
6. rehashes the clone paths;
7. unmounts, removes the mount point and ejects the stick.

When no new stick shows up, the station sweeps its table against the current
USB listing and forgets the sticks that are gone.

The model has eight modules:

- `Util` (util.dfy): `pipe`, `all_eq` and `dev_name` of `flasher/util.py`, with the `hex` fields of `dev_name` and their inverse.
- `OrderedMap` (ordered_map.dfy): the insertion-ordered Python `dict` the station uses (`d[k] = v`, `pop`, `update`).
- `Usb` (usb.dfy): `FindClass` and `usb_storage_devices`, over the descriptor tree as plain data.
- `Monitor` (monitor.dfy): the bounded event window (`deque(maxlen=…)`) and `process_state` (the `Detect` function and the `ProcessState` method).
- `Removal` (removal.dfy): the removal sweep of `process_loop`, shared by both stations. The sweep tests membership against a generator that is used only once, and the model keeps that behaviour.
- `Callbacks` (callbacks.dfy): `CallbackManager`:
  - its job queue and running flag;
  - `_process` as a plan of command steps plus one scan step;
  - `scan_clone_dirs` over a file-system snapshot;
  - the `_run` worker loop, specified pass by pass (`PassSpec`, `RunSpec`).
- `Station` (station.dfy): `process_loop`. Its table is a class, and each pass of the loop either enters and queues the new devices or sweeps.
- `Legacy` (legacy.dfy): the earlier single-file `flasher.py`:
  - the stripped password, which `sudo -S` also reads as the first `fdisk` line;
  - the copy script over `SRC_DIR`;
  - a window of 5;
  - `cur_devices.update` followed by one thread per new device.

Commands are values (`Cmd`). The outside world is a parameter `Env`, made of:

- an executor that answers whether the n-th issued command succeeds;
- a snapshot of the file system (path kinds, `os.walk` trees, mtimes, `md5sum` results).

## Model

| member | source | states |
|---|---|---|
| Util.Pipe | flasher/util.py:4-5 | one output line per input line |
| Util.PipeLines | flasher/util.py:4-5 | line i of `pipe` is input line i followed by exactly one newline |
| Util.AllEq | flasher/util.py:8-12 | true exactly when every element equals the value (vacuously true on an empty sequence) |
| Util.HexDigitsShape | flasher/util.py:15-16 | `hex` digits are hexadecimal digits with no leading zero except for 0 itself |
| Util.HexRoundTrip | flasher/util.py:15-16 | reading back `hex(n)` gives n for every integer, negative ones included, and `hex(n)` never contains '_' |
| Util.NegativeHexRoundTrip | flasher/util.py:15-16 | the round trip of `hex` for negative integers ("-0x…") |
| Util.UnsignedHexRoundTrip | flasher/util.py:15-16 | "0x" plus the digits of n reads back as n |
| Util.ParseHexDigits | flasher/util.py:15-16 | the digit string of n reads back as n |
| Util.HexFieldsAt | flasher/util.py:15-16 | field i of `map(hex, tup)` is `hex(tup[i])` |
| Util.SplitJoin | flasher/util.py:15-16 | splitting a '_'-join of fields that contain no '_' gives back the fields |
| Util.CountJoin | flasher/util.py:15-16 | a '_'-join of n separator-free fields holds n - 1 separators |
| Util.ParseHexFields | flasher/util.py:15-16 | reading every `hex` field back gives the original tuple |
| Util.DevNameRoundTrip | flasher/util.py:15-16 | `dev_name` of an n-tuple has n - 1 underscores, splits into n fields, and reads back as the tuple (so distinct identities get distinct thread names) |
| Util.PathJoinShape | flasher/callbacks.py:67 | `os.path.join(a, b)` is b when b is absolute; otherwise it starts with a, ends with b, and has at most one separator between them |
| OrderedMap.Dict.Put | flasher/process.py:141 | `d[k] = v` sets the entry; a new key goes to the end of the key order and an old key keeps its place |
| OrderedMap.Dict.Pop | flasher/process.py:150 | `pop` removes exactly that key from the entries and from the key order; the other keys keep their relative order (the key order is the old one with that one position cut out) |
| OrderedMap.Dict.Update | flasher.py:192 | `update` gives the union of the entries with the other dict's values winning; the key order is the old one followed by the other dict's new keys in the other dict's order |
| OrderedMap.Empty | flasher/process.py:121 | `{}`: a valid, empty dict |
| Usb.HasInterfaceClass | flasher/process.py:50 | `find_descriptor(cfg, bInterfaceClass=c)` is not None exactly when some interface has class c |
| Usb.AnyConfigurationHas | flasher/process.py:49-52 | some configuration has an interface of class c |
| Usb.FindClass | flasher/process.py:46-53 | a device matches exactly when its own class is c or some interface of some configuration has class c |
| Usb.StorageDevices | flasher/process.py:56-59 | the identities listed are exactly those of the attached devices that match mass storage (class 8); there are no more of them than devices |
| Monitor.StorageDevReAccepts | flasher.py:27 | `re.match('sd\w$')` accepts exactly "sd" plus one word character, optionally followed by a single newline |
| Monitor.StorageDevReExamples | flasher.py:27 | accepts "sda", "sdz" and "sda\n"; rejects "sda1", "hda", "sd" and "xsda" |
| Monitor.Bounded | flasher/process.py:127 | the deque holds min(len, maxlen) elements |
| Monitor.BoundedSuffix | flasher/process.py:127 | the bounded deque is a suffix of everything appended |
| Monitor.BoundedConcat | flasher/process.py:127 | appending to a bounded deque equals bounding the whole history |
| Monitor.EventWindow.Append | flasher/process.py:72 | `deque.append`: the new window is the last maxlen tags of the old window plus the tag |
| Monitor.EventWindow.AppendAll | flasher/process.py:71-72 | appending the tags one by one keeps the last maxlen tags of old window + tags |
| Monitor.CollectEntries | flasher/process.py:76-85 | the scan enters exactly the listed identities that are neither original nor current, each mapped to the event's device path |
| Monitor.CollectNew | flasher/process.py:76-85 | the scan loop computes that collection, and `breakout` is set exactly when it is non-empty |
| Monitor.StepFoundFacts | flasher/process.py:69-85 | one event finds something only when its name matches and the window after its tags is all IN_ACCESS |
| Monitor.HandleEvent | flasher/process.py:67-88 | one event: a matching name appends its tags to the window; the result and the break decision are those of the specification |
| Monitor.Detect | flasher/process.py:63-89 | the result is a valid dict; the unconsumed events are a suffix of the stream; an empty result consumes the whole stream; a non-empty one stops early |
| Monitor.ProcessState | flasher/process.py:63-89 | the method's result, window and unconsumed events equal those of `Detect` over the old window |
| Monitor.DetectIgnoresOtherNames | flasher/process.py:69-70 | events whose file name does not match change neither the result nor the window |
| Monitor.DetectWindow | flasher/process.py:71-72 | the window left behind is the bounded old window plus every tag of the matching events consumed |
| Monitor.DetectFoundEvent | flasher/process.py:69-85 | a non-empty result comes from the last consumed event; that event's name matches and its window is all IN_ACCESS |
| Monitor.DetectFoundEntries | flasher/process.py:76-85 | a non-empty result holds exactly the listed identities that are not original and not current, mapped to that event's path |
| Monitor.CollectEmpty | flasher/process.py:76-85 | the scan finds nothing exactly when every listed identity is original or current |
| Monitor.DetectFirst | flasher/process.py:86-88 | the call stops at the FIRST matching event whose window is all IN_ACCESS while a new candidate exists; no earlier matching event had an all-IN_ACCESS window |
| Monitor.DetectFinds | flasher/process.py:75-88 | the converse of `DetectFirst`: a matching event whose window is all IN_ACCESS while a new candidate is listed forces a non-empty result, found at that event or earlier |
| Monitor.DetectBeforeWindowFull | flasher/process.py:75 | `all_eq` does not wait for a full window: a matching event with no tags, on an empty window, already reports a new device |
| Removal.Consume | flasher/process.py:148 | `x in gen` is true exactly when x is listed, and it consumes the generator up to and including x, or all of it |
| Removal.Sweep | flasher/process.py:145-152 | the table after the sweep and the removal report: the reported identities are those of the specification in key order, each with the path it had, and the table loses exactly them |
| Removal.SweepFromReport | flasher/process.py:147-150 | the reported identities are the earlier ones followed by those of the specification |
| Removal.SweepFromPairs | flasher/process.py:150 | every reported pair carries the path the table held for that identity |
| Removal.SweepFromEntries | flasher/process.py:147-150 | the table keeps exactly the identities the specification does not report |
| Removal.SweepExhausted | flasher/process.py:145-148 | against an exhausted generator, every tracked identity is reported |
| Removal.SweepReports | flasher/process.py:147-148 | only tracked identities are reported, and every tracked identity missing from the listing is reported |
| Removal.SweepCascade | flasher/process.py:145-148 | once one tracked identity is missing, it and every identity tracked after it are reported removed |
| Removal.ConsumeListed | flasher/process.py:148 | the keys occur in order in the generator exactly when the first is listed and the rest occur in what its membership test left |
| Removal.SweepNothingIffInOrder | flasher/process.py:145-152 | nothing is reported exactly when the tracked identities occur in the listing in insertion order |
| Removal.SweepReportsAttachedDevice | flasher/process.py:145-152 | two tracked devices, both attached but listed in the opposite order: the later one is reported removed although it is attached |
| Callbacks.Partition | flasher/callbacks.py:91 | `'%s1' % device` is the device path followed by '1' |
| Callbacks.CopiesAt | flasher/callbacks.py:135-136 | copy step i is `sudo cp -r` of clone path i onto the mount point |
| Callbacks.PlanShape | flasher/callbacks.py:88-146 | the plan has 13 steps plus the optional unmount and one copy per clone path; its only scan comes fourth from the end, over the clone paths; the three clean-up commands end it |
| Callbacks.SetupCommands | flasher/callbacks.py:96-137 | every step before the scan is a command |
| Callbacks.FdiskInput | flasher/callbacks.py:109-118 | the `fdisk` input is the seven answers g, n, 1, three defaults and w, each on its own line |
| Callbacks.JoinAll | flasher/callbacks.py:66-67 | one joined path per file name, in order |
| Callbacks.MtimeSum | flasher/callbacks.py:52 | the stamp is undefined (`os.stat` raises) exactly when some clone path is missing |
| Callbacks.RunPrefix | flasher/callbacks.py:88-146 | the commands issued are a prefix of the plan's commands, issued in plan order after the earlier log |
| Callbacks.RunCompleted | flasher/callbacks.py:88-146 | a run that completes has issued every command of the plan |
| Callbacks.RunFailed | flasher/callbacks.py:81-84 | a run that ends with a failure issued that command last, and the executor failed it |
| Callbacks.RunSucceeded | flasher/callbacks.py:88-146 | every command the run issued succeeded, except the last one of a failed run |
| Callbacks.RunAppend | flasher/callbacks.py:88-146 | running a + b runs a, then runs b only if a completed |
| Callbacks.ProcessCleanupLast | flasher/callbacks.py:142-145 | the clean-up commands run only after every earlier command succeeded and the scan finished; otherwise the run ends where the first failure happened |
| Callbacks.HashIntoKeeps | flasher/callbacks.py:58-68 | hashing never removes an entry, and leaves alone the entries for files it did not hash |
| Callbacks.HashIntoDigests | flasher/callbacks.py:60-68 | a scan that finishes stores the `md5sum` digest of every file it visited |
| Callbacks.ScanAlwaysRehashes | flasher/callbacks.py:52-56 | the stamp is never stored, so the early return never fires: every scan that does not crash rehashes all files, and a missing clone path crashes it |
| Callbacks.PathFilesKinds | flasher/callbacks.py:58-65 | a regular file is hashed itself, a directory contributes every file its walk lists, and anything else is skipped |
| Callbacks.JoinAllMembers | flasher/callbacks.py:66-67 | the joined paths are exactly the root joined with each listed file |
| Callbacks.WalkFilesMembers | flasher/callbacks.py:65-68 | the files of a walk are exactly the listed files of its triples |
| Callbacks.HashIntoAppend | flasher/callbacks.py:58-68 | hashing a + b hashes a, then hashes b only if a did not fail |
| Callbacks.HashIntoStops | flasher/callbacks.py:60 | after a failing `md5sum`, hashing further files changes nothing |
| Callbacks.RunSpecStops | flasher/callbacks.py:71-86 | the worker loop keeps going: it takes all `fuel` passes unless one exits or dies, and that one is the last |
| Callbacks.RunSpecEarlier | flasher/callbacks.py:72-85 | every pass before the last one idles or handles a job, a caught failure included |
| Callbacks.RunSpecExit | flasher/callbacks.py:72-74 | while the flag is set no pass exits; with the flag clear the first pass exits and nothing changes |
| Callbacks.RunSpecUnfinished | flasher/callbacks.py:78-85 | `task_done` is called once per handled job: the unfinished count drops by exactly the number of handled passes, and a crashed job stays unfinished |
| Callbacks.RunSpecDrains | flasher/callbacks.py:71-85 | a running worker given at least one pass per queued job that never crashes empties the queue and handles at least every queued job |
| Callbacks.RunSpecFifo | flasher/callbacks.py:76 | jobs are taken in FIFO order: the jobs of the passes are the head of the queue and the queue left is the rest of it |
| Callbacks.RunSpecPasses | flasher/callbacks.py:71-85 | a run is its passes up to the first that exits or dies, or all `fuel` of them when none does |
| Callbacks.CallbackManager.constructor | flasher/callbacks.py:29-42 | empty queue, flag set, no stamp, empty hash index, nothing issued |
| Callbacks.CallbackManager.Stop | flasher/callbacks.py:44-46 | clears the running flag and changes nothing else |
| Callbacks.CallbackManager.OnNewDevice | flasher/callbacks.py:148-152 | the job goes to the tail of the queue and counts as unfinished |
| Callbacks.CallbackManager.Process | flasher/callbacks.py:88-146 | the issued commands, the hash index and the outcome are those of the specification: the mount probe, then the plan it selects |
| Callbacks.CallbackManager.RunPlan | flasher/callbacks.py:95-146 | running the plan step by step equals the specification's run from the current state |
| Callbacks.CallbackManager.WorkerStep | flasher/callbacks.py:72-85 | one pass of the loop is the pass `PassSpec` describes: a cleared flag exits and changes nothing; an empty queue (the `get` timeout) idles and changes nothing; otherwise the head job leaves the queue and `_process` runs on its device path; a caught failure still marks it done, and a crash ends the worker without marking it done |
| Callbacks.CallbackManager.Run | flasher/callbacks.py:71-86 | the passes and the final queue, count, log and hash index are those of `RunSpec`: the worker takes all `fuel` passes unless one exits or dies, which is then the last; earlier passes idle or handle a job; a set flag never exits and a cleared one exits at once changing nothing; the unfinished count drops by one per handled job; jobs are taken in FIFO order; with a pass per queued job and no crash, the queue is drained |
| Callbacks.CallbackManager.Passes | flasher/callbacks.py:71-85 | the `while True` loop runs the passes of `RunSpec`: one pass after another until the fuel runs out or one exits or dies |
| Callbacks.CallbackManager.ScanCloneDirs | flasher/callbacks.py:48-69 | the hash index and the scan result equal the specification: a crash on a missing path, a return on an unchanged stamp, otherwise hashing every file in order |
| Callbacks.CallbackManager.HashPaths | flasher/callbacks.py:58-68 | the loop over the clone paths hashes exactly the scan's file list in order, stopping at a failing `md5sum` |
| Callbacks.CallbackManager.HashPath | flasher/callbacks.py:59-68 | one clone path: the file itself, the files of its walk, or nothing |
| Callbacks.CallbackManager.HashTree | flasher/callbacks.py:65-68 | the walk loop hashes the walk's files in order |
| Callbacks.CallbackManager.HashDir | flasher/callbacks.py:66-68 | the inner loop hashes each joined file in order |
| Station.Items | flasher/process.py:139 | `d.items()` yields key j with its value, for each key in insertion order |
| Station.Station.constructor | flasher/process.py:113-130 | the original devices are exactly the storage devices attached at start; empty table, empty window, a fresh manager with an empty queue |
| Station.Station.Pass | flasher/process.py:134-152 | `process_state` as specified; on a hit, the new devices are entered and queued in reported order and nothing is swept; on a miss, the table is swept as specified and nothing is queued; the workers' state is untouched |
| Station.Station.React | flasher/process.py:137-152 | adds and queues the found devices, or else sweeps the table |
| Station.Station.Poll | flasher/process.py:135 | the `process_state` result is never an original or tracked device, and it is listed |
| Station.Station.Forget | flasher/process.py:145-152 | the table and the report after the sweep against the fresh listing are those of the specification |
| Station.Station.AddOne | flasher/process.py:141-142 | the device is entered at the end of the table and its job at the tail of the queue |
| Station.Station.AddAll | flasher/process.py:139-142 | the table gains the found keys in order, and the queue gains `found.items()` in order |
| Station.Station.AddNext | flasher/process.py:139-142 | one more device of `found` is entered and queued |
| Station.FirstAddedStep | flasher/process.py:139-142 | entering and queueing the next found device extends the table and the queue by exactly that device |
| Legacy.TrimLeftShape | flasher.py:34 | `lstrip` is the suffix left after removing exactly the leading white space |
| Legacy.TrimRightShape | flasher.py:34 | `rstrip` is the prefix left after removing exactly the trailing white space |
| Legacy.StripTrims | flasher.py:34 | the stripped password has no white space at either end, and it is a slice of the raw one with only white space cut off |
| Legacy.LegacyPlanShape | flasher.py:115-161 | 13 commands plus the optional unmount, with no scan; they work on partition device + "1"; the format step is `sudo mkfs -L` with no file-system type; the last three unmount, remove the mount point and eject |
| Legacy.CopyShape | flasher.py:129-155 | the wipe-to-copy part has ten commands, and its sixth is `sudo mkfs -L LABEL` on the partition (flasher.py:149) |
| Legacy.LegacyFdiskInput | flasher.py:134-144 | the first `fdisk` line is the stripped password plus a newline; the rest are the seven answers |
| Legacy.RunCommands | flasher.py:115-161 | a run of commands only completes or fails, and leaves the hash index alone |
| Legacy.CommandRun | flasher.py:115-161 | a run of commands issues them in order; it completes with all succeeded, or fails at the first failing one |
| Legacy.LegacyOutcome | flasher.py:115-161 | a `_run` thread issues the probe, then the selected script's commands in order, until the first failure |
| Legacy.RunScript | flasher.py:115-161 | the method's issued commands and outcome are those of the specification |
| Legacy.LaunchNamesIdentity | flasher.py:163-167 | a thread's name reads back as the device identity, has three underscores, and the thread works on the mount path |
| Legacy.LaunchesAt | flasher.py:193-194 | thread j is launched for the j-th new device with its mount path |
| Legacy.LegacyStation.constructor | flasher.py:175-186 | the original devices are the storage devices attached at start; empty table, window and thread list |
| Legacy.LegacyStation.Pass | flasher.py:188-203 | `process_state` with window 5 as specified; on a hit, merge (the table's key order gains the found keys at its end) and then one thread per new device in order; on a miss, the sweep as specified with no thread started |
| Legacy.LegacyStation.React | flasher.py:191-203 | merges (the found keys go to the end of the key order) and launches, or sweeps |
| Legacy.LegacyStation.Merge | flasher.py:192 | `cur_devices.update(new_devices)`: the entries are the union, the key order is the old one followed by the found keys in their order, and no thread is started |
| Legacy.LegacyStation.LaunchAll | flasher.py:193-194 | the thread list grows by exactly one launch per found device, in insertion order |

## Left out

- inotify, pyusb, the `sh` commands, threads, `time.sleep`, logging, and `ensure_root` / the `sudo` password prompt of `flasher/process.py:21-37`.
  - Events, USB listings, command results and file-system snapshots are parameters.
  - Commands are issued as values into a log, and the executor decides whether each one succeeds.
- flasher/constants.py is not part of this model. `STORAGE_DEV_RE` and `MASS_STORAGE` are taken from their definitions in flasher.py (`sd\w$`, 0x8).
- flasher/__main__.py (argument parsing) is not part of this model. `process_loop`'s arguments are a `Config` value, and `exclude` is not used by the core.
- Monitor.ProcessState: `process_state` calls `usb_storage_devices()` again for every event. The model uses one listing (`live`) for the whole call.
- Monitor.DetectFirst: its clause "no earlier matching event had an all-IN_ACCESS window" holds only under that single listing. In the source, flasher/process.py:76 lists again for each such event, so an earlier all-IN_ACCESS event whose own listing held no new device lets the loop go on, and the source does not promise this clause.
- Monitor.StorageDevRe: `\w` is ASCII letters, digits and '_'. Python 3 also accepts other Unicode word characters.
- Legacy.Strip: white space is the ASCII part of what `str.strip()` removes (space, \t, \n, \v, \f, \r and the separators 0x1C-0x1F). `str.strip()` also removes the non-ASCII Unicode white space (0x85, 0xA0 and others), which the model does not.
- Callbacks.MtimeSum: `st_mtime` is a float. The model sums integer stamps, so float rounding in the comparison is not modelled.
- Callbacks.TmpMount: `hex(abs(hash(device)))` depends on Python's per-process string hash, so the mount-point name is a parameter function `mountName`.
- Callbacks.CallbackManager.Run: the loop never ends while the flag is set, so the model runs at most `fuel` passes. The one-second `get` timeout is an `Idle` pass. The workers are interleaved by the caller, one pass at a time, rather than running concurrently.
- Legacy.LegacyStation.LaunchAll: the threads are recorded as launched, and their concurrent execution is not modelled. One thread's run is `Legacy.LegacyOutcome` / `Legacy.RunScript`.
- `on_removed_device` (flasher/callbacks.py:154-155, flasher.py:170-171) only logs. The sweep's report of removed pairs stands for its calls.
- Exceptions other than `ErrorReturnCode` are modelled only for `os.stat` on a missing clone path, where the worker dies without `task_done`.
- The `md5sum` calls of the scan are not entered in the command log. Their results come from the file-system snapshot, and a failing one ends `_process` as the caught error `Md5Failed`.
- Legacy.LegacyCopy: flasher.py:149 runs `sudo.mkfs` with no `-t`, so `mkfs` picks its own default type (ext2 on Linux). The model records only the command, not the file system it makes.
- `flasher/callbacks.py:102` runs the program `unmount`. It is kept as written, while flasher.py uses `umount`.
