/** `process_loop` of flasher/process.py: the device table of the station,
    the event window shared by successive `process_state` calls, and the
    `CallbackManager` that new devices are handed to.

    One pass of the `while True` loop is `Station.Pass`. The inotify events a
    call of `process_state` reads and the USB devices the enumerator lists
    are its parameters. */
module Station {
  import opened Util
  import opened Usb
  import opened OrderedMap
  import opened Monitor
  import opened Removal
  import Callbacks

  /** `deque(list(), maxlen=6)`. */
  const WINDOW: nat := 6

  /** The pairs of `d` in insertion order, as `d.items()` yields them. */
  function Items<K(!new), V>(keys: seq<K>, m: map<K, V>): (r: seq<(K, V)>)
    requires forall k :: k in keys ==> k in m
    ensures |r| == |keys|
    ensures forall j :: 0 <= j < |keys| ==> r[j] == (keys[j], m[keys[j]])
  {
    if keys == [] then [] else Items(keys[..|keys| - 1], m) + [(keys[|keys| - 1], m[keys[|keys| - 1]])]
  }

  /** The map holding the entries of `m` for the keys `keys`. */
  function Restrict<K(!new), V>(keys: seq<K>, m: map<K, V>): (r: map<K, V>)
    requires forall k :: k in keys ==> k in m
    ensures forall k :: k in r <==> k in keys
    ensures forall k :: k in r ==> r[k] == m[k]
  {
    map k | k in keys :: m[k]
  }

  lemma ItemsSnoc<K(!new), V>(q0: seq<(K, V)>, keys: seq<K>, j: nat, m: map<K, V>)
    requires j < |keys| && forall k :: k in keys ==> k in m
    ensures q0 + Items(keys[..j + 1], m) == q0 + Items(keys[..j], m) + [(keys[j], m[keys[j]])]
  {
    assert keys[..j + 1][..j] == keys[..j];
    var p := (keys[j], m[keys[j]]);
    assert Items(keys[..j + 1], m) == Items(keys[..j], m) + [p];
    assert q0 + (Items(keys[..j], m) + [p]) == q0 + Items(keys[..j], m) + [p];
  }

  /** The `j`-th of distinct keys is not yet among the first `j` entered,
      and entering it extends the restriction by one key. */
  lemma AddStep<K(!new), V>(c0: map<K, V>, keys: seq<K>, j: nat, m: map<K, V>)
    requires j < |keys| && forall k :: k in keys ==> k in m
    requires forall a, b :: 0 <= a < b < |keys| ==> keys[a] != keys[b]
    requires keys[j] !in c0
    ensures keys[j] !in c0 + Restrict(keys[..j], m)
    ensures (c0 + Restrict(keys[..j], m))[keys[j] := m[keys[j]]] == c0 + Restrict(keys[..j + 1], m)
    ensures keys[..j + 1] == keys[..j] + [keys[j]]
  {
    assert keys[..j + 1] == keys[..j] + [keys[j]];
    assert keys[j] !in keys[..j] by {
      forall i | 0 <= i < j ensures keys[i] != keys[j] { }
    }
  }

  lemma RestrictAll<K(!new), V>(d: Dict<K, V>)
    requires d.Valid()
    ensures d.keys[..|d.keys|] == d.keys
    ensures Restrict(d.keys[..|d.keys|], d.entries) == d.entries
  {
    assert d.keys[..|d.keys|] == d.keys;
  }

  lemma KeysSnoc<K>(k0: seq<K>, keys: seq<K>, j: nat)
    requires j < |keys|
    ensures k0 + keys[..j] + [keys[j]] == k0 + keys[..j + 1]
  {
    assert keys[..j + 1] == keys[..j] + [keys[j]];
  }

  class Station {
    /** The keys of `original_devices`: storage devices attached at start. */
    const orig: set<Identity>
    /** `current_devices`: identity to device path, in insertion order. */
    var current: Dict<Identity, string>
    const window: EventWindow
    const manager: Callbacks.CallbackManager

    /** The table is a valid dictionary and never tracks an original device;
        the window keeps its maximum length. */
    ghost predicate Valid()
      reads this, window, manager
    {
      && Tracking()
      && window.Valid() && window.maxlen == WINDOW
      && manager.Valid()
    }

    ghost predicate Tracking()
      reads this
    {
      && current.Valid()
      && (forall x :: x in current.entries ==> x !in orig)
    }

    /** The start of `process_loop`: the manager, the original devices
        (every storage device listed at start), an empty table and an
        empty window. */
    constructor (cfg: Callbacks.Config, attached: seq<Device>)
      ensures Valid()
      ensures orig == set x | x in StorageDevices(attached)
      ensures current == Empty() && window.tags == []
      ensures fresh(window) && fresh(manager)
      ensures manager.cfg == cfg && manager.queue == [] && manager.running
    {
      orig := set x | x in StorageDevices(attached);
      current := Empty();
      window := new EventWindow(WINDOW);
      manager := new Callbacks.CallbackManager(cfg);
    }

    /** One pass of the `while True` loop. `events` is what the inotify
        generator yields, `live` what the enumerator lists inside
        `process_state`, `now` what it lists for the removal sweep.

        When `process_state` reports devices, each is entered into the
        table and handed to the manager, in the order reported, and the pass
        ends. Otherwise the removal sweep runs over the table. */
    method Pass(events: seq<Event>, live: seq<Device>, now: seq<Device>)
      returns (found: Dict<Identity, string>, rest: seq<Event>, removed: seq<(Identity, string)>)
      requires Valid()
      modifies this, window, manager
      ensures Valid()
      ensures Detection(found, window.tags, rest)
              == Detect(WINDOW, old(window.tags), events, orig, old(current.entries).Keys, StorageDevices(live))
      ensures forall x :: x in found.entries ==>
                x in StorageDevices(live) && x !in orig && x !in old(current.entries)
      ensures !found.IsEmpty() ==> removed == [] && Added(old(current), old(manager.queue), old(manager.unfinished), found)
      ensures found.IsEmpty() ==>
                && Swept(old(current), StorageDevices(now), removed)
                && manager.queue == old(manager.queue) && manager.unfinished == old(manager.unfinished)
      ensures manager.WorkerState() == old(manager.WorkerState())
    {
      found, rest := Poll(events, live);
      removed := React(found, now);
    }

    /** The rest of a pass once `process_state` has answered `found`: enter
        and queue the new devices, or else sweep the table. */
    method React(found: Dict<Identity, string>, now: seq<Device>) returns (removed: seq<(Identity, string)>)
      requires Valid() && found.Valid()
      requires forall x :: x in found.entries ==> x !in orig && x !in current.entries
      modifies this, manager
      ensures Valid()
      ensures !found.IsEmpty() ==> removed == [] && Added(old(current), old(manager.queue), old(manager.unfinished), found)
      ensures found.IsEmpty() ==>
                && Swept(old(current), StorageDevices(now), removed)
                && manager.queue == old(manager.queue) && manager.unfinished == old(manager.unfinished)
      ensures manager.WorkerState() == old(manager.WorkerState())
    {
      removed := [];
      if !found.IsEmpty() {
        AddAll(found);
      } else {
        removed := Forget(now);
      }
    }

    /** The table and the queue after the devices of `found` were entered
        into the table `before` and queued behind `queue` (with `unfinished`
        jobs), in the order `process_state` reported them. */
    ghost predicate Added(before: Dict<Identity, string>, queue: seq<Callbacks.Job>, unfinished: nat,
                          found: Dict<Identity, string>)
      reads this, manager
      requires found.Valid()
    {
      && current.keys == before.keys + found.keys
      && current.entries == before.entries + found.entries
      && manager.queue == queue + Items(found.keys, found.entries)
      && manager.unfinished == unfinished + |found.keys|
    }

    /** The table and the report after the removal sweep of `before` against
        the listing `gen`. */
    ghost predicate Swept(before: Dict<Identity, string>, gen: seq<Identity>, removed: seq<(Identity, string)>)
      reads this
      requires before.Valid()
    {
      && (current, removed) == SweepFrom(before.keys, gen, before, [])
      && Firsts(removed) == SweepSpec(before.keys, gen)
      && current.entries == before.entries - Elements(SweepSpec(before.keys, gen))
    }

    /** `get_state(current_devices)`: one `process_state` call. */
    method Poll(events: seq<Event>, live: seq<Device>) returns (found: Dict<Identity, string>, rest: seq<Event>)
      requires Valid()
      modifies window
      ensures Valid()
      ensures Detection(found, window.tags, rest)
              == Detect(WINDOW, old(window.tags), events, orig, current.entries.Keys, StorageDevices(live))
      ensures found.Valid()
      ensures forall x :: x in found.entries ==>
                x in StorageDevices(live) && x !in orig && x !in current.entries
    {
      ghost var w0 := window.tags;
      found, rest := ProcessState(window, events, orig, current.entries.Keys, StorageDevices(live));
      DetectFoundEntries(WINDOW, w0, events, orig, current.entries.Keys, StorageDevices(live));
    }

    /** The removal sweep: every tracked device whose membership test fails
        against the one listing `now` is popped, in insertion order. */
    method Forget(now: seq<Device>) returns (removed: seq<(Identity, string)>)
      requires Valid()
      modifies this
      ensures Valid()
      ensures Swept(old(current), StorageDevices(now), removed)
    {
      current, removed := Sweep(current, StorageDevices(now));
    }

    /** `current_devices[device] = mount; manager.on_new_device(device,
        mount)` for one device that is neither tracked nor original. */
    method AddOne(d: Identity, mount: string)
      requires Valid() && d !in orig && d !in current.entries
      modifies this, manager
      ensures Valid()
      ensures current == old(current).Put(d, mount)
      ensures manager.queue == old(manager.queue) + [(d, mount)]
      ensures manager.unfinished == old(manager.unfinished) + 1
      ensures manager.WorkerState() == old(manager.WorkerState())
    {
      current := current.Put(d, mount);
      manager.OnNewDevice(d, mount);
    }

    /** `for device, mount in new_devices.items(): current_devices[device] =
        mount; manager.on_new_device(device, mount)`, for devices none of
        which is tracked or original. */
    method AddAll(found: Dict<Identity, string>)
      requires Valid() && found.Valid()
      requires forall x :: x in found.entries ==> x !in orig && x !in current.entries
      modifies this, manager
      ensures Valid()
      ensures Added(old(current), old(manager.queue), old(manager.unfinished), found)
      ensures manager.WorkerState() == old(manager.WorkerState())
    {
      var ks := found.keys;
      ghost var k0, c0, q0, u0, s0 := current.keys, current.entries, manager.queue, manager.unfinished, manager.WorkerState();
      for j := 0 to |ks|
        invariant Valid()
        invariant AddedFirst(found, j, k0, c0, q0, u0, s0)
      {
        AddNext(found, j, k0, c0, q0, u0, s0);
      }
      RestrictAll(found);
    }

    /** The table and the queue once the first `j` devices of `found` have
        been entered, starting from keys `k0`, entries `c0`, queue `q0` and
        `u0` unfinished jobs. */
    ghost predicate AddedFirst(found: Dict<Identity, string>, j: nat, k0: seq<Identity>, c0: map<Identity, string>,
                               q0: seq<Callbacks.Job>, u0: nat,
                               s0: (bool, Option<int>, map<string, string>, seq<Callbacks.Cmd>))
      reads this, manager
    {
      && FirstAdded(found, j, k0, c0, q0, u0, current, manager.queue, manager.unfinished)
      && manager.WorkerState() == s0
    }

    /** One pass of the loop of `AddAll`. */
    method AddNext(found: Dict<Identity, string>, j: nat, ghost k0: seq<Identity>, ghost c0: map<Identity, string>,
                   ghost q0: seq<Callbacks.Job>, ghost u0: nat,
                   ghost s0: (bool, Option<int>, map<string, string>, seq<Callbacks.Cmd>))
      requires Valid() && AddedFirst(found, j, k0, c0, q0, u0, s0) && j < |found.keys|
      requires forall x :: x in found.entries ==> x !in orig && x !in c0
      modifies this, manager
      ensures Valid() && AddedFirst(found, j + 1, k0, c0, q0, u0, s0)
    {
      var d := found.keys[j];
      var mount := found.entries[d];
      FirstAddedStep(found, j, k0, c0, q0, u0, current, manager.queue, manager.unfinished);
      AddOne(d, mount);
    }
  }

  /** The table `cur` and the queue `queue` (with `unfinished` jobs) once
      the first `j` devices of `found` have been entered, starting from keys
      `k0`, entries `c0`, queue `q0` and `u0` unfinished jobs. */
  ghost predicate FirstAdded(found: Dict<Identity, string>, j: nat, k0: seq<Identity>, c0: map<Identity, string>,
                             q0: seq<Callbacks.Job>, u0: nat,
                             cur: Dict<Identity, string>, queue: seq<Callbacks.Job>, unfinished: nat)
  {
    && found.Valid()
    && j <= |found.keys|
    && cur.keys == k0 + found.keys[..j]
    && cur.entries == c0 + Restrict(found.keys[..j], found.entries)
    && queue == q0 + Items(found.keys[..j], found.entries)
    && unfinished == u0 + j
  }

  /** Entering the next device of `found` and queueing it extends the
      entered prefix by one. */
  lemma FirstAddedStep(found: Dict<Identity, string>, j: nat, k0: seq<Identity>, c0: map<Identity, string>,
                       q0: seq<Callbacks.Job>, u0: nat,
                       cur: Dict<Identity, string>, queue: seq<Callbacks.Job>, unfinished: nat)
    requires FirstAdded(found, j, k0, c0, q0, u0, cur, queue, unfinished) && j < |found.keys|
    requires cur.Valid() && forall x :: x in found.entries ==> x !in c0
    ensures found.keys[j] !in cur.entries
    ensures var d := found.keys[j];
      FirstAdded(found, j + 1, k0, c0, q0, u0, cur.Put(d, found.entries[d]),
                 queue + [(d, found.entries[d])], unfinished + 1)
  {
    var ks := found.keys;
    AddStep(c0, ks, j, found.entries);
    KeysSnoc(k0, ks, j);
    ItemsSnoc(q0, ks, j, found.entries);
  }
}
