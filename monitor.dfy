/** The device monitor of flasher/process.py: `process_state`, the hotplug
    detection step over inotify events. The same definitions model the
    earlier revision in flasher.py, whose window holds 5 tags instead of 6. */
module Monitor {
  import opened Util
  import opened OrderedMap
  import opened Usb

  /** One inotify event: its type tags, the watched directory and the name
      of the file inside it. */
  datatype Event = Event(types: seq<string>, path: string, file: string)

  const IN_ACCESS: string := "IN_ACCESS"

  // ---------------------------------------------------------------------------
  // STORAGE_DEV_RE = re.compile('sd\w$'), used with re.match

  /** ASCII word characters (Python's `\w` also takes other Unicode letters
      and digits, which never occur in device-node names). */
  predicate IsWordChar(c: char) {
    'a' <= c <= 'z' || 'A' <= c <= 'Z' || '0' <= c <= '9' || c == '_'
  }

  /** `STORAGE_DEV_RE.match(name)`: 's', 'd', one word character, then `$`,
      which matches at the end or just before a final newline. */
  predicate StorageDevRe(name: string) {
    && |name| >= 3
    && name[0] == 's' && name[1] == 'd' && IsWordChar(name[2])
    && (|name| == 3 || (|name| == 4 && name[3] == '\n'))
  }

  /** The names the pattern accepts: "sd" and one word character, with at
      most a trailing newline after it. */
  lemma StorageDevReAccepts(name: string)
    ensures StorageDevRe(name) <==>
              exists c :: IsWordChar(c) && (name == ['s', 'd', c] || name == ['s', 'd', c, '\n'])
  {
    if StorageDevRe(name) {
      assert name == ['s', 'd', name[2]] || name == ['s', 'd', name[2], '\n'];
    }
  }

  lemma StorageDevReExamples()
    ensures StorageDevRe("sda") && StorageDevRe("sdz") && StorageDevRe("sda\n")
    ensures !StorageDevRe("sda1") && !StorageDevRe("hda") && !StorageDevRe("sd") && !StorageDevRe("xsda")
  {
  }

  // ---------------------------------------------------------------------------
  // The event window: deque(maxlen=...)

  /** The most recent `n` elements of `s` (all of `s` when it is shorter). */
  function Bounded(s: seq<string>, n: nat): (r: seq<string>)
    ensures |r| == if |s| <= n then |s| else n
  {
    if |s| <= n then s else s[|s| - n..]
  }

  /** The bounded sequence is a suffix of the whole. */
  lemma BoundedSuffix(s: seq<string>, n: nat)
    ensures Bounded(s, n) == s[|s| - |Bounded(s, n)|..]
  {
  }

  lemma BoundedConcat(s: seq<string>, t: seq<string>, n: nat)
    ensures Bounded(Bounded(s, n) + t, n) == Bounded(s + t, n)
  {
    var b := Bounded(s, n);
    BoundedSuffix(s, n);
    assert b + t == (s + t)[|s| - |b|..];
  }

  /** Appending the tags one at a time keeps the most recent `n` of all of
      them. */
  lemma BoundedSnoc(w: seq<string>, ts: seq<string>, j: nat, n: nat)
    requires j < |ts|
    ensures Bounded(Bounded(w + ts[..j], n) + [ts[j]], n) == Bounded(w + ts[..j + 1], n)
  {
    BoundedConcat(w + ts[..j], [ts[j]], n);
    assert ts[..j] + [ts[j]] == ts[..j + 1];
    assert w + ts[..j] + [ts[j]] == w + (ts[..j] + [ts[j]]);
  }

  predicate AllAccess(w: seq<string>) {
    forall i :: 0 <= i < |w| ==> w[i] == IN_ACCESS
  }

  /** `last_events`: a deque with a maximum length, shared by successive
      calls of `process_state`. */
  class EventWindow {
    const maxlen: nat
    var tags: seq<string>

    ghost predicate Valid()
      reads this
    {
      |tags| <= maxlen
    }

    constructor (maxlen: nat)
      ensures Valid() && this.maxlen == maxlen && tags == []
    {
      this.maxlen := maxlen;
      tags := [];
    }

    /** `deque.append`: a full deque drops its oldest tag. */
    method Append(tag: string)
      requires Valid()
      modifies this
      ensures Valid()
      ensures tags == Bounded(old(tags) + [tag], maxlen)
    {
      tags := tags + [tag];
      if |tags| > maxlen {
        tags := tags[1..];
      }
    }

    /** `for type_ in types: last_events.append(type_)`. */
    method AppendAll(ts: seq<string>)
      requires Valid()
      modifies this
      ensures Valid()
      ensures tags == Bounded(old(tags) + ts, maxlen)
    {
      ghost var w0 := tags;
      for j := 0 to |ts|
        invariant Valid()
        invariant tags == Bounded(w0 + ts[..j], maxlen)
      {
        Append(ts[j]);
        BoundedSnoc(w0, ts, j, maxlen);
      }
      assert ts[..|ts|] == ts;
    }
  }

  // ---------------------------------------------------------------------------
  // process_state

  /** The entries `process_state` writes into `new_devices` for one event:
      every live identity that is neither original nor tracked, in
      enumeration order, mapped to the event's device path. */
  function Collect(live: seq<Identity>, orig: set<Identity>, cur: set<Identity>, where: string)
    : (r: Dict<Identity, string>)
    ensures r.Valid()
    decreases |live|
  {
    if live == [] then Empty()
    else
      var d := Collect(live[..|live| - 1], orig, cur, where);
      var x := live[|live| - 1];
      if x in orig || x in cur then d else d.Put(x, where)
  }

  /** `Collect` enters exactly the live identities that are neither original
      nor tracked, each with the device path `where`. */
  lemma {:induction false} CollectEntries(live: seq<Identity>, orig: set<Identity>, cur: set<Identity>, where: string)
    ensures var r := Collect(live, orig, cur, where);
      && (forall x :: x in r.entries <==> x in live && x !in orig && x !in cur)
      && (forall x :: x in r.entries ==> r.entries[x] == where)
    decreases |live|
  {
    if live != [] {
      CollectEntries(live[..|live| - 1], orig, cur, where);
      var x := live[|live| - 1];
      assert forall y :: y in live <==> y in live[..|live| - 1] || y == x;
    }
  }

  /** `a` is what is left of `b` after some of its first elements. */
  predicate SuffixOf<T(==)>(a: seq<T>, b: seq<T>) {
    |a| <= |b| && a == b[|b| - |a|..]
  }

  /** What a call of `process_state` returns (`found`), the window it leaves
      behind and the events it has not consumed. */
  datatype Detection = Detection(found: Dict<Identity, string>, window: seq<string>, rest: seq<Event>)

  /** The window after one event: a matching event appends its tags. */
  function StepWindow(maxlen: nat, window: seq<string>, e: Event): seq<string> {
    if StorageDevRe(e.file) then Bounded(window + e.types, maxlen) else window
  }

  /** What one event triggers: when its name matches and the window it
      leaves is all `IN_ACCESS`, the live identities that are neither
      original nor tracked, mapped to the event's device path. */
  function StepFound(maxlen: nat, window: seq<string>, e: Event,
                     orig: set<Identity>, cur: set<Identity>, live: seq<Identity>): (r: Dict<Identity, string>)
    ensures r.Valid()
  {
    if StorageDevRe(e.file) && AllAccess(StepWindow(maxlen, window, e))
    then Collect(live, orig, cur, PathJoin(e.path, e.file))
    else Empty()
  }

  /** A non-empty step result comes from a matching event that left an
      all-`IN_ACCESS` window, and holds exactly the candidates, each mapped
      to the event's device path. */
  lemma StepFoundFacts(maxlen: nat, window: seq<string>, e: Event,
                       orig: set<Identity>, cur: set<Identity>, live: seq<Identity>)
    ensures var r := StepFound(maxlen, window, e, orig, cur, live);
      !r.IsEmpty() ==>
        && StorageDevRe(e.file) && AllAccess(StepWindow(maxlen, window, e))
        && (forall x :: x in r.entries <==> x in live && x !in orig && x !in cur)
        && (forall x :: x in r.entries ==> r.entries[x] == PathJoin(e.path, e.file))
  {
    CollectEntries(live, orig, cur, PathJoin(e.path, e.file));
  }

  /** The scan of `usb_storage_devices()` inside `process_state`: every
      live identity that is neither original nor tracked is entered with the
      device path `where`; `breakout` is set when one was. */
  method CollectNew(live: seq<Identity>, orig: set<Identity>, cur: set<Identity>, where: string)
    returns (found: Dict<Identity, string>, breakout: bool)
    ensures found == Collect(live, orig, cur, where)
    ensures breakout <==> !found.IsEmpty()
  {
    found := Empty();
    breakout := false;
    for k := 0 to |live|
      invariant found == Collect(live[..k], orig, cur, where)
      invariant breakout <==> !found.IsEmpty()
    {
      var d := live[k];
      CollectStep(live, k, orig, cur, where);
      if d !in orig && d !in cur {
        found := found.Put(d, where);
        breakout := true;
      }
    }
    assert live[..|live|] == live;
  }

  lemma CollectStep(live: seq<Identity>, k: nat, orig: set<Identity>, cur: set<Identity>, where: string)
    requires k < |live|
    ensures var d := Collect(live[..k], orig, cur, where);
      Collect(live[..k + 1], orig, cur, where)
        == if live[k] in orig || live[k] in cur then d else d.Put(live[k], where)
    ensures !Collect(live[..k], orig, cur, where).IsEmpty() ==> !Collect(live[..k + 1], orig, cur, where).IsEmpty()
  {
    assert live[..k + 1][..k] == live[..k];
    assert live[..k + 1][k] == live[k];
  }

  /** Specification of `process_state` over a finite event stream, with the
      enumerator's answer `live` fixed for the duration of the call. The
      events not consumed are a suffix of the stream, and the call only
      returns early with a non-empty result. */
  function Detect(maxlen: nat, window: seq<string>, events: seq<Event>,
                  orig: set<Identity>, cur: set<Identity>, live: seq<Identity>): (r: Detection)
    ensures r.found.Valid()
    ensures SuffixOf(r.rest, events)
    ensures r.found.IsEmpty() ==> r.rest == []
    ensures !r.found.IsEmpty() ==> |r.rest| < |events|
    decreases |events|
  {
    if events == [] then Detection(Empty(), window, [])
    else
      var w := StepWindow(maxlen, window, events[0]);
      var found := StepFound(maxlen, window, events[0], orig, cur, live);
      if !found.IsEmpty() then Detection(found, w, events[1..])
      else
        var r := Detect(maxlen, w, events[1..], orig, cur, live);
        assert events[1..][|events| - 1 - |r.rest|..] == events[|events| - |r.rest|..];
        r
  }

  lemma DetectHead(maxlen: nat, w: seq<string>, events: seq<Event>,
                   orig: set<Identity>, cur: set<Identity>, live: seq<Identity>)
    requires events != []
    ensures var f := StepFound(maxlen, w, events[0], orig, cur, live);
      Detect(maxlen, w, events, orig, cur, live)
        == if f.IsEmpty() then Detect(maxlen, StepWindow(maxlen, w, events[0]), events[1..], orig, cur, live)
           else Detection(f, StepWindow(maxlen, w, events[0]), events[1..])
  {
  }

  lemma DetectUnfold(maxlen: nat, w: seq<string>, events: seq<Event>, i: nat,
                     orig: set<Identity>, cur: set<Identity>, live: seq<Identity>)
    requires i < |events|
    ensures var f := StepFound(maxlen, w, events[i], orig, cur, live);
      Detect(maxlen, w, events[i..], orig, cur, live)
        == if f.IsEmpty() then Detect(maxlen, StepWindow(maxlen, w, events[i]), events[i + 1..], orig, cur, live)
           else Detection(f, StepWindow(maxlen, w, events[i]), events[i + 1..])
  {
    assert events[i..][0] == events[i];
    assert events[i..][1..] == events[i + 1..];
  }

  /** One `process_state(notify, last_events, orig_devices, cur_devices)`
      call. `events` is what the inotify generator yields before its read
      times out; `live` is the enumerator's listing. */
  method ProcessState(window: EventWindow, events: seq<Event>, orig: set<Identity>,
                      cur: set<Identity>, live: seq<Identity>)
    returns (found: Dict<Identity, string>, rest: seq<Event>)
    requires window.Valid()
    modifies window
    ensures window.Valid()
    ensures Detection(found, window.tags, rest) == Detect(window.maxlen, old(window.tags), events, orig, cur, live)
  {
    found := Empty();
    var i := 0;
    while i < |events|
      invariant 0 <= i <= |events|
      invariant window.Valid()
      invariant found == Empty()
      invariant Detect(window.maxlen, old(window.tags), events, orig, cur, live)
             == Detect(window.maxlen, window.tags, events[i..], orig, cur, live)
    {
      DetectUnfold(window.maxlen, window.tags, events, i, orig, cur, live);
      var breakout;
      found, breakout := HandleEvent(window, events[i], orig, cur, live);
      if breakout {
        return found, events[i + 1..];
      }
      i := i + 1;
    }
    assert events[|events|..] == [];
    return found, [];
  }

  /** The body of `for event in notify.event_gen(...)` for one event: a
      matching name appends the event's tags to the window, and a window of
      nothing but `IN_ACCESS` makes the enumerator be consulted. */
  method HandleEvent(window: EventWindow, e: Event, orig: set<Identity>, cur: set<Identity>, live: seq<Identity>)
    returns (found: Dict<Identity, string>, breakout: bool)
    requires window.Valid()
    modifies window
    ensures window.Valid()
    ensures window.tags == StepWindow(window.maxlen, old(window.tags), e)
    ensures found == StepFound(window.maxlen, old(window.tags), e, orig, cur, live)
    ensures breakout <==> !found.IsEmpty()
  {
    found, breakout := Empty(), false;
    if StorageDevRe(e.file) {
      window.AppendAll(e.types);
      var all := AllEq(IN_ACCESS, window.tags);
      if all {
        found, breakout := CollectNew(live, orig, cur, PathJoin(e.path, e.file));
      }
    }
  }

  // ---------------------------------------------------------------------------
  // Properties of process_state

  /** The events whose file name passes `STORAGE_DEV_RE`. */
  function Matching(events: seq<Event>): seq<Event> {
    if events == [] then []
    else if StorageDevRe(events[0].file) then [events[0]] + Matching(events[1..])
    else Matching(events[1..])
  }

  /** Every type tag of the events, in order. */
  function AllTags(events: seq<Event>): seq<string> {
    if events == [] then [] else events[0].types + AllTags(events[1..])
  }

  /** Events whose file name does not look like a storage device change
      neither the window nor the result: `process_state` over the stream
      gives what it gives over the matching events alone. */
  lemma {:induction false} DetectIgnoresOtherNames(maxlen: nat, w: seq<string>, events: seq<Event>,
                                                   orig: set<Identity>, cur: set<Identity>, live: seq<Identity>)
    ensures Detect(maxlen, w, events, orig, cur, live).found == Detect(maxlen, w, Matching(events), orig, cur, live).found
    ensures Detect(maxlen, w, events, orig, cur, live).window == Detect(maxlen, w, Matching(events), orig, cur, live).window
    decreases |events|
  {
    if events != [] {
      var e := events[0];
      if StorageDevRe(e.file) {
        assert Matching(events) == [e] + Matching(events[1..]);
        assert Matching(events)[1..] == Matching(events[1..]);
        DetectIgnoresOtherNames(maxlen, Bounded(w + e.types, maxlen), events[1..], orig, cur, live);
      } else {
        DetectIgnoresOtherNames(maxlen, w, events[1..], orig, cur, live);
      }
    }
  }

  /** The window after consuming a prefix of the stream: every tag of every
      matching event appended, keeping the most recent `maxlen`. */
  function WindowAfter(maxlen: nat, w: seq<string>, consumed: seq<Event>): seq<string> {
    Bounded(w + AllTags(Matching(consumed)), maxlen)
  }

  lemma {:induction false} WindowAfterStep(maxlen: nat, w: seq<string>, consumed: seq<Event>, e: Event)
    ensures WindowAfter(maxlen, w, [e] + consumed)
         == WindowAfter(maxlen, StepWindow(maxlen, w, e), consumed)
  {
    var s := [e] + consumed;
    assert s[0] == e && s[1..] == consumed;
    if StorageDevRe(e.file) {
      assert Matching(s) == [e] + Matching(consumed);
      assert AllTags(Matching(s)) == e.types + AllTags(Matching(consumed));
      BoundedConcat(w + e.types, AllTags(Matching(consumed)), maxlen);
      var t := AllTags(Matching(consumed));
      assert w + e.types + t == w + (e.types + t);
    } else {
      assert Matching(s) == Matching(consumed);
    }
  }

  /** The window `process_state` leaves behind: the old one with every tag
      of every consumed matching event appended, bounded to `maxlen` (it is
      never cleared). */
  lemma {:induction false} DetectWindow(maxlen: nat, w: seq<string>, events: seq<Event>,
                                        orig: set<Identity>, cur: set<Identity>, live: seq<Identity>)
    requires |w| <= maxlen
    ensures var r := Detect(maxlen, w, events, orig, cur, live);
      r.window == WindowAfter(maxlen, w, events[..|events| - |r.rest|])
    decreases |events|
  {
    if events == [] {
      WindowAfterNone(maxlen, w);
    } else if !StepFound(maxlen, w, events[0], orig, cur, live).IsEmpty() {
      DetectWindowHit(maxlen, w, events, orig, cur, live);
    } else {
      DetectWindow(maxlen, StepWindow(maxlen, w, events[0]), events[1..], orig, cur, live);
      DetectWindowMiss(maxlen, w, events, orig, cur, live);
    }
  }

  /** `DetectWindow` when the first event already finds something. */
  lemma DetectWindowHit(maxlen: nat, w: seq<string>, events: seq<Event>,
                        orig: set<Identity>, cur: set<Identity>, live: seq<Identity>)
    requires |w| <= maxlen && events != []
    requires !StepFound(maxlen, w, events[0], orig, cur, live).IsEmpty()
    ensures var r := Detect(maxlen, w, events, orig, cur, live);
      r.window == WindowAfter(maxlen, w, events[..|events| - |r.rest|])
  {
    DetectHead(maxlen, w, events, orig, cur, live);
    WindowAfterFirst(maxlen, w, events);
  }

  /** `DetectWindow` when the first event finds nothing, given the property
      for the rest of the stream. */
  lemma DetectWindowMiss(maxlen: nat, w: seq<string>, events: seq<Event>,
                         orig: set<Identity>, cur: set<Identity>, live: seq<Identity>)
    requires |w| <= maxlen && events != []
    requires StepFound(maxlen, w, events[0], orig, cur, live).IsEmpty()
    requires var w' := StepWindow(maxlen, w, events[0]);
      var r' := Detect(maxlen, w', events[1..], orig, cur, live);
      r'.window == WindowAfter(maxlen, w', events[1..][..|events[1..]| - |r'.rest|])
    ensures var r := Detect(maxlen, w, events, orig, cur, live);
      r.window == WindowAfter(maxlen, w, events[..|events| - |r.rest|])
  {
    DetectHead(maxlen, w, events, orig, cur, live);
    WindowAfterTail(maxlen, w, events, Detect(maxlen, w, events, orig, cur, live).rest);
  }

  lemma WindowAfterFirst(maxlen: nat, w: seq<string>, events: seq<Event>)
    requires |w| <= maxlen && events != []
    ensures WindowAfter(maxlen, w, events[..1]) == StepWindow(maxlen, w, events[0])
  {
    var w' := StepWindow(maxlen, w, events[0]);
    WindowAfterNone(maxlen, w');
    WindowAfterStep(maxlen, w, [], events[0]);
    assert events[..1] == [events[0]] + [];
  }

  lemma WindowAfterTail(maxlen: nat, w: seq<string>, events: seq<Event>, rest: seq<Event>)
    requires events != [] && |rest| < |events|
    ensures WindowAfter(maxlen, w, events[..|events| - |rest|])
         == WindowAfter(maxlen, StepWindow(maxlen, w, events[0]), events[1..][..|events[1..]| - |rest|])
  {
    WindowAfterShift(maxlen, w, events, |events| - |rest|);
  }

  lemma WindowAfterNone(maxlen: nat, w: seq<string>)
    requires |w| <= maxlen
    ensures WindowAfter(maxlen, w, []) == w
  {
    assert Matching([]) == [];
    assert w + [] == w;
  }

  /** The last event consumed when `rest` is left: the one whose handling
      made `process_state` return. */
  function Trigger(events: seq<Event>, rest: seq<Event>): Event
    requires |rest| < |events|
  {
    events[|events| - |rest| - 1]
  }

  lemma TriggerTail(events: seq<Event>, rest: seq<Event>)
    requires |rest| < |events| - 1
    ensures Trigger(events[1..], rest) == Trigger(events, rest)
  {
  }

  /** A non-empty result comes from the last consumed event: its name
      matches and the window it left is all `IN_ACCESS` (whether full or
      not). */
  lemma {:induction false} DetectFoundEvent(maxlen: nat, w: seq<string>, events: seq<Event>,
                                            orig: set<Identity>, cur: set<Identity>, live: seq<Identity>)
    ensures var r := Detect(maxlen, w, events, orig, cur, live);
      !r.found.IsEmpty() ==>
        |r.rest| < |events| && StorageDevRe(Trigger(events, r.rest).file) && AllAccess(r.window)
    decreases |events|
  {
    if events != [] {
      var w' := StepWindow(maxlen, w, events[0]);
      DetectHead(maxlen, w, events, orig, cur, live);
      if StepFound(maxlen, w, events[0], orig, cur, live).IsEmpty() {
        DetectFoundEvent(maxlen, w', events[1..], orig, cur, live);
        var r := Detect(maxlen, w', events[1..], orig, cur, live);
        if !r.found.IsEmpty() {
          TriggerTail(events, r.rest);
        }
      } else {
        StepFoundFacts(maxlen, w, events[0], orig, cur, live);
      }
    }
  }

  /** A non-empty result holds exactly the live identities that are neither
      original nor tracked, each mapped to the device path of the last
      consumed event (its directory joined with its file name). */
  lemma {:induction false} DetectFoundEntries(maxlen: nat, w: seq<string>, events: seq<Event>,
                                              orig: set<Identity>, cur: set<Identity>, live: seq<Identity>)
    ensures var r := Detect(maxlen, w, events, orig, cur, live);
      !r.found.IsEmpty() ==>
        && |r.rest| < |events|
        && (forall x :: x in r.found.entries <==> x in live && x !in orig && x !in cur)
        && (forall x :: x in r.found.entries ==>
              r.found.entries[x] == PathJoin(Trigger(events, r.rest).path, Trigger(events, r.rest).file))
    decreases |events|
  {
    if events != [] {
      var w' := StepWindow(maxlen, w, events[0]);
      DetectHead(maxlen, w, events, orig, cur, live);
      if StepFound(maxlen, w, events[0], orig, cur, live).IsEmpty() {
        DetectFoundEntries(maxlen, w', events[1..], orig, cur, live);
        var r := Detect(maxlen, w', events[1..], orig, cur, live);
        if !r.found.IsEmpty() {
          TriggerTail(events, r.rest);
        }
      } else {
        StepFoundFacts(maxlen, w, events[0], orig, cur, live);
      }
    }
  }

  /** `Collect` finds nothing exactly when every live identity is original
      or already tracked. */
  lemma CollectEmpty(live: seq<Identity>, orig: set<Identity>, cur: set<Identity>, where: string)
    ensures Collect(live, orig, cur, where).IsEmpty() <==> forall x :: x in live ==> x in orig || x in cur
  {
    var c := Collect(live, orig, cur, where);
    CollectEntries(live, orig, cur, where);
    if !c.IsEmpty() {
      assert c.keys[0] in c.entries;
    }
  }

  /** The result comes from the FIRST matching event that leaves an
      all-`IN_ACCESS` window: since the listing does not change during the
      call, an earlier such event would have found the same identities. */
  lemma {:induction false} DetectFirst(maxlen: nat, w: seq<string>, events: seq<Event>,
                                       orig: set<Identity>, cur: set<Identity>, live: seq<Identity>)
    requires |w| <= maxlen
    ensures var r := Detect(maxlen, w, events, orig, cur, live);
      !r.found.IsEmpty() ==>
        forall j :: 0 <= j < |events| - |r.rest| - 1 && StorageDevRe(events[j].file) ==>
          !AllAccess(WindowAfter(maxlen, w, events[..j + 1]))
    decreases |events|
  {
    if events != [] && StepFound(maxlen, w, events[0], orig, cur, live).IsEmpty() {
      var w' := StepWindow(maxlen, w, events[0]);
      DetectHead(maxlen, w, events, orig, cur, live);
      DetectFirst(maxlen, w', events[1..], orig, cur, live);
      DetectFoundEntries(maxlen, w', events[1..], orig, cur, live);
      var r := Detect(maxlen, w', events[1..], orig, cur, live);
      if !r.found.IsEmpty() {
        var x := r.found.keys[0];
        assert x in r.found.entries;
        DetectFirstMiss(maxlen, w, events, orig, cur, live, r.rest, x);
      }
    } else if events != [] {
      DetectHead(maxlen, w, events, orig, cur, live);
    }
  }

  /** The converse of `DetectFirst`: a matching event whose window is all
      `IN_ACCESS` while the listing holds a candidate `x` (neither original
      nor tracked) makes the call return a non-empty result, at that event
      or earlier. */
  lemma {:induction false} DetectFinds(maxlen: nat, w: seq<string>, events: seq<Event>,
                                       orig: set<Identity>, cur: set<Identity>, live: seq<Identity>,
                                       j: nat, x: Identity)
    requires |w| <= maxlen && j < |events|
    requires StorageDevRe(events[j].file) && AllAccess(WindowAfter(maxlen, w, events[..j + 1]))
    requires x in live && x !in orig && x !in cur
    ensures var r := Detect(maxlen, w, events, orig, cur, live);
      !r.found.IsEmpty() && |events| - |r.rest| <= j + 1
    decreases j
  {
    DetectHead(maxlen, w, events, orig, cur, live);
    if j == 0 {
      WindowAfterFirst(maxlen, w, events);
      CollectEmpty(live, orig, cur, PathJoin(events[0].path, events[0].file));
    } else if StepFound(maxlen, w, events[0], orig, cur, live).IsEmpty() {
      var w' := StepWindow(maxlen, w, events[0]);
      WindowAfterShift(maxlen, w, events, j + 1);
      assert events[1..][j - 1] == events[j];
      DetectFinds(maxlen, w', events[1..], orig, cur, live, j - 1, x);
    }
  }

  /** `DetectFirst` when the first event finds nothing although `x` is a
      candidate, given the property for the rest of the stream. */
  lemma DetectFirstMiss(maxlen: nat, w: seq<string>, events: seq<Event>,
                        orig: set<Identity>, cur: set<Identity>, live: seq<Identity>, rest: seq<Event>, x: Identity)
    requires |w| <= maxlen && events != [] && |rest| < |events| - 1
    requires StepFound(maxlen, w, events[0], orig, cur, live).IsEmpty()
    requires x in live && x !in orig && x !in cur
    requires var w' := StepWindow(maxlen, w, events[0]);
      forall j :: 0 <= j < |events[1..]| - |rest| - 1 && StorageDevRe(events[1..][j].file) ==>
        !AllAccess(WindowAfter(maxlen, w', events[1..][..j + 1]))
    ensures forall j :: 0 <= j < |events| - |rest| - 1 && StorageDevRe(events[j].file) ==>
      !AllAccess(WindowAfter(maxlen, w, events[..j + 1]))
  {
    forall j | 0 <= j < |events| - |rest| - 1 && StorageDevRe(events[j].file)
      ensures !AllAccess(WindowAfter(maxlen, w, events[..j + 1]))
    {
      if j == 0 {
        FirstEventBlocked(maxlen, w, events, orig, cur, live, x);
      } else {
        assert events[1..][j - 1] == events[j];
        LaterEventBlocked(maxlen, w, events, j);
      }
    }
  }

  /** A later event's window is the one the rest of the stream gives it,
      starting from the window the first event left. */
  lemma LaterEventBlocked(maxlen: nat, w: seq<string>, events: seq<Event>, j: nat)
    requires 1 <= j < |events|
    requires !AllAccess(WindowAfter(maxlen, StepWindow(maxlen, w, events[0]), events[1..][..(j - 1) + 1]))
    ensures !AllAccess(WindowAfter(maxlen, w, events[..j + 1]))
  {
    WindowAfterShift(maxlen, w, events, j + 1);
  }

  /** A matching first event that finds nothing while `x` is a candidate
      left a window that is not all `IN_ACCESS`. */
  lemma FirstEventBlocked(maxlen: nat, w: seq<string>, events: seq<Event>,
                          orig: set<Identity>, cur: set<Identity>, live: seq<Identity>, x: Identity)
    requires |w| <= maxlen && events != [] && StorageDevRe(events[0].file)
    requires StepFound(maxlen, w, events[0], orig, cur, live).IsEmpty()
    requires x in live && x !in orig && x !in cur
    ensures !AllAccess(WindowAfter(maxlen, w, events[..1]))
  {
    WindowAfterFirst(maxlen, w, events);
    CollectEmpty(live, orig, cur, PathJoin(events[0].path, events[0].file));
  }

  lemma WindowAfterShift(maxlen: nat, w: seq<string>, events: seq<Event>, n: nat)
    requires 1 <= n <= |events|
    ensures WindowAfter(maxlen, w, events[..n])
         == WindowAfter(maxlen, StepWindow(maxlen, w, events[0]), events[1..][..n - 1])
  {
    assert events[1..][..n - 1] == events[1..n];
    WindowAfterStep(maxlen, w, events[1..n], events[0]);
    assert [events[0]] + events[1..n] == events[..n];
  }


  /** Detection does not wait for a full window: the first matching event,
      even one with no tags at all, triggers the enumerator when the window
      is empty. */
  lemma DetectBeforeWindowFull(x: Identity)
    ensures Detect(6, [], [Event([], "/dev", "sdb")], {}, {}, [x]).found.entries == map[x := "/dev/sdb"]
    ensures Detect(6, [], [Event([IN_ACCESS], "/dev", "sdb")], {}, {}, [x]).window == [IN_ACCESS]
  {
    assert StorageDevRe("sdb");
    assert PathJoin("/dev", "sdb") == "/dev/sdb";
    assert Bounded([] + [], 6) == [];
    var c := Collect([x], {}, {}, "/dev/sdb");
    CollectEntries([x], {}, {}, "/dev/sdb");
    assert c.entries == map[x := "/dev/sdb"];
    assert [Event([], "/dev", "sdb")][0].types == [];
    assert Bounded([] + [IN_ACCESS], 6) == [IN_ACCESS];
  }
}
