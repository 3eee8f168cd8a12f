/** The removal sweep of `process_loop` in flasher/process.py (and of
    `main` in flasher.py): every tracked device is tested with `in` against
    the generator `usb_storage_devices()`, which each test consumes up to
    the device it finds. Both stations share it. */
module Removal {
  import opened Util
  import opened OrderedMap
  import opened Usb

  /** Position of the first `x` in `gen`. */
  function IndexOf<K(==)>(gen: seq<K>, x: K): (i: nat)
    requires x in gen
    ensures i < |gen| && gen[i] == x && x !in gen[..i]
  {
    if gen[0] == x then 0 else 1 + IndexOf(gen[1..], x)
  }

  /** `x in gen` on a generator: it consumes elements up to and including
      the first match, or all of them when there is none. */
  function Consume<K(==)>(gen: seq<K>, x: K): (r: (bool, seq<K>))
    ensures r.0 <==> x in gen
    ensures r.0 ==> r.1 == gen[IndexOf(gen, x) + 1..]
    ensures !r.0 ==> r.1 == []
  {
    if x in gen then (true, gen[IndexOf(gen, x) + 1..]) else (false, [])
  }

  /** The tracked keys, in order, whose membership test fails against the
      single-use listing `gen`. */
  function SweepSpec<K(==)>(keys: seq<K>, gen: seq<K>): seq<K>
    decreases |keys|
  {
    if keys == [] then []
    else
      var c := Consume(gen, keys[0]);
      (if c.0 then [] else [keys[0]]) + SweepSpec(keys[1..], c.1)
  }

  /** `keys` are distinct and all tracked in `d`. */
  ghost predicate Tracked<K(!new), V>(keys: seq<K>, d: Dict<K, V>) {
    && d.Valid()
    && (forall i, j :: 0 <= i < j < |keys| ==> keys[i] != keys[j])
    && (forall k :: k in keys ==> k in d.entries)
  }

  lemma TrackedStep<K(!new), V>(keys: seq<K>, d: Dict<K, V>)
    requires keys != [] && Tracked(keys, d)
    ensures Tracked(keys[1..], d)
    ensures Tracked(keys[1..], d.Pop(keys[0]))
  {
    assert forall k :: k in keys[1..] ==> k != keys[0] by {
      forall k | k in keys[1..] ensures k != keys[0] {
        var j :| 0 <= j < |keys[1..]| && keys[1..][j] == k;
        assert keys[j + 1] == k;
      }
    }
  }

  /** The sweep over `keys` with the listing `gen`, starting from the table
      `kept` and the report `removed` built so far. */
  function SweepFrom<K(==,!new), V>(keys: seq<K>, gen: seq<K>, kept: Dict<K, V>, removed: seq<(K, V)>)
    : (r: (Dict<K, V>, seq<(K, V)>))
    requires Tracked(keys, kept)
    ensures r.0.Valid()
    decreases |keys|
  {
    if keys == [] then (kept, removed)
    else
      TrackedStep(keys, kept);
      var c := Consume(gen, keys[0]);
      if c.0 then SweepFrom(keys[1..], c.1, kept, removed)
      else SweepFrom(keys[1..], c.1, kept.Pop(keys[0]), removed + [(keys[0], kept.entries[keys[0]])])
  }

  /** The sweep of `process_loop`: for every tracked identity, in insertion
      order, `device not in current_usb` is asked of ONE generator; an
      identity whose test fails is popped and reported. */
  method Sweep<K(==,!new), V>(table: Dict<K, V>, gen: seq<K>)
    returns (kept: Dict<K, V>, removed: seq<(K, V)>)
    requires table.Valid()
    ensures (kept, removed) == SweepFrom(table.keys, gen, table, [])
    ensures kept.Valid()
    ensures Firsts(removed) == SweepSpec(table.keys, gen)
    ensures forall j :: 0 <= j < |removed| ==>
              removed[j].0 in table.entries && removed[j].1 == table.entries[removed[j].0]
    ensures kept.entries == table.entries - Elements(SweepSpec(table.keys, gen))
  {
    var keys := table.keys;
    var remaining := gen;
    kept := table;
    removed := [];
    for i := 0 to |keys|
      invariant Tracked(keys[i..], kept)
      invariant SweepFrom(keys[i..], remaining, kept, removed) == SweepFrom(keys, gen, table, [])
    {
      var d := keys[i];
      assert keys[i..][0] == d && keys[i..][1..] == keys[i + 1..];
      TrackedStep(keys[i..], kept);
      var c := Consume(remaining, d);
      remaining := c.1;
      if !c.0 {
        var m := kept.entries[d];
        kept := kept.Pop(d);
        removed := removed + [(d, m)];
      }
    }
    assert keys[|keys|..] == [];
    SweepFromReport(keys, gen, table, []);
    SweepFromPairs(keys, gen, table, []);
    SweepFromEntries(keys, gen, table, []);
  }

  /** The report lists the identities `SweepSpec` names, after what was
      already reported. */
  lemma {:induction false} SweepFromReport<K(!new), V>(keys: seq<K>, gen: seq<K>, kept: Dict<K, V>, removed: seq<(K, V)>)
    requires Tracked(keys, kept)
    ensures Firsts(SweepFrom(keys, gen, kept, removed).1) == Firsts(removed) + SweepSpec(keys, gen)
    decreases |keys|
  {
    if keys != [] {
      TrackedStep(keys, kept);
      var c := Consume(gen, keys[0]);
      var later := SweepSpec(keys[1..], c.1);
      if c.0 {
        assert SweepFrom(keys, gen, kept, removed) == SweepFrom(keys[1..], c.1, kept, removed);
        SweepFromReport(keys[1..], c.1, kept, removed);
        assert [] + later == later;
      } else {
        var p := (keys[0], kept.entries[keys[0]]);
        assert SweepFrom(keys, gen, kept, removed) == SweepFrom(keys[1..], c.1, kept.Pop(keys[0]), removed + [p]);
        SweepFromReport(keys[1..], c.1, kept.Pop(keys[0]), removed + [p]);
        FirstsSnoc(removed, p);
        AppendAssoc(Firsts(removed), [keys[0]], later);
      }
    }
  }

  /** Every reported pair carries the value the identity had in the table. */
  lemma {:induction false} SweepFromPairs<K(!new), V>(keys: seq<K>, gen: seq<K>, kept: Dict<K, V>, removed: seq<(K, V)>)
    requires Tracked(keys, kept)
    ensures var r := SweepFrom(keys, gen, kept, removed).1;
      forall j :: 0 <= j < |r| ==> (r[j] in removed || (r[j].0 in kept.entries && r[j].1 == kept.entries[r[j].0]))
    decreases |keys|
  {
    if keys != [] {
      TrackedStep(keys, kept);
      var c := Consume(gen, keys[0]);
      if c.0 {
        assert SweepFrom(keys, gen, kept, removed) == SweepFrom(keys[1..], c.1, kept, removed);
        SweepFromPairs(keys[1..], c.1, kept, removed);
      } else {
        var p := (keys[0], kept.entries[keys[0]]);
        assert SweepFrom(keys, gen, kept, removed) == SweepFrom(keys[1..], c.1, kept.Pop(keys[0]), removed + [p]);
        SweepFromPairs(keys[1..], c.1, kept.Pop(keys[0]), removed + [p]);
      }
    }
  }

  /** The table keeps exactly the identities `SweepSpec` does not name. */
  lemma {:induction false} SweepFromEntries<K(!new), V>(keys: seq<K>, gen: seq<K>, kept: Dict<K, V>, removed: seq<(K, V)>)
    requires Tracked(keys, kept)
    ensures SweepFrom(keys, gen, kept, removed).0.entries == kept.entries - Elements(SweepSpec(keys, gen))
    decreases |keys|
  {
    if keys != [] {
      TrackedStep(keys, kept);
      var c := Consume(gen, keys[0]);
      var later := SweepSpec(keys[1..], c.1);
      if c.0 {
        SweepFromEntries(keys[1..], c.1, kept, removed);
        assert [] + later == later;
      } else {
        var p := (keys[0], kept.entries[keys[0]]);
        SweepFromEntries(keys[1..], c.1, kept.Pop(keys[0]), removed + [p]);
        assert Elements([keys[0]] + later) == {keys[0]} + Elements(later);
        MapRemoveAll(kept.entries, {keys[0]}, Elements(later));
      }
    }
  }

  lemma FirstsSnoc<K, V>(s: seq<(K, V)>, p: (K, V))
    ensures Firsts(s + [p]) == Firsts(s) + [p.0]
  {
    assert (s + [p])[..|s|] == s;
  }

  lemma MapRemoveAll<K, V>(m: map<K, V>, a: set<K>, b: set<K>)
    ensures (m - a) - b == m - (a + b)
  {
  }

  /** The set of elements of a sequence. */
  function Elements<K(!new)>(s: seq<K>): (r: set<K>)
    ensures forall k :: k in r <==> k in s
  {
    if s == [] then {} else Elements(s[..|s| - 1]) + {s[|s| - 1]}
  }

  function Firsts<K, V>(s: seq<(K, V)>): (r: seq<K>)
    ensures |r| == |s|
  {
    if s == [] then [] else Firsts(s[..|s| - 1]) + [s[|s| - 1].0]
  }

  // ---------------------------------------------------------------------------
  // Properties of the sweep

  lemma {:induction false} SweepExhausted<K>(keys: seq<K>)
    ensures SweepSpec(keys, []) == keys
    decreases |keys|
  {
    if keys != [] {
      SweepExhausted(keys[1..]);
    }
  }

  /** Only tracked identities are reported, and every tracked identity that
      is missing from the listing is reported. */
  lemma {:induction false} SweepReports<K>(keys: seq<K>, gen: seq<K>)
    ensures forall k :: k in SweepSpec(keys, gen) ==> k in keys
    ensures forall k :: k in keys && k !in gen ==> k in SweepSpec(keys, gen)
    decreases |keys|
  {
    if keys != [] {
      var c := Consume(gen, keys[0]);
      SweepReports(keys[1..], c.1);
      forall k | k in keys && k !in gen
        ensures k in SweepSpec(keys, gen)
      {
        if k != keys[0] {
          assert k in keys[1..];
          assert k !in c.1 by {
            if c.0 {
              assert forall y :: y in c.1 ==> y in gen;
            }
          }
        }
      }
    }
  }

  /** Once one tracked identity is missing, the generator is exhausted: that
      identity and every identity tracked after it are reported removed,
      whether or not they are still attached. */
  lemma {:induction false} SweepCascade<K>(keys: seq<K>, gen: seq<K>, i: nat)
    requires i < |keys| && keys[i] !in gen
    ensures SweepSpec(keys, gen) == SweepSpec(keys[..i], gen) + keys[i..]
    decreases i
  {
    var c := Consume(gen, keys[0]);
    if i == 0 {
      SweepExhausted(keys[1..]);
      assert [keys[0]] + keys[1..] == keys;
    } else {
      var tail := keys[1..];
      assert tail[i - 1] == keys[i];
      assert keys[i] !in c.1 by {
        if c.0 {
          assert forall y :: y in c.1 ==> y in gen;
        }
      }
      SweepCascade(tail, c.1, i - 1);
      var pre := keys[..i];
      assert pre[0] == keys[0];
      assert pre[1..] == tail[..i - 1];
      assert tail[i - 1..] == keys[i..];
    }
  }

  /** `keys` occurs, in order, within `gen`, matched greedily as the
      generator is consumed. */
  predicate ListedInOrder<K(==)>(keys: seq<K>, gen: seq<K>)
    decreases |gen|
  {
    if keys == [] then true
    else if gen == [] then false
    else if gen[0] == keys[0] then ListedInOrder(keys[1..], gen[1..])
    else ListedInOrder(keys, gen[1..])
  }

  lemma {:induction false} ConsumeListed<K>(keys: seq<K>, gen: seq<K>)
    requires keys != []
    ensures ListedInOrder(keys, gen) <==> keys[0] in gen && ListedInOrder(keys[1..], Consume(gen, keys[0]).1)
    decreases |gen|
  {
    if gen != [] && gen[0] != keys[0] {
      ConsumeListed(keys, gen[1..]);
      assert keys[0] in gen <==> keys[0] in gen[1..];
    }
  }

  /** No tracked device is reported removed exactly when the listing
      presents all of them in tracking order. */
  lemma {:induction false} SweepNothingIffInOrder<K>(keys: seq<K>, gen: seq<K>)
    ensures SweepSpec(keys, gen) == [] <==> ListedInOrder(keys, gen)
    decreases |keys|
  {
    if keys != [] {
      var c := Consume(gen, keys[0]);
      SweepNothingIffInOrder(keys[1..], c.1);
      ConsumeListed(keys, gen);
    }
  }

  /** The quirk of the single-use generator: with two tracked devices both
      still attached, a listing that presents the second before the first
      reports the second as removed. */
  lemma SweepReportsAttachedDevice<K>(a: K, b: K)
    requires a != b
    ensures b in [b, a] && SweepSpec([a, b], [b, a]) == [b]
  {
    assert [b, a][1..] == [a] && [a][1..] == [];
    assert Consume([b, a], a) == (true, []);
    assert [a, b][1..] == [b] && [b][1..] == [];
    assert SweepSpec([b], []) == [b] + SweepSpec([], []);
  }
}
