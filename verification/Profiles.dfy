// The kernel profile table: an open-addressing table with linear probing and no
// deletion, keyed by kernel and grid size.
module Profiles {
  import opened Common

  const TABLE_SIZE: nat := 2048
  const SAMPLES_WANTED: nat := 3
  type Position = p: nat | p < TABLE_SIZE

  datatype Key = Key(kernel: Word, blocks: Word)

  datatype Profile = Profile(key: Key, durationEwmaNs: nat, samples: nat, pendingSamples: nat, occupied: bool)

  const EMPTY_PROFILE: Profile := Profile(Key(0, 0), 0, 0, 0, false)

  // event_be_profile_hash
  function Hash(key: Key): Position
  {
    var value: bv64 := ((key.kernel as bv64) >> 4) ^ (key.blocks as bv64);
    var mixed: bv64 := (value ^ (value >> 33)) * 0xff51afd7ed558ccd;
    ((mixed ^ (mixed >> 33)) & 0x7FF) as bv11 as Position
  }

  // ----- probing -----

  function Slot(start: Position, offset: Position): Position {
    (start + offset) % TABLE_SIZE
  }

  // How many probes lie between the start and position i.
  ghost function ProbesBefore(start: Position, i: Position): (d: Position)
    ensures Slot(start, d) == i
  {
    if i >= start then i - start else i + TABLE_SIZE - start
  }

  lemma SlotsAreDistinct(start: Position, a: Position, b: Position)
    ensures Slot(start, a) == Slot(start, b) ==> a == b
  {
  }

  // Where probing for a key starts. The proofs hold for any choice.
  type Home = Key -> Position

  type Index = map<Key, nat>

  // Every key stays where it was.
  ghost predicate Keeps(before: Index, after: Index) {
    forall key :: key in before ==> key in after && after[key] == before[key]
  }

  // Every probe before the key's position finds another key.
  ghost predicate ProbeReaches(home: Home, entries: seq<Profile>, key: Key, i: nat)
    requires |entries| == TABLE_SIZE && i < TABLE_SIZE
  {
    forall offset {:trigger Slot(home(key), offset)} :: 0 <= offset < ProbesBefore(home(key), i) ==>
      entries[Slot(home(key), offset)].occupied
  }

  // The table holds exactly the keys of `index`, each once, where probing finds it.
  ghost predicate Represents(home: Home, entries: seq<Profile>, index: Index) {
    && |entries| == TABLE_SIZE
    && (forall key :: key in index ==>
          index[key] < TABLE_SIZE && entries[index[key]].occupied && entries[index[key]].key == key
          && ProbeReaches(home, entries, key, index[key]))
    && (forall i :: 0 <= i < TABLE_SIZE && entries[i].occupied ==>
          entries[i].key in index && index[entries[i].key] == i && entries[i].key.kernel != 0)
    && (forall i :: 0 <= i < TABLE_SIZE && !entries[i].occupied ==>
          entries[i].samples == 0 && entries[i].pendingSamples == 0 && entries[i].durationEwmaNs == 0)
  }

  ghost predicate Full(entries: seq<Profile>) {
    forall i :: 0 <= i < |entries| ==> entries[i].occupied
  }

  // The first `offset` probes found other keys.
  ghost predicate Passed(home: Home, entries: seq<Profile>, key: Key, offset: nat)
    requires |entries| == TABLE_SIZE && offset <= TABLE_SIZE
  {
    forall o {:trigger Slot(home(key), o)} :: 0 <= o < offset ==>
      entries[Slot(home(key), o)].occupied && entries[Slot(home(key), o)].key != key
  }

  // Up to the position of a key that is in the table, every probe is occupied.
  lemma PresentIsAhead(home: Home, entries: seq<Profile>, index: Index, key: Key, offset: nat)
    requires Represents(home, entries, index) && offset < TABLE_SIZE && Passed(home, entries, key, offset)
    requires key in index
    ensures entries[Slot(home(key), offset)].occupied
  {
    assert ProbeReaches(home, entries, key, index[key]);
    assert Slot(home(key), ProbesBefore(home(key), index[key])) == index[key];
  }

  // A key that is in the table is not behind an empty position.
  lemma NotBehindEmpty(home: Home, entries: seq<Profile>, index: Index, key: Key, offset: nat)
    requires Represents(home, entries, index) && offset < TABLE_SIZE && Passed(home, entries, key, offset)
    requires !entries[Slot(home(key), offset)].occupied
    ensures key !in index
  {
    if key in index { PresentIsAhead(home, entries, index, key, offset); }
  }

  lemma NotAnywhere(home: Home, entries: seq<Profile>, index: Index, key: Key)
    requires Represents(home, entries, index) && Passed(home, entries, key, TABLE_SIZE)
    ensures key !in index && Full(entries)
  {
    forall i | 0 <= i < TABLE_SIZE
      ensures entries[i].occupied && entries[i].key != key
    {
      assert Slot(home(key), ProbesBefore(home(key), i)) == i;
    }
  }

  // Filling the first empty position on its probe path adds the key.
  lemma InsertRepresents(home: Home, entries: seq<Profile>, index: Index, key: Key, offset: nat)
    requires Represents(home, entries, index) && offset < TABLE_SIZE && Passed(home, entries, key, offset)
    requires key.kernel != 0 && !entries[Slot(home(key), offset)].occupied
    ensures var i := Slot(home(key), offset);
            Represents(home, entries[i := entries[i].(key := key, occupied := true)], index[key := i])
  {
    var i := Slot(home(key), offset);
    var after := entries[i := entries[i].(key := key, occupied := true)];
    NotBehindEmpty(home, entries, index, key, offset);
    SlotsAreDistinct(home(key), offset, ProbesBefore(home(key), i));
    var grown := index[key := i];
    forall k | k in grown
      ensures ProbeReaches(home, after, k, grown[k])
    {
      if k != key { assert ProbeReaches(home, entries, k, index[k]); }
    }
  }

  // Changing what is recorded under a key, not the key.
  lemma RecordRepresents(home: Home, entries: seq<Profile>, index: Index, i: nat, p: Profile)
    requires Represents(home, entries, index) && i < TABLE_SIZE
    requires entries[i].occupied && p.occupied && p.key == entries[i].key
    ensures Represents(home, entries[i := p], index)
  {
    forall key | key in index
      ensures ProbeReaches(home, entries[i := p], key, index[key])
    {
      assert ProbeReaches(home, entries, key, index[key]);
    }
  }

  // ----- learned durations -----

  function Learn(p: Profile, durationNs: nat): (ewma: nat)
  {
    if p.samples == 0 then durationNs
    else if durationNs >= p.durationEwmaNs then p.durationEwmaNs + (durationNs - p.durationEwmaNs) / 4
    else p.durationEwmaNs - (p.durationEwmaNs - durationNs) / 4
  }

  // A learned duration stays within the range of what was measured.
  lemma LearnStaysInRange(p: Profile, durationNs: nat, lo: nat, hi: nat)
    requires lo <= durationNs <= hi && (p.samples > 0 ==> lo <= p.durationEwmaNs <= hi)
    ensures lo <= Learn(p, durationNs) <= hi
  {
  }

  // One more measurement: the first is taken as it is; a later one moves what was
  // learned a quarter of the way to it, rounded down.
  ghost predicate AQuarterCloser(p: Profile, durationNs: nat, r: Profile) {
    && r.samples == p.samples + 1
    && if p.samples == 0 then r.durationEwmaNs == durationNs
       else
         var e, e' := p.durationEwmaNs, r.durationEwmaNs;
         Between(e, e', durationNs) && 4 * Distance(e', e) <= Distance(durationNs, e) < 4 * Distance(e', e) + 4
  }

  lemma LearnGoesAQuarter(p: Profile, durationNs: nat)
    ensures AQuarterCloser(p, durationNs, Taught(p, durationNs))
  {
  }

  // A quarter of margin on top, saturating.
  function WithMargin(learned: nat): (ns: nat)
    requires learned < UINT64
    ensures ns == if learned + learned / 4 < UINT64 then learned + learned / 4 else UINT64 - 1
  {
    if UINT64 - 1 - learned < learned / 4 then UINT64 - 1 else learned + learned / 4
  }

  // What event_be_predict_kernel_ns_locked answers: a quarter more than was learned
  // for the key, saturating, or a fixed guess until it has been measured.
  ghost predicate Forecast(entries: seq<Profile>, index: Index, key: Key, unknownNs: nat, unknown: bool, ns: nat) {
    if key in index && index[key] < |entries| && entries[index[key]].samples > 0
       && entries[index[key]].durationEwmaNs < UINT64
    then !unknown && ns == WithMargin(entries[index[key]].durationEwmaNs)
    else unknown && ns == unknownNs
  }

  // How a profile changes when the launch that measured it is retired; the
  // duration is zero when it could not be read.
  function Credit(p: Profile, durationNs: nat): (r: Profile)
    ensures r.key == p.key && r.occupied == p.occupied
    ensures p.pendingSamples > 0 ==> r.pendingSamples + 1 == p.pendingSamples
    ensures durationNs == 0 ==> r.samples == p.samples && r.durationEwmaNs == p.durationEwmaNs
    ensures durationNs > 0 ==> r.samples == p.samples + 1 && r.durationEwmaNs == Learn(p, durationNs)
  {
    var q := p.(pendingSamples := if p.pendingSamples > 0 then p.pendingSamples - 1 else 0);
    if durationNs == 0 then q
    else Taught(q, durationNs)
  }

  // A profile after one more measurement.
  function Taught(p: Profile, durationNs: nat): Profile {
    p.(durationEwmaNs := Learn(p, durationNs), samples := p.samples + 1)
  }

  class ProfileTable {
    const home: Home
    const entries: array<Profile>
    ghost var index: Index

    ghost predicate Valid()
      reads this, entries
    {
      Represents(home, entries[..], index)
    }

    constructor ()
      ensures Valid() && home == Hash && index == map[] && fresh(entries)
      ensures forall i :: 0 <= i < TABLE_SIZE ==> entries[i] == EMPTY_PROFILE
    {
      home := Hash;
      entries := new Profile[TABLE_SIZE](_ => EMPTY_PROFILE);
      index := map[];
    }

    // The probe loop: the key's position, or the first empty one, or neither.
    method Probe(key: Key) returns (i: int, found: bool, ghost offset: nat)
      requires Valid()
      ensures found ==> 0 <= i < TABLE_SIZE && key in index && i == index[key]
      ensures !found ==> key !in index
      ensures !found && i >= 0 ==>
        && offset < TABLE_SIZE && i == Slot(home(key), offset)
        && Passed(home, entries[..], key, offset) && !entries[i].occupied
      ensures i < 0 ==> Full(entries[..])
    {
      var start := home(key);
      offset := 0;
      for o := 0 to TABLE_SIZE
        invariant Passed(home, entries[..], key, o)
      {
        i := Slot(start, o);
        assert entries[..][i] == entries[i];
        if entries[i].occupied {
          if entries[i].key == key {
            return i, true, o;
          }
        } else {
          NotBehindEmpty(home, entries[..], index, key, o);
          return i, false, o;
        }
      }
      NotAnywhere(home, entries[..], index, key);
      return -1, false, 0;
    }

    // event_be_profile_lookup_locked: a map lookup that inserts when asked to.
    method Lookup(key: Key, create: bool) returns (r: int)
      requires Valid()
      modifies this, entries
      ensures Valid() && -1 <= r < TABLE_SIZE
      ensures key in old(index) ==> r == old(index)[key] && index == old(index) && entries[..] == old(entries[..])
      ensures key !in old(index) && create && key.kernel != 0 && !Full(old(entries[..])) ==>
        && r >= 0 && index == old(index)[key := r] && !old(entries[r]).occupied
        && entries[..] == old(entries[..])[r := old(entries[r]).(key := key, occupied := true)]
      ensures key !in old(index) && (!create || key.kernel == 0 || Full(old(entries[..]))) ==>
        r == -1 && index == old(index) && entries[..] == old(entries[..])
    {
      if key.kernel == 0 {
        assert key !in index;
        return -1;
      }
      var i, found;
      ghost var offset: nat;
      i, found, offset := Probe(key);
      if found {
        return i;
      }
      if i < 0 || !create {
        assert i >= 0 ==> !entries[..][i].occupied;
        return -1;
      }
      InsertRepresents(home, entries[..], index, key, offset);
      entries[i] := entries[i].(key := key, occupied := true);
      index := index[key := i];
      r := i;
    }

    // Replace the record at an occupied position.
    method Set(i: nat, p: Profile)
      requires Valid() && i < TABLE_SIZE && entries[i].occupied && p.occupied && p.key == entries[i].key
      modifies entries
      ensures Valid() && entries[..] == old(entries[..])[i := p]
    {
      RecordRepresents(home, entries[..], index, i, p);
      entries[i] := p;
    }

    // event_be_predict_kernel_ns_locked
    method Predict(key: Key, unknownNs: nat) returns (r: int, unknown: bool, ns: nat)
      requires Valid() && unknownNs < UINT64
      requires forall i :: 0 <= i < TABLE_SIZE ==> entries[i].durationEwmaNs < UINT64
      modifies this, entries
      ensures Valid() && -1 <= r < TABLE_SIZE && ns < UINT64
      ensures SameRecords(old(entries[..]), entries[..]) && Keeps(old(index), index)
      ensures Forecast(old(entries[..]), old(index), key, unknownNs, unknown, ns)
      ensures r >= 0 ==> key in index && index[key] == r
      ensures r < 0 ==> key !in index
    {
      r := Lookup(key, true);
      if r < 0 || entries[r].samples == 0 {
        return r, true, unknownNs;
      }
      return r, false, WithMargin(entries[r].durationEwmaNs);
    }

    // event_be_update_profile_locked: false when the sample is not usable.
    method Update(i: nat, durationNs: nat) returns (ok: bool)
      requires Valid()
      modifies entries
      ensures Valid()
      ensures ok <==> i < TABLE_SIZE && durationNs > 0 && old(entries[i].occupied)
      ensures ok ==> entries[..] == old(entries[..])[i := Taught(old(entries[i]), durationNs)]
      ensures ok ==> AQuarterCloser(old(entries[i]), durationNs, entries[i])
      ensures !ok ==> entries[..] == old(entries[..])
    {
      if i >= TABLE_SIZE || durationNs == 0 {
        return false;
      }
      var p := entries[i];
      if !p.occupied {
        return false;
      }
      LearnGoesAQuarter(p, durationNs);
      Set(i, p.(durationEwmaNs := Learn(p, durationNs), samples := p.samples + 1));
      return true;
    }
  }

  // Nothing recorded changes, and nothing is taken out.
  ghost predicate SameRecords(before: seq<Profile>, after: seq<Profile>) {
    |before| == |after| && forall i :: 0 <= i < |before| ==>
      SameRecord(after[i], before[i]) && (before[i].occupied ==> after[i].occupied)
  }

  // Two profiles that differ at most in their key and in being occupied.
  ghost predicate SameRecord(a: Profile, b: Profile) {
    a.durationEwmaNs == b.durationEwmaNs && a.samples == b.samples && a.pendingSamples == b.pendingSamples
  }
}
