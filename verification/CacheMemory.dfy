/** The accounting of resident frames: sizes, and stamps of last use. */
module CacheMemories {
  import opened Wrappers

  /** Files are keyed by address. */
  datatype FrameKey = FrameKey(file: nat, frame: nat)

  /** `serial` is the identity of the file the entry's weak handle refers to. */
  datatype Entry = Entry(serial: nat, bytes: nat, lastUsed: nat)

  type Tracked = map<FrameKey, Entry>

  ghost function Total(frames: Tracked): nat {
    if frames.Keys == {} then 0
    else
      var k :| k in frames.Keys;
      frames[k].bytes + Total(frames - {k})
  }

  lemma {:induction false} TotalRemove(frames: Tracked, k: FrameKey)
    requires k in frames
    ensures Total(frames) == frames[k].bytes + Total(frames - {k})
    decreases frames
  {
    var j :| j in frames.Keys && Total(frames) == frames[j].bytes + Total(frames - {j});
    if j != k {
      TotalRemove(frames - {j}, k);
      TotalRemove(frames - {k}, j);
      assert frames - {j} - {k} == frames - {k} - {j};
    }
  }

  lemma TotalAdd(frames: Tracked, k: FrameKey, e: Entry)
    requires k !in frames
    ensures Total(frames[k := e]) == Total(frames) + e.bytes
  {
    TotalRemove(frames[k := e], k);
    assert frames[k := e] - {k} == frames;
  }

  lemma TotalReplace(frames: Tracked, k: FrameKey, e: Entry)
    requires k in frames && frames[k].bytes == e.bytes
    ensures Total(frames[k := e]) == Total(frames)
  {
    TotalRemove(frames, k);
    TotalRemove(frames[k := e], k);
    assert frames[k := e] - {k} == frames - {k};
  }

  datatype Memory = Memory(limit: Option<nat>, resident: nat, clock: nat, frames: Tracked) {
    predicate OverLimit() { limit.Some? && resident > limit.value }

    predicate IsOldest(k: FrameKey) {
      k in frames && forall j | j in frames :: frames[k].lastUsed <= frames[j].lastUsed
    }

    /** The entry of a key still has the stamp it was chosen with. */
    predicate Untouched(k: FrameKey, stamp: nat) {
      k in frames && frames[k].lastUsed == stamp
    }
  }

  /** `resident` is the sum of the tracked sizes, and stamps are unique. */
  ghost predicate Accounted(m: Memory) {
    && m.resident == Total(m.frames)
    && (forall k | k in m.frames :: m.frames[k].lastUsed <= m.clock)
    && forall j, k | j in m.frames && k in m.frames && j != k :: m.frames[j].lastUsed != m.frames[k].lastUsed
  }

  function Recorded(m: Memory, k: FrameKey, serial: nat, bytes: nat): Memory {
    if k in m.frames then
      m.(clock := m.clock + 1, frames := m.frames[k := m.frames[k].(lastUsed := m.clock + 1)])
    else
      m.(clock := m.clock + 1, resident := m.resident + bytes,
         frames := m.frames[k := Entry(serial, bytes, m.clock + 1)])
  }

  function Removed(m: Memory, k: FrameKey): Memory
    requires k in m.frames && m.frames[k].bytes <= m.resident
  {
    m.(resident := m.resident - m.frames[k].bytes, frames := m.frames - {k})
  }

  function EntriesOf(frames: Tracked, file: nat): Tracked {
    map k | k in frames && k.file == file :: frames[k]
  }

  function EntriesBut(frames: Tracked, file: nat): Tracked {
    map k | k in frames && k.file != file :: frames[k]
  }

  ghost predicate IsForgotten(m: Memory, file: nat, m': Memory) {
    m' == m.(resident := m'.resident, frames := EntriesBut(m.frames, file))
    && m'.resident + Total(EntriesOf(m.frames, file)) == m.resident
  }

  lemma RecordedIsAccounted(m: Memory, k: FrameKey, serial: nat, bytes: nat)
    requires Accounted(m)
    ensures Accounted(Recorded(m, k, serial, bytes))
  {
    hide Total;
    if k in m.frames {
      TotalReplace(m.frames, k, m.frames[k].(lastUsed := m.clock + 1));
    } else {
      TotalAdd(m.frames, k, Entry(serial, bytes, m.clock + 1));
    }
  }

  lemma RemovedIsAccounted(m: Memory, k: FrameKey)
    requires Accounted(m) && k in m.frames
    ensures m.frames[k].bytes <= m.resident && Accounted(Removed(m, k))
  {
    TotalRemove(m.frames, k);
  }

  lemma {:induction false} TotalSplit(frames: Tracked, file: nat)
    ensures Total(frames) == Total(EntriesOf(frames, file)) + Total(EntriesBut(frames, file))
    decreases frames
  {
    if frames.Keys == {} {
      assert EntriesOf(frames, file).Keys == {} && EntriesBut(frames, file).Keys == {};
    } else {
      var k :| k in frames.Keys;
      TotalRemove(frames, k);
      TotalSplit(frames - {k}, file);
      if k.file == file {
        TotalRemove(EntriesOf(frames, file), k);
        assert EntriesOf(frames - {k}, file) == EntriesOf(frames, file) - {k};
        assert EntriesBut(frames - {k}, file) == EntriesBut(frames, file);
      } else {
        TotalRemove(EntriesBut(frames, file), k);
        assert EntriesBut(frames - {k}, file) == EntriesBut(frames, file) - {k};
        assert EntriesOf(frames - {k}, file) == EntriesOf(frames, file);
      }
    }
  }

  lemma ForgottenIsAccounted(m: Memory, file: nat, m': Memory)
    requires Accounted(m) && IsForgotten(m, file, m')
    ensures Accounted(m')
  {
    TotalSplit(m.frames, file);
  }

  /** Entries with stamps from before a change of the record are unchanged by it. */
  ghost predicate KeepsOld(m: Memory, m': Memory) {
    && m.clock <= m'.clock
    && forall k | k in m'.frames && m'.frames[k].lastUsed <= m.clock :: k in m.frames && m.frames[k] == m'.frames[k]
  }

  lemma ChangesKeepOld(m: Memory, k: FrameKey, serial: nat, m': Memory)
    ensures forall bytes: nat :: KeepsOld(m, Recorded(m, k, serial, bytes))
    ensures k in m.frames && m.frames[k].bytes <= m.resident ==> KeepsOld(m, Removed(m, k))
    ensures IsForgotten(m, k.file, m') ==> KeepsOld(m, m')
  {
  }

  /** Above the limit there is always something to evict. */
  lemma OverLimitHasFrames(m: Memory)
    requires Accounted(m) && m.OverLimit()
    ensures exists k :: m.IsOldest(k)
  {
    assert m.frames.Keys != {};
    var k := SomeOldest(m, m.frames.Keys);
    assert m.IsOldest(k);
  }

  lemma {:induction false} SomeOldest(m: Memory, s: set<FrameKey>) returns (k: FrameKey)
    requires s != {} && s <= m.frames.Keys
    ensures k in s && forall j | j in s :: m.frames[k].lastUsed <= m.frames[j].lastUsed
  {
    k :| k in s;
    if s != {k} {
      var j := SomeOldest(m, s - {k});
      if m.frames[j].lastUsed < m.frames[k].lastUsed {
        k := j;
      }
    }
  }

  // ---------------------------------------------------------------------
  // Least recently used.

  /** The record after a list of accesses. */
  function Accessed(m: Memory, ks: seq<FrameKey>, serial: FrameKey -> nat, bytes: FrameKey -> nat): Memory {
    if ks == [] then m
    else
      var k := ks[|ks| - 1];
      Recorded(Accessed(m, ks[..|ks| - 1], serial, bytes), k, serial(k), bytes(k))
  }

  /** The number of accesses up to the last one of a key. */
  function LastAccess(ks: seq<FrameKey>, k: FrameKey): nat {
    if ks == [] then 0 else if ks[|ks| - 1] == k then |ks| else LastAccess(ks[..|ks| - 1], k)
  }

  lemma {:induction false} StampIsLastAccess(m: Memory, ks: seq<FrameKey>, serial: FrameKey -> nat,
                                             bytes: FrameKey -> nat, k: FrameKey)
    ensures var m' := Accessed(m, ks, serial, bytes);
            && m'.clock == m.clock + |ks| && LastAccess(ks, k) <= |ks|
            && (LastAccess(ks, k) > 0 ==> k in m'.frames && m'.frames[k].lastUsed == m.clock + LastAccess(ks, k))
            && (LastAccess(ks, k) == 0 && k in m'.frames ==> k in m.frames && m'.frames[k] == m.frames[k])
  {
    if ks != [] {
      StampIsLastAccess(m, ks[..|ks| - 1], serial, bytes, k);
    }
  }

  /** The oldest frame after any list of accesses: every other tracked frame was accessed
      later, unless neither was accessed and its stamp is newer. */
  lemma OldestIsLeastRecent(m: Memory, ks: seq<FrameKey>, serial: FrameKey -> nat, bytes: FrameKey -> nat,
                            v: FrameKey, k: FrameKey)
    requires Accounted(m)
    requires var m' := Accessed(m, ks, serial, bytes); m'.IsOldest(v) && k in m'.frames && k != v
    ensures LastAccess(ks, v) < LastAccess(ks, k)
            || (LastAccess(ks, v) == LastAccess(ks, k) == 0 && v in m.frames && k in m.frames
                && m.frames[v].lastUsed < m.frames[k].lastUsed)
  {
    hide Accessed, LastAccess, Total;
    StampIsLastAccess(m, ks, serial, bytes, v);
    StampIsLastAccess(m, ks, serial, bytes, k);
    EntriesAreOld(m, v, k);
    LastAccessesDiffer(ks, v, k);
  }

  lemma {:induction false} LastAccessesDiffer(ks: seq<FrameKey>, v: FrameKey, k: FrameKey)
    requires v != k
    ensures LastAccess(ks, v) == LastAccess(ks, k) ==> LastAccess(ks, v) == 0
    ensures LastAccess(ks, v) <= |ks| && LastAccess(ks, k) <= |ks|
  {
    if ks != [] {
      LastAccessesDiffer(ks[..|ks| - 1], v, k);
    }
  }

  lemma EntriesAreOld(m: Memory, v: FrameKey, k: FrameKey)
    requires Accounted(m) && v != k
    ensures v in m.frames ==> m.frames[v].lastUsed <= m.clock
    ensures k in m.frames ==> m.frames[k].lastUsed <= m.clock
    ensures v in m.frames && k in m.frames ==> m.frames[v].lastUsed != m.frames[k].lastUsed
  {
  }

  /** The record behind the cache's mutex. */
  class CacheMemory {
    var limit: Option<nat>
    var resident: nat
    var clock: nat
    var frames: Tracked

    ghost function Value(): Memory
      reads this
    {
      Memory(limit, resident, clock, frames)
    }

    constructor (limit: Option<nat>)
      ensures Value() == Memory(limit, 0, 0, map[]) && Accounted(Value())
    {
      this.limit, resident, clock, frames := limit, 0, 0, map[];
    }

    /** Stamps an access, tracking the frame if it is new. */
    method RecordAccess(k: FrameKey, serial: nat, bytes: nat) returns (over: bool)
      requires Accounted(Value())
      modifies this
      ensures Value() == Recorded(old(Value()), k, serial, bytes) && Accounted(Value())
      ensures over == Value().OverLimit()
    {
      RecordedIsAccounted(Value(), k, serial, bytes);
      clock := clock + 1;
      if k in frames {
        frames := frames[k := frames[k].(lastUsed := clock)];
      } else {
        resident := resident + bytes;
        frames := frames[k := Entry(serial, bytes, clock)];
      }
      over := limit.Some? && resident > limit.value;
    }

    /** The least recently used frame, if the limit is exceeded. */
    method Victim() returns (victim: Option<(FrameKey, Entry)>)
      requires Accounted(Value())
      ensures victim.Some? <==> Value().OverLimit()
      ensures victim.Some? ==> Value().IsOldest(victim.value.0) && frames[victim.value.0] == victim.value.1
    {
      hide Total, Accounted;
      victim := None;
      if limit.None? || resident <= limit.value {
        return;
      }
      OverLimitHasFrames(Value());
      var rest := frames.Keys;
      while rest != {}
        invariant rest <= frames.Keys
        invariant victim.None? <==> rest == frames.Keys
        invariant victim.Some? ==> (
                    && victim.value.0 in frames && frames[victim.value.0] == victim.value.1
                    && forall j | j in frames.Keys - rest :: victim.value.1.lastUsed <= frames[j].lastUsed)
        decreases |rest|
      {
        var k :| k in rest;
        if victim.None? || frames[k].lastUsed < victim.value.1.lastUsed {
          victim := Some((k, frames[k]));
        }
        rest := rest - {k};
      }
    }

    /** Drops an entry unless a newer access touched it. */
    method RemoveUntouched(k: FrameKey, stamp: nat) returns (removed: bool)
      requires Accounted(Value())
      modifies this
      ensures Accounted(Value()) && removed == old(Value()).Untouched(k, stamp)
      ensures old(Value()).Untouched(k, stamp) ==> (
                && old(frames[k].bytes) <= old(resident)
                && Value() == Removed(old(Value()), k))
      ensures !old(Value()).Untouched(k, stamp) ==> Value() == old(Value())
    {
      removed := k in frames && frames[k].lastUsed == stamp;
      if removed {
        RemovedIsAccounted(Value(), k);
        resident := resident - frames[k].bytes;
        frames := frames - {k};
      }
    }

    /** Drops all entries of a file. */
    method ForgetFile(file: nat)
      requires Accounted(Value())
      modifies this
      ensures Accounted(Value()) && IsForgotten(old(Value()), file, Value())
    {
      TotalSplit(frames, file);
      var released := Released(EntriesOf(frames, file));
      resident := resident - released;
      frames := EntriesBut(frames, file);
      ForgottenIsAccounted(old(Value()), file, Value());
    }
  }

  /** The bytes of the entries that go. */
  method Released(entries: Tracked) returns (released: nat)
    ensures released == Total(entries)
  {
    released := 0;
    var rest := entries;
    while rest.Keys != {}
      invariant released + Total(rest) == Total(entries)
      decreases |rest.Keys|
    {
      var k :| k in rest.Keys;
      TotalRemove(rest, k);
      assert (rest - {k}).Keys == rest.Keys - {k};
      released := released + rest[k].bytes;
      rest := rest - {k};
    }
  }
}
