/** The shared frame cache as interleaved steps of its threads. Each step is one
    critical section, or one acquisition or release of a file lock. */
module FrameCache {
  import opened CacheMemories
  import opened Wrappers

  type Frame = seq<nat>

  /** An allocated file: its identity, the frames in memory, and its lock. */
  datatype File = File(serial: nat, diskBacked: bool, cached: seq<Option<Frame>>, readers: set<nat>,
                       writer: Option<nat>)

  datatype Request = Request(file: nat, serial: nat, wanted: seq<nat>)

  datatype Answer = NoAnswer | Failed | Values(serial: nat, wanted: seq<nat>, frames: seq<Frame>)

  /** Where a thread is, and which handles it holds; `over` is whether an access it recorded
      has exceeded the limit. */
  datatype Thread =
    | Idle
    | Ready(r: Request)
    | Reading(r: Request)
    | Touching(r: Request, next: nat, answer: Answer, over: bool)
    | Cold(r: Request)
    | Loading(r: Request)
    | Tracking(r: Request, next: nat, answer: Answer, over: bool)
    | Enforcing(answer: Answer)
    | Chosen(key: FrameKey, serial: nat, stamp: nat, answer: Answer)
    | Stale(key: FrameKey, serial: nat, stamp: nat, answer: Answer)
    | Upgraded(key: FrameKey, serial: nat, stamp: nat, answer: Answer)
    | Evicting(key: FrameKey, serial: nat, stamp: nat, answer: Answer)
    | Forgetting(file: nat)
    | Finished(answer: Answer)
    | Broken

  /** `files` are the allocations by address, `disks` the stored frames by serial. */
  datatype State = State(registry: map<string, nat>, files: map<nat, File>, disks: map<nat, seq<Frame>>,
                         memory: Memory, threads: seq<Thread>)

  /** The file a thread keeps alive. */
  predicate Holds(th: Thread, file: nat) {
    match th
    case Ready(r) => r.file == file
    case Reading(r) => r.file == file
    case Touching(r, _, _, _) => r.file == file
    case Cold(r) => r.file == file
    case Loading(r) => r.file == file
    case Tracking(r, _, _, _) => r.file == file
    case Upgraded(k, _, _, _) => k.file == file
    case Evicting(k, _, _, _) => k.file == file
    case Forgetting(f) => f == file
    case _ => false
  }

  predicate HoldsWeakly(th: Thread, file: nat) {
    (th.Chosen? || th.Stale?) && th.key.file == file
  }

  predicate Reads(th: Thread, file: nat) {
    (th.Reading? || th.Touching?) && th.r.file == file
  }

  predicate Writes(th: Thread, file: nat) {
    ((th.Loading? || th.Tracking?) && th.r.file == file) || (th.Evicting? && th.key.file == file)
  }

  /** The frame is loaded, and the thread has yet to record it. */
  predicate Pending(th: Thread, frame: nat) {
    match th
    case Loading(r) => frame in r.wanted
    case Tracking(r, next, _, _) => next <= |r.wanted| && frame in r.wanted[next..]
    case _ => false
  }

  predicate Registered(s: State, file: nat) {
    exists name :: name in s.registry && s.registry[name] == file
  }

  predicate Live(s: State, file: nat) {
    Registered(s, file) || exists t :: 0 <= t < |s.threads| && Holds(s.threads[t], file)
  }

  // ---------------------------------------------------------------------
  // The invariant.

  predicate FileOk(s: State, f: File) {
    && f.serial in s.disks && |f.cached| == |s.disks[f.serial]|
    && forall i | 0 <= i < |f.cached| && f.cached[i].Some? :: f.cached[i].value == s.disks[f.serial][i]
  }

  predicate FilesOk(s: State) {
    forall a | a in s.files :: FileOk(s, s.files[a])
  }

  predicate RegistryOk(s: State) {
    && (forall name | name in s.registry :: s.registry[name] in s.files)
    && forall n, m | n in s.registry && m in s.registry && n != m :: s.registry[n] != s.registry[m]
  }

  predicate Denotes(s: State, file: nat, serial: nat) {
    file in s.files && s.files[file].serial == serial
  }

  predicate Resident(s: State, k: FrameKey) {
    k.file in s.files && k.frame < |s.files[k.file].cached| && s.files[k.file].cached[k.frame].Some?
  }

  /** A tracked frame is in memory, and its address still denotes the same file. */
  predicate TrackedOk(s: State) {
    forall k | k in s.memory.frames :: Resident(s, k) && Denotes(s, k.file, s.memory.frames[k].serial)
  }

  predicate AnswerOk(s: State, a: Answer) {
    a.Values? ==>
      && a.serial in s.disks && |a.frames| == |a.wanted|
      && forall i | 0 <= i < |a.wanted| ::
        a.wanted[i] < |s.disks[a.serial]| && a.frames[i] == s.disks[a.serial][a.wanted[i]]
  }

  predicate RequestOk(s: State, r: Request) {
    && Denotes(s, r.file, r.serial)
    && forall i | 0 <= i < |r.wanted| :: r.wanted[i] < |s.files[r.file].cached|
  }

  predicate AllResident(s: State, r: Request) {
    forall i | 0 <= i < |r.wanted| :: Resident(s, FrameKey(r.file, r.wanted[i]))
  }

  predicate ThreadOk(s: State, t: nat, th: Thread) {
    match th
    case Ready(r) => RequestOk(s, r)
    case Reading(r) => RequestOk(s, r) && t in s.files[r.file].readers
    case Touching(r, next, a, _) =>
      RequestOk(s, r) && t in s.files[r.file].readers && AllResident(s, r) && next <= |r.wanted| && AnswerOk(s, a)
    case Cold(r) => RequestOk(s, r)
    case Loading(r) => RequestOk(s, r) && s.files[r.file].writer == Some(t)
    case Tracking(r, next, a, _) => RequestOk(s, r) && s.files[r.file].writer == Some(t) && next <= |r.wanted|
      && AnswerOk(s, a)
    case Enforcing(a) => AnswerOk(s, a)
    case Chosen(k, serial, stamp, a) => Denotes(s, k.file, serial) && stamp <= s.memory.clock && AnswerOk(s, a)
    case Stale(k, serial, stamp, a) => Denotes(s, k.file, serial) && !Live(s, k.file) && AnswerOk(s, a)
    case Upgraded(k, serial, stamp, a) => Denotes(s, k.file, serial) && stamp <= s.memory.clock && AnswerOk(s, a)
    case Evicting(k, serial, stamp, a) =>
      Denotes(s, k.file, serial) && s.files[k.file].writer == Some(t) && stamp <= s.memory.clock && AnswerOk(s, a)
    case Forgetting(file) => file in s.files && !Registered(s, file)
    case Finished(a) => AnswerOk(s, a)
    case _ => true
  }

  predicate ThreadsOk(s: State) {
    forall t | 0 <= t < |s.threads| :: ThreadOk(s, t, s.threads[t])
  }

  /** Locks are held by the threads that are in their critical sections. */
  predicate LockOk(s: State, a: nat)
    requires a in s.files
  {
    var f := s.files[a];
    && (f.writer.Some? ==> f.readers == {} && f.writer.value < |s.threads| && Writes(s.threads[f.writer.value], a))
    && forall t | t in f.readers :: t < |s.threads| && Reads(s.threads[t], a)
  }

  predicate LocksOk(s: State) {
    forall a | a in s.files :: LockOk(s, a)
  }

  predicate FrameTracked(s: State, a: nat, i: nat)
    requires a in s.files && LockOk(s, a)
  {
    FrameKey(a, i) in s.memory.frames
    || (s.files[a].writer.Some? && Pending(s.threads[s.files[a].writer.value], i))
  }

  /** Frames of registered files are tracked, or about to be. */
  ghost predicate RegisteredOk(s: State)
    requires LocksOk(s)
  {
    forall a: nat, i: nat | a in s.files && Registered(s, a) && Resident(s, FrameKey(a, i)) :: FrameTracked(s, a, i)
  }

  ghost predicate Inv(s: State) {
    && Accounted(s.memory) && FilesOk(s) && RegistryOk(s) && TrackedOk(s) && ThreadsOk(s) && LocksOk(s)
    && RegisteredOk(s)
  }

  // ---------------------------------------------------------------------
  // Steps.

  datatype Action =
    | Lookup(name: string, wanted: seq<nat>)
    | LoadFile(name: string, file: nat, serial: nat, diskBacked: bool, content: seq<Frame>)
    | StartRead
    | ReadWarm
    | ReadCold
    | Touch
    | FinishWarm(enforce: bool)
    | StartWrite
    | LoadFrame(frame: nat)
    | Read(success: bool)
    | Track
    | FinishCold(enforce: bool)
    | Choose(key: FrameKey)
    | Upgrade
    | DropStale
    | LockVictim
    | Evict
    | Insert(name: string, file: nat, serial: nat, diskBacked: bool, content: seq<Frame>)
    | Remove(name: string)
    | Forget
    | Resize(limit: nat)
    | Return
    | Free(file: nat)

  function SetThread(s: State, t: nat, th: Thread): State
    requires t < |s.threads|
  {
    s.(threads := s.threads[t := th])
  }

  function SetFile(s: State, a: nat, f: File): State {
    s.(files := s.files[a := f])
  }

  function NewFile(serial: nat, diskBacked: bool, content: seq<Frame>): File {
    File(serial, diskBacked, seq(|content|, _ => None), {}, None)
  }

  /** A new cold file at an address that is not in use, under a name. */
  function Registering(s: State, name: string, file: nat, serial: nat, diskBacked: bool, content: seq<Frame>): State {
    s.(registry := s.registry[name := file],
       files := s.files[file := NewFile(serial, diskBacked, content)],
       disks := s.disks[serial := content])
  }

  function AnswerOf(s: State, r: Request): Answer
    requires AllResident(s, r)
  {
    Values(r.serial, r.wanted, seq(|r.wanted|, i requires 0 <= i < |r.wanted| =>
             assert Resident(s, FrameKey(r.file, r.wanted[i])); s.files[r.file].cached[r.wanted[i]].value))
  }

  function After(enforce: bool, a: Answer): Thread {
    if enforce then Enforcing(a) else Finished(a)
  }

  function FrameBytes(s: State, k: FrameKey): nat
    requires k.file in s.files && k.frame < |s.files[k.file].cached| && s.files[k.file].serial in s.disks
    requires |s.disks[s.files[k.file].serial]| == |s.files[k.file].cached|
  {
    2 * |s.disks[s.files[k.file].serial][k.frame]|
  }

  function Released(f: File, t: nat): File {
    f.(readers := f.readers - {t}, writer := if f.writer == Some(t) then None else f.writer)
  }

  function Loaded(s: State, f: File, i: nat): File
    requires FileOk(s, f) && i < |f.cached|
  {
    f.(cached := f.cached[i := Some(s.disks[f.serial][i])])
  }

  function Dropped(f: File, i: nat): File
    requires i < |f.cached|
  {
    f.(cached := f.cached[i := None])
  }

  /** What thread `t` does in one step. */
  ghost predicate Step(s: State, t: nat, act: Action, s': State)
    requires Inv(s) && t < |s.threads|
  {
    var th := s.threads[t];
    assert ThreadOk(s, t, th);
    match act
    case Lookup(name, wanted) =>
      && th.Idle? && name in s.registry
      && (forall i | 0 <= i < |wanted| :: wanted[i] < |s.files[s.registry[name]].cached|)
      && s' == SetThread(s, t, Ready(Request(s.registry[name], s.files[s.registry[name]].serial, wanted)))
    case LoadFile(name, file, serial, diskBacked, content) =>
      && th.Idle? && name !in s.registry && file !in s.files && serial !in s.disks
      && s' == Registering(s, name, file, serial, diskBacked, content)
    case StartRead =>
      && th.Ready? && s.files[th.r.file].writer.None?
      && var f := s.files[th.r.file];
         s' == SetThread(SetFile(s, th.r.file, f.(readers := f.readers + {t})), t, Reading(th.r))
    case ReadWarm =>
      th.Reading? && AllResident(s, th.r) && s' == SetThread(s, t, Touching(th.r, 0, AnswerOf(s, th.r), false))
    case ReadCold =>
      && th.Reading? && !AllResident(s, th.r)
      && s' == SetThread(SetFile(s, th.r.file, Released(s.files[th.r.file], t)), t, Cold(th.r))
    case Touch =>
      && th.Touching? && th.next < |th.r.wanted|
      && var k := FrameKey(th.r.file, th.r.wanted[th.next]);
         assert FileOk(s, s.files[k.file]);
         var memory := Recorded(s.memory, k, th.r.serial, FrameBytes(s, k));
         s' == SetThread(s.(memory := memory), t,
                         Touching(th.r, th.next + 1, th.answer, th.over || memory.OverLimit()))
    case FinishWarm(enforce) =>
      && th.Touching? && th.next == |th.r.wanted| && (th.over ==> enforce)
      && s' == SetThread(SetFile(s, th.r.file, Released(s.files[th.r.file], t)), t, After(enforce, th.answer))
    case StartWrite =>
      && th.Cold? && s.files[th.r.file].writer.None? && s.files[th.r.file].readers == {}
      && s' == SetThread(SetFile(s, th.r.file, s.files[th.r.file].(writer := Some(t))), t, Loading(th.r))
    case LoadFrame(i) =>
      && th.Loading? && i in th.r.wanted && s.files[th.r.file].cached[i].None?
      && (assert FileOk(s, s.files[th.r.file]);
          s' == SetFile(s, th.r.file, Loaded(s, s.files[th.r.file], i)))
    case Read(success) =>
      && th.Loading? && (success ==> AllResident(s, th.r))
      && s' == SetThread(s, t, Tracking(th.r, 0, if success then AnswerOf(s, th.r) else Failed, false))
    case Track =>
      && th.Tracking? && th.next < |th.r.wanted|
      && var k := FrameKey(th.r.file, th.r.wanted[th.next]);
         assert FileOk(s, s.files[k.file]);
         var memory := if Resident(s, k) then Recorded(s.memory, k, th.r.serial, FrameBytes(s, k)) else s.memory;
         s' == SetThread(s.(memory := memory), t,
                         Tracking(th.r, th.next + 1, th.answer, th.over || (Resident(s, k) && memory.OverLimit())))
    case FinishCold(enforce) =>
      && th.Tracking? && th.next == |th.r.wanted| && (th.over ==> enforce)
      && s' == SetThread(SetFile(s, th.r.file, Released(s.files[th.r.file], t)), t, After(enforce, th.answer))
    case Choose(key) =>
      && th.Enforcing?
      && if !s.memory.OverLimit() then s' == SetThread(s, t, Finished(th.answer))
         else if s.memory.frames == map[] then s' == SetThread(s, t, Broken)
         else
           && s.memory.IsOldest(key)
           && s' == SetThread(s, t, Chosen(key, s.memory.frames[key].serial, s.memory.frames[key].lastUsed, th.answer))
    case Upgrade =>
      && th.Chosen?
      && s' == SetThread(s, t, if Live(s, th.key.file) then Upgraded(th.key, th.serial, th.stamp, th.answer)
                               else Stale(th.key, th.serial, th.stamp, th.answer))
    case DropStale =>
      && th.Stale?
      && s' == SetThread(s.(memory := if s.memory.Untouched(th.key, th.stamp)
                                      then (RemovedIsAccounted(s.memory, th.key); Removed(s.memory, th.key))
                                      else s.memory), t, Enforcing(th.answer))
    case LockVictim =>
      && th.Upgraded? && s.files[th.key.file].writer.None? && s.files[th.key.file].readers == {}
      && s' == SetThread(SetFile(s, th.key.file, s.files[th.key.file].(writer := Some(t))), t,
                         Evicting(th.key, th.serial, th.stamp, th.answer))
    case Evict =>
      && th.Evicting?
      && var f := s.files[th.key.file];
         if !s.memory.Untouched(th.key, th.stamp) then
           s' == SetThread(SetFile(s, th.key.file, Released(f, t)), t, Enforcing(th.answer))
         else if !f.diskBacked || !Resident(s, th.key) then
           s' == SetThread(SetFile(s, th.key.file, Released(f, t)), t, Broken)
         else
           RemovedIsAccounted(s.memory, th.key);
           s' == SetThread(SetFile(s, th.key.file, Released(Dropped(f, th.key.frame), t))
                             .(memory := Removed(s.memory, th.key)), t, Enforcing(th.answer))
    case Insert(name, file, serial, diskBacked, content) =>
      && th.Idle? && file !in s.files && serial !in s.disks
      && s' == SetThread(Registering(s, name, file, serial, diskBacked, content), t,
                         if name in s.registry then Forgetting(s.registry[name]) else Idle)
    case Remove(name) =>
      && th.Idle? && name in s.registry
      && s' == SetThread(s.(registry := s.registry - {name}), t, Forgetting(s.registry[name]))
    case Forget =>
      && th.Forgetting? && IsForgotten(s.memory, th.file, s'.memory)
      && s' == SetThread(s.(memory := s'.memory), t, Idle)
    case Resize(limit) =>
      th.Idle? && s' == SetThread(s.(memory := s.memory.(limit := Some(limit))), t, Enforcing(NoAnswer))
    case Return =>
      th.Finished? && s' == SetThread(s, t, Idle)
    case Free(file) =>
      && file in s.files && !Live(s, file)
      && (forall k | k in s.memory.frames :: k.file != file)
      && (forall u | 0 <= u < |s.threads| :: !HoldsWeakly(s.threads[u], file))
      && s' == s.(files := s.files - {file})
  }

  // ---------------------------------------------------------------------
  // The other threads.

  predicate SameOthers(s: State, s': State, t: nat) {
    |s'.threads| == |s.threads| && forall u | 0 <= u < |s.threads| && u != t :: s'.threads[u] == s.threads[u]
  }

  predicate FilePersists(s: State, s': State, t: nat, a: nat)
    requires a in s.files && a in s'.files
  {
    var f, f' := s.files[a], s'.files[a];
    && f'.serial == f.serial && |f'.cached| == |f.cached|
    && f.readers - {t} <= f'.readers
    && (f.writer.Some? && f.writer != Some(t) ==> f'.writer == f.writer)
    && (f.readers - {t} != {} ==> forall i | 0 <= i < |f.cached| && f.cached[i].Some? :: f'.cached[i].Some?)
    && (Live(s', a) ==> Live(s, a))
    && (Registered(s', a) ==> Registered(s, a))
  }

  /** What a step of `t` leaves alone. */
  predicate Persists(s: State, s': State, t: nat) {
    && (forall a | a in s.files ::
          if a in s'.files then FilePersists(s, s', t, a)
          else forall u | 0 <= u < |s.threads| :: !Holds(s.threads[u], a) && !HoldsWeakly(s.threads[u], a))
    && (forall serial | serial in s.disks :: serial in s'.disks && s'.disks[serial] == s.disks[serial])
    && s.memory.clock <= s'.memory.clock
  }

  lemma AnswerStays(s: State, s': State, a: Answer)
    requires AnswerOk(s, a)
    requires forall serial | serial in s.disks :: serial in s'.disks && s'.disks[serial] == s.disks[serial]
    ensures AnswerOk(s', a)
  {
  }

  lemma OtherStays(s: State, s': State, t: nat, u: nat)
    requires ThreadsOk(s) && SameOthers(s, s', t) && Persists(s, s', t) && u < |s.threads| && u != t
    ensures ThreadOk(s', u, s'.threads[u])
  {
    hide Live, Registered, AnswerOk;
    var th := s.threads[u];
    assert ThreadOk(s, u, th);
    match th
    case Touching(r, next, a, _) =>
      assert Holds(th, r.file);
      AnswerStays(s, s', a);
      assert u in s.files[r.file].readers - {t};
      forall i | 0 <= i < |r.wanted| ensures Resident(s', FrameKey(r.file, r.wanted[i])) {
        assert Resident(s, FrameKey(r.file, r.wanted[i]));
      }
    case Ready(r) => assert Holds(th, r.file);
    case Reading(r) => assert Holds(th, r.file);
    case Cold(r) => assert Holds(th, r.file);
    case Loading(r) => assert Holds(th, r.file);
    case Tracking(r, next, a, _) =>
      assert Holds(th, r.file);
      AnswerStays(s, s', a);
    case Enforcing(a) => AnswerStays(s, s', a);
    case Finished(a) => AnswerStays(s, s', a);
    case Chosen(k, _, _, a) =>
      assert HoldsWeakly(th, k.file);
      AnswerStays(s, s', a);
    case Stale(k, _, _, a) =>
      assert HoldsWeakly(th, k.file);
      AnswerStays(s, s', a);
    case Upgraded(k, _, _, a) =>
      assert Holds(th, k.file);
      AnswerStays(s, s', a);
    case Evicting(k, _, _, a) =>
      assert Holds(th, k.file);
      AnswerStays(s, s', a);
    case Forgetting(file) => assert Holds(th, file);
    case _ =>
  }

  lemma ThreadsStayOk(s: State, s': State, t: nat)
    requires ThreadsOk(s) && SameOthers(s, s', t) && Persists(s, s', t) && t < |s.threads|
    requires ThreadOk(s', t, s'.threads[t])
    ensures ThreadsOk(s')
  {
    hide ThreadOk, Persists;
    forall u | 0 <= u < |s'.threads| ensures ThreadOk(s', u, s'.threads[u]) {
      if u != t {
        OtherStays(s, s', t, u);
      }
    }
  }

  lemma LockStays(s: State, s': State, t: nat, a: nat)
    requires t < |s.threads| && SameOthers(s, s', t) && a in s.files && a in s'.files && LockOk(s, a)
    requires s'.files[a].readers == s.files[a].readers && s'.files[a].writer == s.files[a].writer
    requires Reads(s.threads[t], a) ==> Reads(s'.threads[t], a)
    requires Writes(s.threads[t], a) ==> Writes(s'.threads[t], a)
    ensures LockOk(s', a)
  {
  }

  lemma FrameStaysTracked(s: State, s': State, t: nat, a: nat, i: nat)
    requires t < |s.threads| && SameOthers(s, s', t) && a in s.files && a in s'.files && LockOk(s, a) && LockOk(s', a)
    requires FrameTracked(s, a, i)
    requires FrameKey(a, i) in s.memory.frames ==> FrameKey(a, i) in s'.memory.frames
    requires s.files[a].writer.Some? && s.files[a].writer != Some(t) ==> s'.files[a].writer == s.files[a].writer
    requires s.files[a].writer == Some(t) && Pending(s.threads[t], i) ==>
               FrameKey(a, i) in s'.memory.frames || (s'.files[a].writer == Some(t) && Pending(s'.threads[t], i))
    ensures FrameTracked(s', a, i)
  {
  }

  lemma LiveOfThread(s: State, t: nat, th: Thread, a: nat)
    requires t < |s.threads| && Holds(th, a) ==> Live(s, a)
    ensures t < |s.threads| ==> (Live(SetThread(s, t, th), a) ==> Live(s, a))
  {
    if t < |s.threads| && Live(SetThread(s, t, th), a) && !Registered(s, a) {
      var s' := SetThread(s, t, th);
      var u :| 0 <= u < |s'.threads| && Holds(s'.threads[u], a);
      if u != t {
        assert Holds(s.threads[u], a);
      }
    }
  }

  // ---------------------------------------------------------------------
  // Kinds of steps.

  /** A thread moves on, keeping its locks, and updates the accounting. */
  lemma MemoryMoves(s: State, t: nat, m: Memory, th': Thread)
    requires Inv(s) && t < |s.threads|
    requires var s' := SetThread(s.(memory := m), t, th');
             Accounted(m) && s.memory.clock <= m.clock && TrackedOk(s') && ThreadOk(s', t, th')
    requires forall a :: Reads(s.threads[t], a) ==> Reads(th', a)
    requires forall a :: Writes(s.threads[t], a) ==> Writes(th', a)
    requires forall a | a in s.files && Holds(th', a) :: Live(s, a)
    requires forall k | k in s.memory.frames && Registered(s, k.file) :: k in m.frames
    requires forall a: nat, i: nat | Writes(s.threads[t], a) && Pending(s.threads[t], i)
             && Resident(s, FrameKey(a, i)) ::
               FrameKey(a, i) in m.frames || Pending(th', i)
    ensures Inv(SetThread(s.(memory := m), t, th'))
  {
    hide Accounted, ThreadOk, Live, Pending, Reads, Writes, Holds, TrackedOk;
    var s' := SetThread(s.(memory := m), t, th');
    forall a | a in s.files ensures FilePersists(s, s', t, a) {
      LiveOfThread(s, t, th', a);
      LiveIgnoresMemory(s, s.(memory := m), a);
      LiveIgnoresMemory(SetThread(s, t, th'), s', a);
    }
    ThreadsStayOk(s, s', t);
    forall a | a in s'.files ensures LockOk(s', a) {
      LockStays(s, s', t, a);
    }
    forall a: nat, i: nat | a in s'.files && Registered(s', a) && Resident(s', FrameKey(a, i))
      ensures FrameTracked(s', a, i)
    {
      assert Registered(s, a) && Resident(s, FrameKey(a, i));
      assert LockOk(s, a) && LockOk(s', a);
      FrameStaysTracked(s, s', t, a, i);
    }
  }

  lemma LiveIgnoresMemory(s: State, s': State, a: nat)
    requires s' == s.(memory := s'.memory)
    ensures Live(s', a) == Live(s, a)
  {
  }

  /** A thread moves on, keeping its locks and its duties. */
  lemma ThreadMoves(s: State, t: nat, th': Thread)
    requires Inv(s) && t < |s.threads|
    requires ThreadOk(SetThread(s, t, th'), t, th')
    requires forall a :: Reads(s.threads[t], a) ==> Reads(th', a)
    requires forall a :: Writes(s.threads[t], a) ==> Writes(th', a)
    requires forall i: nat :: Pending(s.threads[t], i) ==> Pending(th', i)
    requires forall a | a in s.files && Holds(th', a) :: Live(s, a)
    ensures Inv(SetThread(s, t, th'))
  {
    hide Accounted, ThreadOk, Live, Pending, Reads, Writes, Holds;
    assert s.(memory := s.memory) == s;
    MemoryMoves(s, t, s.memory, th');
  }

  /** A thread acquires or releases the lock of a file. */
  lemma LockMoves(s: State, t: nat, a: nat, f: File, th': Thread)
    requires Inv(s) && t < |s.threads| && a in s.files
    requires f == s.files[a].(readers := f.readers, writer := f.writer)
    requires s.files[a].readers - {t} <= f.readers
    requires s.files[a].writer.Some? && s.files[a].writer != Some(t) ==> f.writer == s.files[a].writer
    requires ThreadOk(SetThread(SetFile(s, a, f), t, th'), t, th') && LockOk(SetThread(SetFile(s, a, f), t, th'), a)
    requires forall b | b != a :: Reads(s.threads[t], b) ==> Reads(th', b)
    requires forall b | b != a :: Writes(s.threads[t], b) ==> Writes(th', b)
    requires forall b | b in s.files && Holds(th', b) :: Live(s, b)
    requires forall i: nat :: !Pending(s.threads[t], i)
    ensures Inv(SetThread(SetFile(s, a, f), t, th'))
  {
    hide Accounted, ThreadOk, Live, Pending, Reads, Writes, Holds, FilesOk, RegistryOk, TrackedOk, Registered, Persists;
    var s' := SetThread(SetFile(s, a, f), t, th');
    ContentsKept(s, s');
    forall b | b in s.files ensures FilePersists(s, s', t, b) {
      LiveOfThread(s, t, th', b);
      LiveIgnoresFiles(SetThread(s, t, th'), s', b);
      RegisteredKept(s, s', b);
    }
    AllPersist(s, s', t);
    ThreadsStayOk(s, s', t);
    forall b | b in s'.files ensures LockOk(s', b) {
      if b != a {
        LockStays(s, s', t, b);
      }
    }
    forall b: nat, i: nat | b in s'.files && Registered(s', b) && Resident(s', FrameKey(b, i))
      ensures FrameTracked(s', b, i)
    {
      RegisteredKept(s, s', b);
      assert Resident(s, FrameKey(b, i));
      assert LockOk(s, b) && LockOk(s', b);
      FrameStaysTracked(s, s', t, b, i);
    }
  }

  predicate SameContents(s: State, s': State) {
    && s'.registry == s.registry && s'.disks == s.disks && s'.memory == s.memory && s'.files.Keys == s.files.Keys
    && forall a | a in s.files :: s'.files[a].serial == s.files[a].serial && s'.files[a].cached == s.files[a].cached
  }

  lemma ContentsKept(s: State, s': State)
    requires SameContents(s, s') && FilesOk(s) && RegistryOk(s) && TrackedOk(s)
    ensures FilesOk(s') && RegistryOk(s') && TrackedOk(s')
  {
    forall a | a in s'.files ensures FileOk(s', s'.files[a]) {
      assert FileOk(s, s.files[a]);
    }
    forall k | k in s'.memory.frames ensures Resident(s', k) && Denotes(s', k.file, s'.memory.frames[k].serial) {
      assert Resident(s, k);
    }
  }

  lemma RegisteredKept(s: State, s': State, a: nat)
    requires s'.registry == s.registry
    ensures Registered(s', a) == Registered(s, a)
  {
  }

  lemma AllPersist(s: State, s': State, t: nat)
    requires s'.files.Keys == s.files.Keys && s'.disks == s.disks && s.memory.clock <= s'.memory.clock
    requires forall a | a in s.files :: FilePersists(s, s', t, a)
    ensures Persists(s, s', t)
  {
  }

  lemma LiveIgnoresFiles(s: State, s': State, a: nat)
    requires s' == s.(files := s'.files)
    ensures Live(s', a) == Live(s, a)
  {
  }

  // ---------------------------------------------------------------------
  // Every step keeps the invariant.

  lemma OldestIsDenoted(s: State, k: FrameKey)
    requires Accounted(s.memory) && TrackedOk(s) && k in s.memory.frames
    ensures Denotes(s, k.file, s.memory.frames[k].serial) && s.memory.frames[k].lastUsed <= s.memory.clock
  {
  }

  lemma KeepLookup(s: State, t: nat, act: Action, s': State)
    requires Inv(s) && t < |s.threads| && Step(s, t, act, s') && act.Lookup?
    ensures Inv(s')
  {
    hide Accounted, FilesOk, LocksOk, RegisteredOk, TrackedOk;
    assert Registered(s, s.registry[act.name]);
    ThreadMoves(s, t, s'.threads[t]);
  }

  lemma AnswerIsStored(s: State, r: Request)
    requires FilesOk(s) && RequestOk(s, r) && AllResident(s, r)
    ensures AnswerOk(s, AnswerOf(s, r))
  {
    assert FileOk(s, s.files[r.file]);
    forall i | 0 <= i < |r.wanted| ensures Resident(s, FrameKey(r.file, r.wanted[i])) {
    }
  }

  lemma KeepReads(s: State, t: nat, act: Action, s': State)
    requires Inv(s) && t < |s.threads| && Step(s, t, act, s') && (act.ReadWarm? || act.Read?)
    ensures Inv(s')
  {
    hide Accounted, FilesOk, LocksOk, RegisteredOk, TrackedOk, RegistryOk, AnswerOf, AllResident;
    var th := s.threads[t];
    assert ThreadOk(s, t, th) && Live(s, th.r.file);
    if AllResident(s, th.r) {
      AnswerIsStored(s, th.r);
      AnswerStays(s, s', AnswerOf(s, th.r));
      ResidentStays(s, s', th.r);
    }
    if act.Read? {
      assert th.r.wanted[0..] == th.r.wanted;
    }
    ThreadMoves(s, t, s'.threads[t]);
  }

  lemma ResidentStays(s: State, s': State, r: Request)
    requires AllResident(s, r) && s'.files == s.files
    ensures AllResident(s', r)
  {
    forall i | 0 <= i < |r.wanted| ensures Resident(s', FrameKey(r.file, r.wanted[i])) {
      assert Resident(s, FrameKey(r.file, r.wanted[i]));
    }
  }

  lemma KeepChoose(s: State, t: nat, act: Action, s': State)
    requires Inv(s) && t < |s.threads| && Step(s, t, act, s') && act.Choose?
    ensures Inv(s')
  {
    hide Accounted, FilesOk, LocksOk, RegisteredOk, TrackedOk, RegistryOk, AnswerOk;
    var th := s.threads[t];
    assert ThreadOk(s, t, th);
    AnswerStays(s, s', th.answer);
    if s'.threads[t].Chosen? {
      OldestIsDenoted(s, act.key);
    }
    ThreadMoves(s, t, s'.threads[t]);
  }

  lemma KeepUpgrade(s: State, t: nat, act: Action, s': State)
    requires Inv(s) && t < |s.threads| && Step(s, t, act, s') && (act.Upgrade? || act.Return?)
    ensures Inv(s')
  {
    hide Accounted, FilesOk, LocksOk, RegisteredOk, TrackedOk, RegistryOk, AnswerOk, Live;
    var th := s.threads[t];
    assert ThreadOk(s, t, th);
    AnswerStays(s, s', th.answer);
    if act.Upgrade? {
      LiveOfThread(s, t, s'.threads[t], th.key.file);
    }
    ThreadMoves(s, t, s'.threads[t]);
  }

  lemma KeepAcquire(s: State, t: nat, act: Action, s': State)
    requires Inv(s) && t < |s.threads| && Step(s, t, act, s') && (act.StartRead? || act.StartWrite?)
    ensures Inv(s')
  {
    hide Accounted, FilesOk, RegisteredOk, TrackedOk, RegistryOk, LocksOk;
    var th := s.threads[t];
    assert ThreadOk(s, t, th) && Live(s, th.r.file);
    var a := th.r.file;
    assert LockOk(s, a) by { LockOf(s, a); }
    LockMoves(s, t, a, s'.files[a], s'.threads[t]);
  }

  lemma LockOf(s: State, a: nat)
    requires LocksOk(s) && a in s.files
    ensures LockOk(s, a)
  {
  }

  lemma KeepRelease(s: State, t: nat, act: Action, s': State)
    requires Inv(s) && t < |s.threads| && Step(s, t, act, s') && (act.ReadCold? || act.FinishWarm? || act.FinishCold?)
    ensures Inv(s')
  {
    hide Accounted, FilesOk, RegisteredOk, TrackedOk, RegistryOk, LocksOk, AnswerOk, AllResident;
    var th := s.threads[t];
    assert ThreadOk(s, t, th) && Live(s, th.r.file);
    var a := th.r.file;
    LockOf(s, a);
    if !act.ReadCold? {
      AnswerStays(s, s', th.answer);
    }
    LockMoves(s, t, a, s'.files[a], s'.threads[t]);
  }

  lemma KeepLockVictim(s: State, t: nat, act: Action, s': State)
    requires Inv(s) && t < |s.threads| && Step(s, t, act, s') && act.LockVictim?
    ensures Inv(s')
  {
    hide Accounted, FilesOk, RegisteredOk, TrackedOk, RegistryOk, LocksOk, AnswerOk;
    var th := s.threads[t];
    assert ThreadOk(s, t, th) && Live(s, th.key.file);
    LockOf(s, th.key.file);
    AnswerStays(s, s', th.answer);
    LockMoves(s, t, th.key.file, s'.files[th.key.file], s'.threads[t]);
  }

  lemma RecordedTracks(s: State, k: FrameKey, serial: nat, bytes: nat, t: nat, th': Thread)
    requires Accounted(s.memory) && TrackedOk(s) && Resident(s, k) && Denotes(s, k.file, serial) && t < |s.threads|
    ensures Accounted(Recorded(s.memory, k, serial, bytes))
    ensures TrackedOk(SetThread(s.(memory := Recorded(s.memory, k, serial, bytes)), t, th'))
    ensures k in Recorded(s.memory, k, serial, bytes).frames
    ensures s.memory.frames.Keys <= Recorded(s.memory, k, serial, bytes).frames.Keys
    ensures s.memory.clock <= Recorded(s.memory, k, serial, bytes).clock
  {
    RecordedIsAccounted(s.memory, k, serial, bytes);
  }

  lemma KeepTouch(s: State, t: nat, act: Action, s': State)
    requires Inv(s) && t < |s.threads| && Step(s, t, act, s') && act.Touch?
    ensures Inv(s')
  {
    hide Accounted, RegisteredOk, TrackedOk, RegistryOk, LocksOk, AnswerOk, Recorded;
    var th := s.threads[t];
    assert ThreadOk(s, t, th) && Live(s, th.r.file);
    var k := FrameKey(th.r.file, th.r.wanted[th.next]);
    assert FileOk(s, s.files[k.file]) && Resident(s, k);
    RecordedTracks(s, k, th.r.serial, FrameBytes(s, k), t, s'.threads[t]);
    AnswerStays(s, s', th.answer);
    ResidentStays(s, s', th.r);
    MemoryMoves(s, t, s'.memory, s'.threads[t]);
  }

  lemma NextPending(r: Request, next: nat, i: nat)
    requires next < |r.wanted| && i in r.wanted[next..]
    ensures i == r.wanted[next] || i in r.wanted[next + 1..]
  {
    assert r.wanted[next..] == [r.wanted[next]] + r.wanted[next + 1..];
  }

  lemma KeepTrack(s: State, t: nat, act: Action, s': State)
    requires Inv(s) && t < |s.threads| && Step(s, t, act, s') && act.Track?
    ensures Inv(s')
  {
    hide Accounted, RegisteredOk, TrackedOk, RegistryOk, LocksOk, AnswerOk, Recorded;
    var th := s.threads[t];
    assert ThreadOk(s, t, th) && Live(s, th.r.file);
    var k := FrameKey(th.r.file, th.r.wanted[th.next]);
    assert FileOk(s, s.files[k.file]);
    if Resident(s, k) {
      RecordedTracks(s, k, th.r.serial, FrameBytes(s, k), t, s'.threads[t]);
    } else {
      SameTracked(s, s');
    }
    AnswerStays(s, s', th.answer);
    forall a: nat, i: nat | Writes(th, a) && Pending(th, i) && Resident(s, FrameKey(a, i))
      ensures FrameKey(a, i) in s'.memory.frames || Pending(s'.threads[t], i)
    {
      NextPending(th.r, th.next, i);
    }
    MemoryMoves(s, t, s'.memory, s'.threads[t]);
  }

  lemma SameTracked(s: State, s': State)
    requires TrackedOk(s) && s'.files == s.files
    requires s'.memory.frames.Keys <= s.memory.frames.Keys
    requires forall k | k in s'.memory.frames :: s'.memory.frames[k] == s.memory.frames[k]
    ensures TrackedOk(s')
  {
  }

  lemma KeepDropStale(s: State, t: nat, act: Action, s': State)
    requires Inv(s) && t < |s.threads| && Step(s, t, act, s') && act.DropStale?
    ensures Inv(s')
  {
    hide Accounted, RegisteredOk, TrackedOk, RegistryOk, LocksOk, AnswerOk;
    var th := s.threads[t];
    assert ThreadOk(s, t, th);
    if s.memory.Untouched(th.key, th.stamp) {
      RemovedIsAccounted(s.memory, th.key);
    }
    SameTracked(s, s');
    AnswerStays(s, s', th.answer);
    MemoryMoves(s, t, s'.memory, s'.threads[t]);
  }

  lemma KeepForget(s: State, t: nat, act: Action, s': State)
    requires Inv(s) && t < |s.threads| && Step(s, t, act, s') && (act.Forget? || act.Resize?)
    ensures Inv(s')
  {
    hide Accounted, RegisteredOk, TrackedOk, RegistryOk, LocksOk, FilesOk;
    var th := s.threads[t];
    assert ThreadOk(s, t, th);
    if act.Forget? {
      ForgottenIsAccounted(s.memory, th.file, s'.memory);
    } else {
      LimitIsFree(s.memory, act.limit);
    }
    SameTracked(s, s');
    MemoryMoves(s, t, s'.memory, s'.threads[t]);
  }

  lemma LimitIsFree(m: Memory, limit: nat)
    requires Accounted(m)
    ensures Accounted(m.(limit := Some(limit)))
  {
  }

  lemma KeepLoadFrame(s: State, t: nat, act: Action, s': State)
    requires Inv(s) && t < |s.threads| && Step(s, t, act, s') && act.LoadFrame?
    ensures Inv(s')
  {
    hide Accounted, ThreadOk, RegistryOk, Live;
    var th := s.threads[t];
    var a := th.r.file;
    assert RequestOk(s, th.r) && s.files[a].writer == Some(t) by { LoadingFacts(s, t); }
    LockOf(s, a);
    assert FileOk(s, s.files[a]);
    assert SetThread(s', t, th) == s';
    forall b | b in s.files ensures FilePersists(s, s', |s.threads|, b) {
      LiveIgnoresFiles(s, s', b);
      RegisteredKept(s, s', b);
    }
    AllPersist(s, s', |s.threads|);
    forall u | 0 <= u < |s'.threads| ensures ThreadOk(s', u, s'.threads[u]) {
      OtherStays(s, s', |s.threads|, u);
    }
    forall b | b in s'.files ensures LockOk(s', b) {
      LockStays(s, s', t, b);
    }
    forall b: nat, i: nat | b in s'.files && Registered(s', b) && Resident(s', FrameKey(b, i))
      ensures FrameTracked(s', b, i)
    {
      LoadedIsTracked(s, t, act, s', b, i);
    }
    GrownKeepsTracked(s, s', a, act.frame);
    SameRegistry(s, s');
  }

  lemma LoadedIsTracked(s: State, t: nat, act: Action, s': State, b: nat, i: nat)
    requires Inv(s) && t < |s.threads| && Step(s, t, act, s') && act.LoadFrame?
    requires b in s'.files && Registered(s', b) && Resident(s', FrameKey(b, i)) && LockOk(s', b)
    ensures FrameTracked(s', b, i)
  {
    hide Accounted, ThreadOk, RegistryOk, Live;
    var a := s.threads[t].r.file;
    assert RequestOk(s, s.threads[t].r) && s.files[a].writer == Some(t) by { LoadingFacts(s, t); }
    assert FileOk(s, s.files[a]);
    RegisteredKept(s, s', b);
    assert LockOk(s, b);
    if b != a || i != act.frame {
      assert Resident(s, FrameKey(b, i));
      FrameStaysTracked(s, s', t, b, i);
    }
  }

  lemma LoadingFacts(s: State, t: nat)
    requires ThreadsOk(s) && t < |s.threads| && s.threads[t].Loading?
    ensures RequestOk(s, s.threads[t].r) && s.files[s.threads[t].r.file].writer == Some(t)
  {
    assert ThreadOk(s, t, s.threads[t]);
  }

  lemma GrownKeepsTracked(s: State, s': State, a: nat, i: nat)
    requires TrackedOk(s) && a in s.files && FileOk(s, s.files[a]) && i < |s.files[a].cached|
    requires s' == SetFile(s, a, Loaded(s, s.files[a], i))
    ensures TrackedOk(s')
  {
    forall k | k in s'.memory.frames ensures Resident(s', k) && Denotes(s', k.file, s'.memory.frames[k].serial) {
      assert Resident(s, k);
    }
  }

  lemma SameRegistry(s: State, s': State)
    requires RegistryOk(s) && s'.registry == s.registry && s.files.Keys <= s'.files.Keys
    ensures RegistryOk(s')
  {
  }

  /** Nothing is read while a frame is evicted. */
  lemma KeepEvict(s: State, t: nat, act: Action, s': State)
    requires Inv(s) && t < |s.threads| && Step(s, t, act, s') && act.Evict?
    ensures Inv(s')
  {
    hide Inv, Accounted, FilesOk, RegisteredOk, TrackedOk, RegistryOk, LocksOk, AnswerOk, Live, Released, Dropped;
    hide Removed;
    var th := s.threads[t];
    var a := th.key.file;
    EvictingFacts(s, t);
    if s.memory.Untouched(th.key, th.stamp) && s.files[a].diskBacked && Resident(s, th.key) {
      MemoryIsAccounted(s);
      RemovedIsAccounted(s.memory, th.key);
      EvictedKeepsRest(s, t, s');
    } else {
      EvictReleases(s, t, s');
    }
  }

  lemma EvictingFacts(s: State, t: nat)
    requires Inv(s) && t < |s.threads| && s.threads[t].Evicting?
    ensures var th := s.threads[t];
            Denotes(s, th.key.file, th.serial) && s.files[th.key.file].writer == Some(t) && AnswerOk(s, th.answer)
  {
    assert ThreadOk(s, t, s.threads[t]);
  }

  lemma MemoryIsAccounted(s: State)
    requires Inv(s)
    ensures Accounted(s.memory)
  {
  }

  /** The victim has been used, or cannot be evicted: only the lock is given back. */
  lemma EvictReleases(s: State, t: nat, s': State)
    requires Inv(s) && t < |s.threads| && s.threads[t].Evicting? && t < |s'.threads| && s.threads[t].key.file in s.files
    requires s'.threads[t] == Enforcing(s.threads[t].answer) || s'.threads[t] == Broken
    requires var a := s.threads[t].key.file; s' == SetThread(SetFile(s, a, Released(s.files[a], t)), t, s'.threads[t])
    ensures Inv(s')
  {
    hide Accounted, FilesOk, RegisteredOk, TrackedOk, RegistryOk, LocksOk, AnswerOk;
    var th := s.threads[t];
    var a := th.key.file;
    assert ThreadOk(s, t, th) && Live(s, a);
    LockOf(s, a);
    AnswerStays(s, s', th.answer);
    LockMoves(s, t, a, s'.files[a], s'.threads[t]);
  }

  lemma EvictedKeepsRest(s: State, t: nat, s': State)
    requires Inv(s) && t < |s.threads| && s.threads[t].Evicting?
    requires var th := s.threads[t];
             && Denotes(s, th.key.file, th.serial) && s.files[th.key.file].writer == Some(t) && AnswerOk(s, th.answer)
             && th.key in s.memory.frames && Resident(s, th.key)
             && s.memory.frames[th.key].bytes <= s.memory.resident && Accounted(Removed(s.memory, th.key))
             && s' == SetThread(SetFile(s, th.key.file, Released(Dropped(s.files[th.key.file], th.key.frame), t))
                                  .(memory := Removed(s.memory, th.key)), t, Enforcing(th.answer))
    ensures Inv(s')
  {
    hide Accounted, Live, Registered, RegistryOk, AnswerOk;
    var th := s.threads[t];
    var a := th.key.file;
    LockOf(s, a);
    forall b | b in s.files ensures FilePersists(s, s', t, b) {
      EvictedIsStillDead(s, t, s', b);
      RegisteredKept(s, s', b);
    }
    AllPersist(s, s', t);
    AnswerStays(s, s', th.answer);
    ThreadsStayOk(s, s', t);
    EvictedLocks(s, t, s');
    EvictedRegistered(s, t, s');
    SameRegistry(s, s');
    EvictedContents(s, t, s');
  }

  lemma EvictedLocks(s: State, t: nat, s': State)
    requires Inv(s) && t < |s.threads| && s.threads[t].Evicting? && Persists(s, s', t)
    requires var th := s.threads[t];
             && th.key.file in s.files && th.key.frame < |s.files[th.key.file].cached|
             && s.files[th.key.file].writer == Some(t)
             && s' == SetThread(SetFile(s, th.key.file, Released(Dropped(s.files[th.key.file], th.key.frame), t))
                                  .(memory := s'.memory), t, Enforcing(th.answer))
    ensures LocksOk(s')
  {
    hide Accounted, Live, Registered, RegistryOk, AnswerOk, ThreadOk, FileOk, FilePersists;
    var a := s.threads[t].key.file;
    LockOf(s, a);
    forall b | b in s'.files ensures LockOk(s', b) {
      if b != a {
        LockStays(s, s', t, b);
      }
    }
  }

  lemma EvictedIsStillDead(s: State, t: nat, s': State, b: nat)
    requires t < |s.threads| == |s'.threads| && s'.registry == s.registry
    requires s'.threads == s.threads[t := s'.threads[t]] && s'.threads[t].Enforcing?
    ensures Live(s', b) ==> Live(s, b)
  {
    if Live(s', b) && !Registered(s', b) {
      var u :| 0 <= u < |s'.threads| && Holds(s'.threads[u], b);
      assert Holds(s.threads[u], b);
    }
  }

  lemma EvictedContents(s: State, t: nat, s': State)
    requires t < |s.threads| && s.threads[t].Evicting? && FilesOk(s) && TrackedOk(s)
    requires var th := s.threads[t];
             && th.key in s.memory.frames && Resident(s, th.key) && s.memory.frames[th.key].bytes <= s.memory.resident
             && s' == SetThread(SetFile(s, th.key.file, Released(Dropped(s.files[th.key.file], th.key.frame), t))
                                  .(memory := Removed(s.memory, th.key)), t, Enforcing(th.answer))
    ensures FilesOk(s') && TrackedOk(s')
  {
    forall a | a in s'.files ensures FileOk(s', s'.files[a]) {
      assert FileOk(s, s.files[a]);
    }
    forall k | k in s'.memory.frames ensures Resident(s', k) && Denotes(s', k.file, s'.memory.frames[k].serial) {
      assert Resident(s, k);
    }
  }

  lemma EvictedRegistered(s: State, t: nat, s': State)
    requires t < |s.threads| && s.threads[t].Evicting? && LocksOk(s) && RegisteredOk(s) && LocksOk(s')
    requires var th := s.threads[t];
             && th.key in s.memory.frames && Resident(s, th.key) && s.memory.frames[th.key].bytes <= s.memory.resident
             && s.files[th.key.file].writer == Some(t)
             && s' == SetThread(SetFile(s, th.key.file, Released(Dropped(s.files[th.key.file], th.key.frame), t))
                                  .(memory := Removed(s.memory, th.key)), t, Enforcing(th.answer))
    ensures RegisteredOk(s')
  {
    var k := s.threads[t].key;
    forall b: nat, i: nat | b in s'.files && Registered(s', b) && Resident(s', FrameKey(b, i))
      ensures FrameTracked(s', b, i)
    {
      RegisteredKept(s, s', b);
      LockOf(s, b);
      LockOf(s', b);
      assert FrameKey(b, i) != k && Resident(s, FrameKey(b, i));
      FrameStaysTracked(s, s', t, b, i);
    }
  }

  /** A step that leaves memory alone keeps the registered frames tracked. */
  lemma FramesStayTracked(s: State, s': State, t: nat)
    requires Inv(s) && t < |s.threads| && SameOthers(s, s', t) && LocksOk(s') && s'.memory.frames == s.memory.frames
    requires forall i | Pending(s.threads[t], i) :: Pending(s'.threads[t], i)
    requires forall a | a in s'.files && Registered(s', a) :: StaysOrIsNew(s, s', a)
    ensures RegisteredOk(s')
  {
    hide Accounted, ThreadsOk, Registered, FilesOk, RegistryOk, TrackedOk, LockOk, FrameTracked, Pending;
    forall a: nat, i: nat | a in s'.files && Registered(s', a) && Resident(s', FrameKey(a, i))
      ensures FrameTracked(s', a, i)
    {
      assert StaysOrIsNew(s, s', a) && Resident(s, FrameKey(a, i));
      FrameStaysTracked(s, s', t, a, i);
    }
  }

  /** The file was registered before as it is now, or nothing of it has been loaded. */
  predicate StaysOrIsNew(s: State, s': State, a: nat)
    requires a in s'.files
  {
    || (a in s.files && Registered(s, a) && s'.files[a] == s.files[a])
    || forall i | 0 <= i < |s'.files[a].cached| :: s'.files[a].cached[i].None?
  }

  /** A new file appears under a name, maybe in place of an old one. */
  lemma RegisteringKeeps(s: State, t: nat, name: string, file: nat, serial: nat, diskBacked: bool, content: seq<Frame>,
                         th': Thread)
    requires Inv(s) && t < |s.threads| && s.threads[t].Idle? && file !in s.files && serial !in s.disks
    requires if name in s.registry then th' == Forgetting(s.registry[name]) else th' == Idle
    ensures Inv(SetThread(Registering(s, name, file, serial, diskBacked, content), t, th'))
  {
    hide Accounted, ThreadOk, Live, Registered, LockOk, RegisteredOk, FilesOk, TrackedOk;
    var s' := SetThread(Registering(s, name, file, serial, diskBacked, content), t, th');
    RegisteringContents(s, s', name, file, serial, diskBacked, content);
    forall a | a in s.files ensures FilePersists(s, s', t, a) {
      RegisteringKeepsDead(s, t, s', name, file, a);
    }
    assert Persists(s, s', t);
    NewThreadOk(s, t, s', name);
    ThreadsStayOk(s, s', t);
    forall a | a in s'.files ensures LockOk(s', a) && (Registered(s', a) ==> StaysOrIsNew(s, s', a)) {
      RegisteringLock(s, t, s', a, file);
      RegisteringKeepsDead(s, t, s', name, file, a);
    }
    FramesStayTracked(s, s', t);
  }

  lemma RegisteringLock(s: State, t: nat, s': State, a: nat, file: nat)
    requires t < |s.threads| && SameOthers(s, s', t) && LocksOk(s) && s.threads[t].Idle?
    requires a in s'.files && (a == file ==> s'.files[a].readers == {} && s'.files[a].writer == None)
    requires a != file ==> a in s.files && s'.files[a] == s.files[a]
    ensures LockOk(s', a)
  {
  }

  lemma RegisteringContents(s: State, s': State, name: string, file: nat, serial: nat, diskBacked: bool,
                            content: seq<Frame>)
    requires FilesOk(s) && RegistryOk(s) && TrackedOk(s) && file !in s.files && serial !in s.disks
    requires s' == Registering(s, name, file, serial, diskBacked, content).(threads := s'.threads)
    ensures FilesOk(s') && RegistryOk(s') && TrackedOk(s')
  {
    forall a | a in s'.files ensures FileOk(s', s'.files[a]) {
      if a != file {
        assert FileOk(s, s.files[a]);
      }
    }
    forall k | k in s'.memory.frames ensures Resident(s', k) && Denotes(s', k.file, s'.memory.frames[k].serial) {
      assert Resident(s, k);
    }
  }

  lemma RegisteringKeepsDead(s: State, t: nat, s': State, name: string, file: nat, a: nat)
    requires t < |s.threads| && SameOthers(s, s', t) && s'.registry == s.registry[name := file]
    requires s'.threads[t].Idle? || (name in s.registry && s'.threads[t] == Forgetting(s.registry[name]))
    ensures a != file ==> (Registered(s', a) ==> Registered(s, a)) && (Live(s', a) ==> Live(s, a))
  {
    if a != file && Live(s', a) && !Registered(s', a) {
      var u :| 0 <= u < |s'.threads| && Holds(s'.threads[u], a);
      if u == t {
        assert Registered(s, a);
      } else {
        assert Holds(s.threads[u], a);
      }
    }
  }

  lemma NewThreadOk(s: State, t: nat, s': State, name: string)
    requires t < |s.threads| && RegistryOk(s) && RegistryOk(s') && s.files.Keys <= s'.files.Keys
             && |s'.threads| == |s.threads|
    requires name in s.registry ==> s'.threads[t] == Forgetting(s.registry[name])
    requires name in s.registry ==>
               (forall n | n in s'.registry && n != name :: n in s.registry && s'.registry[n] == s.registry[n])
               && (name in s'.registry ==> s'.registry[name] !in s.files)
    requires name !in s.registry ==> s'.threads[t].Idle?
    ensures ThreadOk(s', t, s'.threads[t])
  {
  }

  lemma KeepRegistrySteps(s: State, t: nat, act: Action, s': State)
    requires Inv(s) && t < |s.threads| && Step(s, t, act, s') && (act.LoadFile? || act.Insert?)
    ensures Inv(s')
  {
    hide Inv;
    if act.LoadFile? {
      RegisteringKeeps(s, t, act.name, act.file, act.serial, act.diskBacked, act.content, Idle);
      assert s' == SetThread(s', t, Idle);
    } else {
      RegisteringKeeps(s, t, act.name, act.file, act.serial, act.diskBacked, act.content, s'.threads[t]);
    }
  }

  lemma KeepRemove(s: State, t: nat, act: Action, s': State)
    requires Inv(s) && t < |s.threads| && Step(s, t, act, s') && act.Remove?
    ensures Inv(s')
  {
    hide Accounted, ThreadOk, Live, Registered, LockOk, RegisteredOk;
    forall a | a in s.files
      ensures FilePersists(s, s', t, a)
      ensures Registered(s', a) ==> StaysOrIsNew(s, s', a)
    {
      RemovedStaysDead(s, t, s', act.name, a);
    }
    AllPersist(s, s', t);
    NewThreadOk(s, t, s', act.name);
    ThreadsStayOk(s, s', t);
    forall a | a in s'.files ensures LockOk(s', a) {
      LockStays(s, s', t, a);
    }
    FramesStayTracked(s, s', t);
  }

  lemma RemovedStaysDead(s: State, t: nat, s': State, name: string, a: nat)
    requires t < |s.threads| && SameOthers(s, s', t) && s'.registry == s.registry - {name}
    requires name in s.registry && s'.threads[t] == Forgetting(s.registry[name])
    ensures (Registered(s', a) ==> Registered(s, a)) && (Live(s', a) ==> Live(s, a))
  {
    if Registered(s', a) {
      var n :| n in s'.registry && s'.registry[n] == a;
      assert n in s.registry && s.registry[n] == a;
    } else if Live(s', a) {
      var u :| 0 <= u < |s'.threads| && Holds(s'.threads[u], a);
      if u == t {
        assert Registered(s, a);
      } else {
        assert Holds(s.threads[u], a);
      }
    }
  }

  /** An address is only reused once nothing refers to it. */
  lemma KeepFree(s: State, t: nat, act: Action, s': State)
    requires Inv(s) && t < |s.threads| && Step(s, t, act, s') && act.Free?
    ensures Inv(s')
  {
    hide Accounted, ThreadOk, RegisteredOk, FilesOk, TrackedOk;
    var a := act.file;
    forall b | b in s'.files ensures FilePersists(s, s', |s.threads|, b) {
      LiveIgnoresFiles(s, s', b);
      RegisteredKept(s, s', b);
    }
    forall u | 0 <= u < |s.threads| ensures !Holds(s.threads[u], a) {
      assert !Live(s, a);
    }
    assert Persists(s, s', |s.threads|);
    forall u | 0 <= u < |s'.threads| ensures ThreadOk(s', u, s'.threads[u]) {
      OtherStays(s, s', |s.threads|, u);
    }
    forall b | b in s'.files ensures LockOk(s', b) {
      LockStays(s, s', t, b);
    }
    forall b | b in s'.files && Registered(s', b) ensures StaysOrIsNew(s, s', b) {
      RegisteredKept(s, s', b);
    }
    FramesStayTracked(s, s', t);
    FreedContents(s, s', a);
  }

  lemma FreedContents(s: State, s': State, a: nat)
    requires FilesOk(s) && RegistryOk(s) && TrackedOk(s) && !Registered(s, a)
    requires (forall k | k in s.memory.frames :: k.file != a) && s' == s.(files := s.files - {a})
    ensures FilesOk(s') && RegistryOk(s') && TrackedOk(s')
  {
    forall k | k in s'.memory.frames ensures Resident(s', k) && Denotes(s', k.file, s'.memory.frames[k].serial) {
      assert Resident(s, k);
    }
    forall name | name in s'.registry ensures s'.registry[name] in s'.files {
      assert Registered(s, s.registry[name]);
    }
  }

  /** Every step of every thread keeps the invariant. */
  lemma StepKeeps(s: State, t: nat, act: Action, s': State)
    requires Inv(s) && t < |s.threads| && Step(s, t, act, s')
    ensures Inv(s') && |s'.threads| == |s.threads|
  {
    hide Inv, Step;
    OthersStand(s, t, act, s');
    match act
    case Lookup(_, _) => KeepLookup(s, t, act, s');
    case LoadFile(_, _, _, _, _) => KeepRegistrySteps(s, t, act, s');
    case StartRead => KeepAcquire(s, t, act, s');
    case ReadWarm => KeepReads(s, t, act, s');
    case ReadCold => KeepRelease(s, t, act, s');
    case Touch => KeepTouch(s, t, act, s');
    case FinishWarm(_) => KeepRelease(s, t, act, s');
    case StartWrite => KeepAcquire(s, t, act, s');
    case LoadFrame(_) => KeepLoadFrame(s, t, act, s');
    case Read(_) => KeepReads(s, t, act, s');
    case Track => KeepTrack(s, t, act, s');
    case FinishCold(_) => KeepRelease(s, t, act, s');
    case Choose(_) => KeepChoose(s, t, act, s');
    case Upgrade => KeepUpgrade(s, t, act, s');
    case DropStale => KeepDropStale(s, t, act, s');
    case LockVictim => KeepLockVictim(s, t, act, s');
    case Evict => KeepEvict(s, t, act, s');
    case Insert(_, _, _, _, _) => KeepRegistrySteps(s, t, act, s');
    case Remove(_) => KeepRemove(s, t, act, s');
    case Forget => KeepForget(s, t, act, s');
    case Resize(_) => KeepForget(s, t, act, s');
    case Return => KeepUpgrade(s, t, act, s');
    case Free(_) => KeepFree(s, t, act, s');
  }

  // ---------------------------------------------------------------------
  // Runs.

  predicate Initial(s: State) {
    && s.registry == map[] && s.files == map[] && s.disks == map[]
    && s.memory.frames == map[] && s.memory.resident == 0
    && forall t | 0 <= t < |s.threads| :: s.threads[t].Idle?
  }

  ghost predicate IsRun(states: seq<State>, steps: seq<(nat, Action)>) {
    && |states| == |steps| + 1 && Initial(states[0])
    && forall i | 0 <= i < |steps| :: CanStep(states[i], steps[i].0, steps[i].1, states[i + 1])
  }

  ghost predicate CanStep(s: State, t: nat, act: Action, s': State) {
    t < |s.threads| && (Inv(s) ==> Step(s, t, act, s'))
  }

  /** The invariant holds throughout every run. */
  lemma {:induction false} RunsKeepInvariant(states: seq<State>, steps: seq<(nat, Action)>, i: nat)
    requires IsRun(states, steps) && i < |states|
    ensures Inv(states[i])
  {
    hide Step, Inv;
    if i == 0 {
      InitialInv(states[0]);
    } else {
      RunsKeepInvariant(states, steps, i - 1);
      assert CanStep(states[i - 1], steps[i - 1].0, steps[i - 1].1, states[i - 1 + 1]);
      StepKeeps(states[i - 1], steps[i - 1].0, steps[i - 1].1, states[i]);
    }
  }

  lemma InitialInv(s: State)
    requires Initial(s)
    ensures Inv(s)
  {
  }

  /** While nobody writes a registered file, exactly its tracked frames are in memory. */
  lemma TrackedIsResident(s: State, name: string, i: nat)
    requires Inv(s) && name in s.registry
    requires s.registry[name] in s.files && s.files[s.registry[name]].writer.None?
    ensures Resident(s, FrameKey(s.registry[name], i)) <==> FrameKey(s.registry[name], i) in s.memory.frames
  {
    var a := s.registry[name];
    assert Registered(s, a) && LockOk(s, a);
    if Resident(s, FrameKey(a, i)) {
      assert FrameTracked(s, a, i);
    }
  }

  /** Internal errors are confined to files without stored frames. */
  lemma ErrorsNeedUnstoredFiles(s: State, t: nat, act: Action, s': State)
    requires Inv(s) && t < |s.threads| && Step(s, t, act, s') && !s.threads[t].Broken? && |s'.threads| == |s.threads|
    ensures s'.threads[t].Broken? ==>
              s.threads[t].Evicting? && s.threads[t].key.file in s.files && !s.files[s.threads[t].key.file].diskBacked
  {
    hide Inv, ThreadOk, AnswerOf, AnswerOk, AllResident, Resident, Live, FileOk, Loaded, Dropped, FrameBytes, RequestOk;
    hide Total, Recorded, Removed, IsForgotten, Released, Memory.OverLimit, Memory.Untouched;
    ChosenExists(s);
    VictimFacts(s, t);
  }

  lemma ChosenExists(s: State)
    requires Inv(s)
    ensures s.memory.OverLimit() ==> s.memory.frames != map[]
  {
    if s.memory.OverLimit() {
      OverLimitHasFrames(s.memory);
    }
  }

  lemma VictimFacts(s: State, t: nat)
    requires Inv(s) && t < |s.threads|
    ensures var th := s.threads[t];
            th.Evicting? ==> th.key.file in s.files && (s.memory.Untouched(th.key, th.stamp) ==> Resident(s, th.key))
  {
    assert ThreadOk(s, t, s.threads[t]);
  }

  lemma DisksStay(s: State, t: nat, act: Action, s': State)
    requires Inv(s) && t < |s.threads| && Step(s, t, act, s')
    ensures forall serial | serial in s.disks :: serial in s'.disks && s'.disks[serial] == s.disks[serial]
  {
    hide Inv, ThreadOk, AnswerOf, AllResident, Resident, Live, FileOk, Loaded, Dropped, FrameBytes, RequestOk, Total;
    hide Recorded, Removed, IsForgotten;
  }

  /** Stored frames never change, and stamps of surviving entries that are older than
      the clock are those of entries nobody touched. */
  lemma OldStampsAreUntouched(s: State, t: nat, act: Action, s': State)
    requires Inv(s) && t < |s.threads| && Step(s, t, act, s')
    ensures KeepsOld(s.memory, s'.memory)
    ensures forall serial | serial in s.disks :: serial in s'.disks && s'.disks[serial] == s.disks[serial]
  {
    hide Inv, ThreadOk, AnswerOf, AllResident, Resident, Live, FileOk, Loaded, Dropped, FrameBytes, RequestOk, Total;
    hide Recorded, Removed, IsForgotten, KeepsOld;
    var th := s.threads[t];
    StillOld(s.memory);
    DisksStay(s, t, act, s');
    match act
    case Touch =>
      ChangesKeepOld(s.memory, FrameKey(th.r.file, th.r.wanted[th.next]), th.r.serial, s'.memory);
    case Track => ChangesKeepOld(s.memory, FrameKey(th.r.file, th.r.wanted[th.next]), th.r.serial, s'.memory);
    case DropStale => RemovalKeepsOld(s, th.key);
    case Evict => RemovalKeepsOld(s, th.key);
    case Forget => ChangesKeepOld(s.memory, FrameKey(th.file, 0), 0, s'.memory);
    case Resize(limit) => StillOld(s.memory);
    case _ =>
  }

  lemma RemovalKeepsOld(s: State, k: FrameKey)
    requires Inv(s)
    ensures k in s.memory.frames ==>
              s.memory.frames[k].bytes <= s.memory.resident && KeepsOld(s.memory, Removed(s.memory, k))
  {
    if k in s.memory.frames {
      RemovedIsAccounted(s.memory, k);
      ChangesKeepOld(s.memory, k, 0, s.memory);
    }
  }

  lemma StillOld(m: Memory)
    ensures KeepsOld(m, m)
    ensures forall limit: nat :: KeepsOld(m, m.(limit := Some(limit)))
  {
  }

  /** A completed answer holds what is stored under its serial. */
  lemma AnswersAreStored(s: State, t: nat)
    requires Inv(s) && t < |s.threads| && s.threads[t].Finished?
    ensures AnswerOk(s, s.threads[t].answer)
  {
    assert ThreadOk(s, t, s.threads[t]);
  }

  predicate AnswerFor(a: Answer, serial: nat, wanted: seq<nat>) {
    a.Values? ==> a.serial == serial && a.wanted == wanted
  }

  /** The thread works on a request, or carries its answer. */
  predicate Serves(th: Thread, serial: nat, wanted: seq<nat>) {
    match th
    case Ready(r) => r.serial == serial && r.wanted == wanted
    case Reading(r) => r.serial == serial && r.wanted == wanted
    case Touching(r, _, a, _) => r.serial == serial && r.wanted == wanted && AnswerFor(a, serial, wanted)
    case Cold(r) => r.serial == serial && r.wanted == wanted
    case Loading(r) => r.serial == serial && r.wanted == wanted
    case Tracking(r, _, a, _) => r.serial == serial && r.wanted == wanted && AnswerFor(a, serial, wanted)
    case Enforcing(a) => AnswerFor(a, serial, wanted)
    case Chosen(_, _, _, a) => AnswerFor(a, serial, wanted)
    case Stale(_, _, _, a) => AnswerFor(a, serial, wanted)
    case Upgraded(_, _, _, a) => AnswerFor(a, serial, wanted)
    case Evicting(_, _, _, a) => AnswerFor(a, serial, wanted)
    case Finished(a) => AnswerFor(a, serial, wanted)
    case Broken => true
    case _ => false
  }

  lemma AnswerIsFor(s: State, r: Request)
    requires AllResident(s, r)
    ensures AnswerFor(AnswerOf(s, r), r.serial, r.wanted)
  {
  }

  predicate IsProbing(act: Action) {
    || act.StartRead? || act.ReadWarm? || act.ReadCold? || act.Touch? || act.FinishWarm?
    || act.StartWrite? || act.LoadFrame? || act.Read? || act.Track? || act.FinishCold?
  }

  lemma ProbingServes(s: State, t: nat, act: Action, s': State, serial: nat, wanted: seq<nat>)
    requires Inv(s) && t < |s.threads| && Step(s, t, act, s') && IsProbing(act)
    requires Serves(s.threads[t], serial, wanted) && t < |s'.threads|
    ensures Serves(s'.threads[t], serial, wanted)
  {
    hide Inv, ThreadOk, AnswerOf, AnswerOk, AllResident, Resident, Live, FileOk, Loaded, Dropped, FrameBytes;
    hide RequestOk, Total;
    hide Recorded, Removed, IsForgotten, AnswerFor, Released;
    match act
    case ReadWarm => AnswerIsFor(s, s.threads[t].r);
    case Read(success) =>
      if success {
        AnswerIsFor(s, s.threads[t].r);
      }
      FailureIsAnswer(serial, wanted);
    case _ =>
  }

  lemma EvictingServes(s: State, t: nat, act: Action, s': State, serial: nat, wanted: seq<nat>)
    requires Inv(s) && t < |s.threads| && Step(s, t, act, s') && !IsProbing(act) && !act.Return?
    requires Serves(s.threads[t], serial, wanted) && t < |s'.threads|
    ensures Serves(s'.threads[t], serial, wanted)
  {
    hide Inv, ThreadOk, AnswerOf, AnswerOk, AllResident, Resident, Live, FileOk, Loaded, Dropped, FrameBytes;
    hide RequestOk, Total;
    hide Recorded, Removed, IsForgotten, AnswerFor, Released;
    match act
    case Choose(_) =>
    case Upgrade =>
    case DropStale =>
    case LockVictim =>
    case Evict =>
    case Free(_) =>
    case _ =>
  }

  lemma OthersStand(s: State, t: nat, act: Action, s': State)
    requires Inv(s) && t < |s.threads| && Step(s, t, act, s')
    ensures SameOthers(s, s', t)
  {
    hide Inv, ThreadOk, AnswerOf, AnswerOk, AllResident, Resident, Live, FileOk, Loaded, Dropped, FrameBytes;
    hide RequestOk, Total;
    hide Recorded, Removed, IsForgotten, Released;
  }

  /** A thread works on its request until it returns, whatever the others do. */
  lemma StepServes(s: State, t: nat, act: Action, s': State, u: nat, serial: nat, wanted: seq<nat>)
    requires Inv(s) && t < |s.threads| && Step(s, t, act, s')
    requires u < |s.threads| && Serves(s.threads[u], serial, wanted) && (u == t ==> !act.Return?)
    ensures |s'.threads| == |s.threads| && Serves(s'.threads[u], serial, wanted)
  {
    hide Inv, Step, Serves;
    OthersStand(s, t, act, s');
    if u == t {
      if IsProbing(act) {
        ProbingServes(s, t, act, s', serial, wanted);
      } else {
        EvictingServes(s, t, act, s', serial, wanted);
      }
    }
  }

  lemma FailureIsAnswer(serial: nat, wanted: seq<nat>)
    ensures AnswerFor(Failed, serial, wanted) && AnswerFor(NoAnswer, serial, wanted)
  {
  }

  /** A probe has begun with a lookup at step `i` and has not returned before state `j`. */
  ghost predicate Probing(states: seq<State>, steps: seq<(nat, Action)>, t: nat, name: string, wanted: seq<nat>,
                          i: nat, j: nat) {
    && IsRun(states, steps) && i < j < |states|
    && steps[i] == (t, Lookup(name, wanted))
    && forall k | i < k < j :: steps[k] != (t, Return)
  }

  /** What the probe asked for is what it works on, and its stored frames have not
      changed. */
  lemma {:induction false} ProbeServes(states: seq<State>, steps: seq<(nat, Action)>, t: nat, name: string,
                                       wanted: seq<nat>, i: nat, j: nat)
    requires Probing(states, steps, t, name, wanted, i, j)
    ensures name in states[i].registry && states[i].registry[name] in states[i].files && t < |states[j].threads|
    ensures var serial := states[i].files[states[i].registry[name]].serial;
            && serial in states[i].disks && serial in states[j].disks
            && states[j].disks[serial] == states[i].disks[serial]
            && Serves(states[j].threads[t], serial, wanted)
    decreases j
  {
    hide Step, Inv, Serves;
    var k := j - 1;
    RunsKeepInvariant(states, steps, k);
    assert CanStep(states[k], steps[k].0, steps[k].1, states[k + 1]);
    OldStampsAreUntouched(states[k], steps[k].0, steps[k].1, states[k + 1]);
    if k == i {
      LookupServes(states[i], t, name, wanted, states[i + 1]);
    } else {
      assert Probing(states, steps, t, name, wanted, i, k);
      ProbeServes(states, steps, t, name, wanted, i, k);
      StepServes(states[k], steps[k].0, steps[k].1, states[k + 1], t, states[i].files[states[i].registry[name]].serial,
                 wanted);
    }
  }

  lemma LookupServes(s: State, t: nat, name: string, wanted: seq<nat>, s': State)
    requires Inv(s) && t < |s.threads| && Step(s, t, Lookup(name, wanted), s')
    ensures name in s.registry && s.registry[name] in s.files && t < |s'.threads|
    ensures var serial := s.files[s.registry[name]].serial; serial in s.disks && Serves(s'.threads[t], serial, wanted)
  {
    assert FileOk(s, s.files[s.registry[name]]);
  }

  /** A completed probe returns, frame by frame, what was stored in the file that the
      name denoted when it began, whatever was evicted, replaced or removed meanwhile. */
  lemma ProbesReturnStored(states: seq<State>, steps: seq<(nat, Action)>, t: nat, name: string, wanted: seq<nat>,
                           i: nat, j: nat)
    requires Probing(states, steps, t, name, wanted, i, j)
    ensures name in states[i].registry && states[i].registry[name] in states[i].files && t < |states[j].threads|
    ensures var s, th := states[i], states[j].threads[t];
            var serial := s.files[s.registry[name]].serial;
            th.Finished? && th.answer.Values? ==>
              && serial in s.disks && |th.answer.frames| == |wanted|
              && forall k | 0 <= k < |wanted| ::
                wanted[k] < |s.disks[serial]| && th.answer.frames[k] == s.disks[serial][wanted[k]]
  {
    hide Step, Inv;
    ProbeServes(states, steps, t, name, wanted, i, j);
    RunsKeepInvariant(states, steps, j);
    if states[j].threads[t].Finished? {
      AnswersAreStored(states[j], t);
    }
  }

  /** A frame evicted with the stamp it was chosen with has not been used since: its
      entry was there, the same, all the time. */
  lemma {:induction false} EvictedIsUnused(states: seq<State>, steps: seq<(nat, Action)>, i: nat, j: nat, k: FrameKey,
                                           stamp: nat)
    requires IsRun(states, steps) && i <= j < |states|
    requires stamp <= states[i].memory.clock && states[j].memory.Untouched(k, stamp)
    ensures states[i].memory.Untouched(k, stamp) && states[i].memory.frames[k] == states[j].memory.frames[k]
    decreases j
  {
    hide Step, Inv;
    if i < j {
      RunsKeepInvariant(states, steps, j - 1);
      assert CanStep(states[j - 1], steps[j - 1].0, steps[j - 1].1, states[j - 1 + 1]);
      ClockGrows(states, steps, i, j - 1);
      OldStampsAreUntouched(states[j - 1], steps[j - 1].0, steps[j - 1].1, states[j]);
      EvictedIsUnused(states, steps, i, j - 1, k, stamp);
    }
  }

  lemma {:induction false} ClockGrows(states: seq<State>, steps: seq<(nat, Action)>, i: nat, j: nat)
    requires IsRun(states, steps) && i <= j < |states|
    ensures states[i].memory.clock <= states[j].memory.clock
    decreases j
  {
    hide Step, Inv;
    if i < j {
      RunsKeepInvariant(states, steps, j - 1);
      assert CanStep(states[j - 1], steps[j - 1].0, steps[j - 1].1, states[j - 1 + 1]);
      OldStampsAreUntouched(states[j - 1], steps[j - 1].0, steps[j - 1].1, states[j]);
      ClockGrows(states, steps, i, j - 1);
    }
  }

  // ---------------------------------------------------------------------
  // Victims are least recently used.

  /** The frame a thread has chosen to evict, with the stamp it had then. */
  function VictimOf(th: Thread): Option<(FrameKey, nat)> {
    match th
    case Chosen(k, _, stamp, _) => Some((k, stamp))
    case Stale(k, _, stamp, _) => Some((k, stamp))
    case Upgraded(k, _, stamp, _) => Some((k, stamp))
    case Evicting(k, _, stamp, _) => Some((k, stamp))
    case _ => None
  }

  /** While nobody touches it, the victim of the thread is the oldest frame. */
  predicate VictimOk(m: Memory, th: Thread) {
    match VictimOf(th)
    case Some((k, stamp)) => stamp <= m.clock && (m.Untouched(k, stamp) ==> m.IsOldest(k))
    case None => true
  }

  predicate VictimsOk(s: State) {
    forall t | 0 <= t < |s.threads| :: VictimOk(s.memory, s.threads[t])
  }

  lemma OldestStays(m: Memory, m': Memory, th: Thread)
    requires KeepsOld(m, m') && VictimOk(m, th)
    ensures VictimOk(m', th)
  {
  }

  /** A thread keeps its victim, drops it, or chooses the oldest frame. */
  ghost predicate VictimFollows(s: State, t: nat, s': State)
    requires t < |s.threads| == |s'.threads|
  {
    var (v, v') := (VictimOf(s.threads[t]), VictimOf(s'.threads[t]));
    || v' == None || v' == v
    || (s'.memory == s.memory && s.memory.IsOldest(v'.value.0)
        && v'.value.1 == s.memory.frames[v'.value.0].lastUsed)
  }

  lemma ProbingHasNoVictim(s: State, t: nat, act: Action, s': State)
    requires Inv(s) && t < |s.threads| && Step(s, t, act, s') && IsProbing(act) && |s'.threads| == |s.threads|
    ensures VictimFollows(s, t, s')
  {
    hide Inv, ThreadOk, AnswerOf, AnswerOk, AllResident, Resident, Live, FileOk, Loaded, Dropped, FrameBytes;
    hide RequestOk, Total, Recorded, Removed, IsForgotten, Released, Memory.IsOldest;
  }

  lemma VictimIsChosen(s: State, t: nat, act: Action, s': State)
    requires Inv(s) && t < |s.threads| && Step(s, t, act, s') && !IsProbing(act) && |s'.threads| == |s.threads|
    ensures VictimFollows(s, t, s')
  {
    hide Inv, ThreadOk, AnswerOf, AnswerOk, AllResident, Resident, Live, FileOk, Loaded, Dropped, FrameBytes;
    hide RequestOk, Total, Recorded, Removed, IsForgotten, Released;
  }

  lemma StepKeepsVictims(s: State, t: nat, act: Action, s': State)
    requires Inv(s) && t < |s.threads| && Step(s, t, act, s') && VictimsOk(s)
    ensures VictimsOk(s')
  {
    hide Inv, Step, KeepsOld, Memory.Untouched, Memory.IsOldest, VictimOf, VictimOk;
    OthersStand(s, t, act, s');
    OldStampsAreUntouched(s, t, act, s');
    forall u | 0 <= u < |s.threads| ensures VictimOk(s'.memory, s.threads[u]) {
      OldestStays(s.memory, s'.memory, s.threads[u]);
    }
    if IsProbing(act) {
      ProbingHasNoVictim(s, t, act, s');
    } else {
      VictimIsChosen(s, t, act, s');
    }
    ActorsVictim(s, t, s');
  }

  lemma ActorsVictim(s: State, t: nat, s': State)
    requires Inv(s) && t < |s.threads| == |s'.threads| && VictimFollows(s, t, s')
    requires VictimOk(s'.memory, s.threads[t])
    ensures VictimOk(s'.memory, s'.threads[t])
  {
    hide Total, FilesOk, RegistryOk, TrackedOk, ThreadsOk, LocksOk, RegisteredOk;
  }

  lemma {:induction false} RunsKeepVictims(states: seq<State>, steps: seq<(nat, Action)>, j: nat)
    requires IsRun(states, steps) && j < |states|
    ensures VictimsOk(states[j])
  {
    hide Step, Inv, VictimOk;
    if j == 0 {
      NoVictims(states[0]);
    } else {
      RunsKeepInvariant(states, steps, j - 1);
      RunsKeepVictims(states, steps, j - 1);
      assert CanStep(states[j - 1], steps[j - 1].0, steps[j - 1].1, states[j - 1 + 1]);
      StepKeepsVictims(states[j - 1], steps[j - 1].0, steps[j - 1].1, states[j]);
    }
  }

  lemma NoVictims(s: State)
    requires Initial(s)
    ensures VictimsOk(s)
  {
  }

  /** In every run, a frame that an eviction takes off the record is the least recently
      used one at that moment. */
  lemma EvictedIsOldest(states: seq<State>, steps: seq<(nat, Action)>, j: nat, k: FrameKey)
    requires IsRun(states, steps) && j < |steps| && (steps[j].1.Evict? || steps[j].1.DropStale?)
    requires k in states[j].memory.frames && k !in states[j + 1].memory.frames
    ensures forall other | other in states[j].memory.frames ::
              states[j].memory.frames[k].lastUsed <= states[j].memory.frames[other].lastUsed
  {
    hide Step, Inv;
    RunsKeepInvariant(states, steps, j);
    RunsKeepVictims(states, steps, j);
    assert CanStep(states[j], steps[j].0, steps[j].1, states[j + 1]);
    RemovedIsVictim(states[j], steps[j].0, steps[j].1, states[j + 1], k);
    assert VictimOk(states[j].memory, states[j].threads[steps[j].0]);
  }

  lemma RemovedIsVictim(s: State, t: nat, act: Action, s': State, k: FrameKey)
    requires Inv(s) && t < |s.threads| && Step(s, t, act, s') && (act.Evict? || act.DropStale?)
    requires k in s.memory.frames && k !in s'.memory.frames
    ensures VictimOf(s.threads[t]) == Some((k, s.memory.frames[k].lastUsed))
  {
    hide Inv, ThreadOk, AnswerOf, AnswerOk, AllResident, Resident, Live, FileOk, Dropped, FrameBytes;
    hide RequestOk, Total, Recorded, IsForgotten, Released;
  }

  /** A thread stops evicting only when the resident bytes are within the limit. */
  lemma EnforcingReachesLimit(s: State, t: nat, act: Action, s': State)
    requires Inv(s) && t < |s.threads| && Step(s, t, act, s')
    requires s.threads[t].Enforcing? && t < |s'.threads| && s'.threads[t].Finished?
    ensures s'.memory.limit.Some? ==> s'.memory.resident <= s'.memory.limit.value
  {
    hide Inv, ThreadOk, AnswerOf, AnswerOk, AllResident, Resident, Live, FileOk, Dropped, FrameBytes;
    hide RequestOk, Total, Recorded, IsForgotten, Released, Memory.IsOldest;
  }

  // ---------------------------------------------------------------------
  // Removed and replaced files.

  /** The action takes the name away from the file. */
  predicate Drops(s: State, act: Action, name: string, file: nat) {
    && name in s.registry && s.registry[name] == file
    && match act
       case Remove(n) => n == name
       case Insert(n, _, _, _, _) => n == name
       case _ => false
  }

  lemma DropStartsForgetting(s: State, t: nat, act: Action, s': State, name: string, file: nat)
    requires Inv(s) && t < |s.threads| && Step(s, t, act, s') && Drops(s, act, name, file)
    ensures t < |s'.threads| && s'.threads[t] == Forgetting(file)
    ensures name in s'.registry ==> s'.registry[name] != file
  {
    hide Inv, ThreadOk, AnswerOf, AnswerOk, AllResident, Resident, Live, Loaded, Dropped, FrameBytes;
    hide RequestOk, Total, Recorded, Removed, IsForgotten, Released;
    RegisteredIsFile(s, name);
  }

  lemma RegisteredIsFile(s: State, name: string)
    requires Inv(s) && name in s.registry
    ensures s.registry[name] in s.files
  {
    hide Total, FilesOk, TrackedOk, ThreadsOk, LocksOk, RegisteredOk;
  }

  lemma ForgettingForgets(s: State, t: nat, act: Action, s': State, file: nat)
    requires Inv(s) && t < |s.threads| && Step(s, t, act, s') && s.threads[t] == Forgetting(file) && !act.Free?
    ensures forall k | k in s'.memory.frames :: k.file != file
  {
    hide Inv, ThreadOk, AnswerOf, AnswerOk, AllResident, Resident, Live, FileOk, Loaded, Dropped, FrameBytes;
    hide RequestOk, Total, Recorded, Removed, Released;
  }

  lemma FreeingIsNoStep(s: State, t: nat, act: Action, s': State)
    requires Inv(s) && t < |s.threads| && Step(s, t, act, s') && act.Free?
    ensures s'.threads == s.threads
  {
    hide Inv, ThreadOk, Live;
  }

  /** A thread does nothing but free closed files between two states. */
  ghost predicate StandsStill(steps: seq<(nat, Action)>, t: nat, i: nat, j: nat)
    requires i <= j <= |steps|
  {
    forall k | i <= k < j && steps[k].0 == t :: steps[k].1.Free?
  }

  lemma {:induction false} StillForgetting(states: seq<State>, steps: seq<(nat, Action)>, t: nat, i: nat, j: nat,
                                           file: nat)
    requires IsRun(states, steps) && i <= j < |states| && StandsStill(steps, t, i, j)
    requires t < |states[i].threads| && states[i].threads[t] == Forgetting(file)
    ensures t < |states[j].threads| && states[j].threads[t] == Forgetting(file)
    decreases j
  {
    hide Step, Inv;
    if i < j {
      var k := j - 1;
      StillForgetting(states, steps, t, i, k, file);
      RunsKeepInvariant(states, steps, k);
      assert CanStep(states[k], steps[k].0, steps[k].1, states[k + 1]);
      OthersStand(states[k], steps[k].0, steps[k].1, states[k + 1]);
      if steps[k].0 == t {
        FreeingIsNoStep(states[k], t, steps[k].1, states[k + 1]);
      }
    }
  }

  /** In every run, a thread that removes or replaces a file forgets its frames in its next
      step, whatever the other threads do until then. */
  lemma DroppedIsForgotten(states: seq<State>, steps: seq<(nat, Action)>, i: nat, j: nat, name: string, file: nat)
    requires IsRun(states, steps) && i < j < |steps| && steps[j].0 == steps[i].0 && !steps[j].1.Free?
    requires StandsStill(steps, steps[i].0, i + 1, j)
    requires Drops(states[i], steps[i].1, name, file)
    ensures name in states[i + 1].registry ==> states[i + 1].registry[name] != file
    ensures forall k | k in states[j + 1].memory.frames :: k.file != file
  {
    hide Step, Inv, Drops, StandsStill;
    RunsKeepInvariant(states, steps, i);
    assert CanStep(states[i], steps[i].0, steps[i].1, states[i + 1]);
    DropStartsForgetting(states[i], steps[i].0, steps[i].1, states[i + 1], name, file);
    StillForgetting(states, steps, steps[i].0, i + 1, j, file);
    RunsKeepInvariant(states, steps, j);
    assert CanStep(states[j], steps[j].0, steps[j].1, states[j + 1]);
    ForgettingForgets(states[j], steps[j].0, steps[j].1, states[j + 1], file);
  }

  /** A thread that resizes the cache goes on to evict under the new limit. */
  lemma ResizeEnforces(s: State, t: nat, limit: nat, s': State)
    requires Inv(s) && t < |s.threads| && Step(s, t, Resize(limit), s')
    ensures s'.memory.limit == Some(limit) && t < |s'.threads| && s'.threads[t].Enforcing?
  {
    hide Inv, ThreadOk;
  }

  // ---------------------------------------------------------------------
  // The limit.

  /** The thread has yet to evict, or has failed to. */
  predicate WillEnforce(th: Thread) {
    || ((th.Touching? || th.Tracking?) && th.over)
    || th.Enforcing? || th.Chosen? || th.Stale? || th.Upgraded? || th.Evicting? || th.Broken?
  }

  ghost predicate LimitOk(s: State) {
    s.memory.OverLimit() ==> exists t :: 0 <= t < |s.threads| && WillEnforce(s.threads[t])
  }

  /** The thread goes on to evict while the limit is exceeded, and if it exceeds it. */
  ghost predicate Enforces(s: State, t: nat, s': State)
    requires t < |s.threads| == |s'.threads|
  {
    s'.memory.OverLimit() && (WillEnforce(s.threads[t]) || !s.memory.OverLimit()) ==> WillEnforce(s'.threads[t])
  }

  lemma ProbingEnforces(s: State, t: nat, act: Action, s': State)
    requires Inv(s) && t < |s.threads| && Step(s, t, act, s') && IsProbing(act) && |s'.threads| == |s.threads|
    ensures Enforces(s, t, s')
  {
    hide Inv, ThreadOk, AnswerOf, AnswerOk, AllResident, Resident, Live, FileOk, Loaded, Dropped, FrameBytes;
    hide RequestOk, Total, Recorded, Removed, IsForgotten, Released, Memory.OverLimit, Memory.IsOldest;
  }

  lemma EvictingEnforces(s: State, t: nat, act: Action, s': State)
    requires Inv(s) && t < |s.threads| && Step(s, t, act, s') && !IsProbing(act) && |s'.threads| == |s.threads|
    ensures Enforces(s, t, s')
  {
    hide Inv, ThreadOk, AnswerOf, AnswerOk, AllResident, Resident, Live, FileOk, Loaded, Dropped, FrameBytes;
    hide RequestOk, Total, Recorded, Released, Memory.IsOldest, Memory.Untouched;
    if act.Evict? || act.DropStale? {
      RemovalKeepsOld(s, s.threads[t].key);
    }
  }

  lemma StepKeepsLimit(s: State, t: nat, act: Action, s': State)
    requires Inv(s) && t < |s.threads| && Step(s, t, act, s') && LimitOk(s)
    ensures LimitOk(s')
  {
    hide Inv, Step, WillEnforce, Memory.OverLimit;
    OthersStand(s, t, act, s');
    if IsProbing(act) {
      ProbingEnforces(s, t, act, s');
    } else {
      EvictingEnforces(s, t, act, s');
    }
    if s.memory.OverLimit() {
      var u :| 0 <= u < |s.threads| && WillEnforce(s.threads[u]);
      assert u != t ==> s'.threads[u] == s.threads[u];
    }
  }

  lemma {:induction false} RunsKeepLimit(states: seq<State>, steps: seq<(nat, Action)>, j: nat)
    requires IsRun(states, steps) && j < |states|
    ensures LimitOk(states[j])
  {
    hide Step, Inv, LimitOk;
    if j == 0 {
      NothingResident(states[0]);
    } else {
      RunsKeepInvariant(states, steps, j - 1);
      RunsKeepLimit(states, steps, j - 1);
      assert CanStep(states[j - 1], steps[j - 1].0, steps[j - 1].1, states[j - 1 + 1]);
      StepKeepsLimit(states[j - 1], steps[j - 1].0, steps[j - 1].1, states[j]);
    }
  }

  lemma NothingResident(s: State)
    requires Initial(s)
    ensures LimitOk(s)
  {
  }

  /** In every run, the resident bytes are within the limit whenever all threads are idle. */
  lemma IdleIsWithinLimit(states: seq<State>, steps: seq<(nat, Action)>, j: nat)
    requires IsRun(states, steps) && j < |states|
    requires forall t | 0 <= t < |states[j].threads| :: states[j].threads[t].Idle?
    ensures var m := states[j].memory;
            m.limit.Some? ==> m.resident == Total(m.frames) <= m.limit.value
  {
    hide Step, Total;
    RunsKeepInvariant(states, steps, j);
    RunsKeepLimit(states, steps, j);
  }
}
