/** backend/instancemgmt: `instanceManager.Get` and the `locker` it uses, as a step relation over
    any number of goroutines, together with the disposal timers and the active-instances gauge. */
module Instances {
  import opened GoText
  import opened Freshness
  import opened Outcomes

  type Tid = nat
  type MutexId = nat
  type Key = GoString

  /** `disposable` says whether the instance implements InstanceDisposer. */
  datatype Instance = Instance(addr: nat, disposable: bool)
  datatype Cached = Cached(request: Request, instance: Instance)
  datatype Mutex = Mutex(readers: nat, writer: bool)
  datatype Outcome = Returned(instance: Instance) | Failed

  /** Where a call of Get stands; R: the read-locked lookup, W: the write-locked part. */
  datatype Pc =
    | Start
    | RLookup | RInstall | RAcquire(m: MutexId) | RLoad
    | RFind(item: Option<Cached>) | RRelease(m: MutexId, item: Option<Cached>) | RCheck(item: Option<Cached>)
    | WLookup | WInstall | WAcquire(m: MutexId) | WLoad
    | WCheck(found: Cached) | Retire(found: Cached)
    | Create(replacing: bool) | Store(made: Instance, replacing: bool) | Inc(made: Instance)
    | WFind(out: Outcome) | WRelease(m: MutexId, out: Outcome)
    | Done(out: Outcome)
    | Panicked

  datatype Thread = Thread(request: Request, pc: Pc)

  /** locker.locks, and the state of each mutex in it. */
  datatype Locker = Locker(locks: map<Key, MutexId>, mutexes: map<MutexId, Mutex>)

  /** Timers and gauge. `created`, `retired` and `disposed` are histories: which request made an
      instance, how often it was retired, how often Dispose ran. */
  datatype Lives = Lives(
    armed: multiset<Instance>,
    disposing: multiset<Instance>,
    gauge: int,
    created: map<Instance, Request>,
    retired: multiset<Instance>,
    disposed: multiset<Instance>)

  datatype State = State(threads: map<Tid, Thread>, locker: Locker, cache: map<Key, Cached>, lives: Lives)

  /** One atomic step: a goroutine moves (`made`: what NewInstance gives, `newLock`: the mutex a
      loadOrStore allocates), a timer fires and disposes, or the fired timer decrements the gauge. */
  datatype Action =
    | Move(t: Tid, made: Option<Instance>, newLock: MutexId)
    | Fire(i: Instance)
    | Decrement(i: Instance)

  predicate Init(s: State) {
    && (forall t :: t in s.threads ==> s.threads[t].pc.Start?)
    && s.cache == map[] && s.locker == Locker(map[], map[])
    && s.lives == Lives(multiset{}, multiset{}, 0, map[], multiset{}, multiset{})
  }

  predicate Free(l: Locker, m: MutexId) { m in l.mutexes && !l.mutexes[m].writer }

  predicate CanMove(s: State, th: Thread, made: Option<Instance>, newLock: MutexId) {
    match th.pc
    case RInstall => newLock !in s.locker.mutexes
    case WInstall => newLock !in s.locker.mutexes
    case RAcquire(m) => Free(s.locker, m)
    case WAcquire(m) => Free(s.locker, m) && s.locker.mutexes[m].readers == 0
    case _ => !th.pc.Done? && !th.pc.Panicked?
  }

  /** What NewInstance gives was never made before. */
  predicate GivesNew(v: Lives, th: Thread, made: Option<Instance>) {
    th.pc.Create? && made.Some? ==> made.value !in v.created
  }

  predicate Enabled(s: State, a: Action) {
    match a
    case Fire(i) => i in s.lives.armed
    case Decrement(i) => i in s.lives.disposing
    case Move(t, made, newLock) => t in s.threads && CanMove(s, s.threads[t], made, newLock)
  }

  function Apply(s: State, a: Action): State
    requires Enabled(s, a)
  {
    match a
    case Fire(i) =>
      s.(lives := s.lives.(armed := s.lives.armed - multiset{i},
                           disposing := s.lives.disposing + multiset{i},
                           disposed := s.lives.disposed + multiset{i}))
    case Decrement(i) =>
      s.(lives := s.lives.(disposing := s.lives.disposing - multiset{i}, gauge := s.lives.gauge - 1))
    case Move(t, made, newLock) =>
      var th := s.threads[t];
      State(s.threads[t := th.(pc := NextPc(s, th, made, newLock))],
            NextLocker(s.locker, th, newLock), NextCache(s.cache, th), NextLives(s.lives, th, made))
  }

  /** RUnlock and Unlock panic on a mutex that is missing or not held. */
  predicate ReadHeld(l: Locker, m: MutexId) { m in l.mutexes && l.mutexes[m].readers > 0 }

  predicate WriteHeld(l: Locker, m: MutexId) { m in l.mutexes && l.mutexes[m].writer }

  /** Control flow of Get, one shared-memory access a step. */
  function NextPc(s: State, th: Thread, made: Option<Instance>, newLock: MutexId): Pc {
    var k, locks := th.request.key, s.locker.locks;
    match th.pc
    case Start => if th.request.hasSettings then RLookup else Done(Failed)
    // RLock, Load, RUnlock
    case RLookup => if k in locks then RAcquire(locks[k]) else RInstall
    case RInstall => RAcquire(if k in locks then locks[k] else newLock)
    case RAcquire(m) => RLoad
    case RLoad => RFind(if k in s.cache then Some(s.cache[k]) else None)
    case RFind(item) => if k in locks then RRelease(locks[k], item) else Panicked
    case RRelease(m, item) => if ReadHeld(s.locker, m) then RCheck(item) else Panicked
    case RCheck(item) =>
      if item.Some? && !Outdated(th.request, item.value.request) then Done(Returned(item.value.instance)) else WLookup
    // Lock, second check, retire, create, store, count, deferred Unlock
    case WLookup => if k in locks then WAcquire(locks[k]) else WInstall
    case WInstall => WAcquire(if k in locks then locks[k] else newLock)
    case WAcquire(m) => WLoad
    case WLoad => if k in s.cache then WCheck(s.cache[k]) else Create(false)
    case WCheck(found) => if Outdated(th.request, found.request) then Retire(found) else WFind(Returned(found.instance))
    case Retire(found) => Create(true)
    case Create(replacing) => if made.Some? then Store(made.value, replacing) else WFind(Failed)
    case Store(i, _) => Inc(i)
    case Inc(i) => WFind(Returned(i))
    case WFind(out) => if k in locks then WRelease(locks[k], out) else Panicked
    case WRelease(m, out) => if WriteHeld(s.locker, m) then Done(out) else Panicked
    case Done(_) => th.pc
    case Panicked => th.pc
  }

  /** loadOrStore's second half: sync.Map.LoadOrStore with a fresh mutex. */
  function Install(l: Locker, k: Key, newLock: MutexId): Locker {
    if k in l.locks then l
    else Locker(l.locks[k := newLock], l.mutexes[newLock := Mutex(0, false)])
  }

  function SetMutex(l: Locker, m: MutexId, mu: Mutex): Locker { l.(mutexes := l.mutexes[m := mu]) }

  function NextLocker(l: Locker, th: Thread, newLock: MutexId): Locker {
    match th.pc
    case RInstall => Install(l, th.request.key, newLock)
    case WInstall => Install(l, th.request.key, newLock)
    case RAcquire(m) => if m in l.mutexes then SetMutex(l, m, l.mutexes[m].(readers := l.mutexes[m].readers + 1)) else l
    case RRelease(m, _) => if ReadHeld(l, m) then SetMutex(l, m, l.mutexes[m].(readers := l.mutexes[m].readers - 1)) else l
    case WAcquire(m) => if m in l.mutexes then SetMutex(l, m, l.mutexes[m].(writer := true)) else l
    case WRelease(m, _) => if WriteHeld(l, m) then SetMutex(l, m, l.mutexes[m].(writer := false)) else l
    case _ => l
  }

  function NextCache(cache: map<Key, Cached>, th: Thread): map<Key, Cached> {
    if th.pc.Store? then cache[th.request.key := Cached(th.request, th.pc.made)] else cache
  }

  /** Retire is AfterFunc(disposeTTL, Dispose; Dec) for a disposer and Dec at once otherwise. */
  function NextLives(v: Lives, th: Thread, made: Option<Instance>): Lives {
    match th.pc
    case Retire(found) =>
      var i := found.instance;
      if i.disposable then v.(retired := v.retired + multiset{i}, armed := v.armed + multiset{i})
      else v.(retired := v.retired + multiset{i}, gauge := v.gauge - 1)
    case Create(_) => if made.Some? then v.(created := v.created[made.value := th.request]) else v
    case Inc(_) => v.(gauge := v.gauge + 1)
    case _ => v
  }

  /** A run: every step enabled where it is taken. */
  predicate Run(s: State, acts: seq<Action>, end: State)
    decreases |acts|
  {
    if acts == [] then s == end else Enabled(s, acts[0]) && Run(Apply(s, acts[0]), acts[1..], end)
  }

  // ----- counting goroutines by what they are doing -----

  datatype Role = Reader(k: Key) | Writer(k: Key) | Replacing(k: Key) | AnyReplacing | Uncounted | Storing(i: Instance)

  predicate Plays(th: Thread, role: Role) {
    match role
    case Reader(k) => th.request.key == k && (th.pc.RLoad? || th.pc.RFind? || th.pc.RRelease?)
    case Writer(k) =>
      th.request.key == k && (th.pc.WLoad? || th.pc.WCheck? || th.pc.Retire? || th.pc.Create? || th.pc.Store?
                              || th.pc.Inc? || th.pc.WFind? || th.pc.WRelease?)
    case Replacing(k) => th.request.key == k && ((th.pc.Create? || th.pc.Store?) && th.pc.replacing)
    case AnyReplacing => (th.pc.Create? || th.pc.Store?) && th.pc.replacing
    case Uncounted => th.pc.Inc?
    case Storing(i) => th.pc.Store? && th.pc.made == i
  }

  function Players(threads: map<Tid, Thread>, role: Role): set<Tid> {
    set t | t in threads && Plays(threads[t], role)
  }

  function Count(threads: map<Tid, Thread>, role: Role): nat { |Players(threads, role)| }

  function Bit(b: bool): nat { if b then 1 else 0 }

  lemma CountAfter(threads: map<Tid, Thread>, t: Tid, th: Thread, role: Role)
    requires t in threads
    ensures Count(threads[t := th], role) + Bit(Plays(threads[t], role)) == Count(threads, role) + Bit(Plays(th, role))
  {
    var before, after := Players(threads, role), Players(threads[t := th], role);
    var others := before - {t};
    forall u ensures u in after <==> u in if Plays(th, role) then others + {t} else others {}
    assert after == if Plays(th, role) then others + {t} else others;
    assert before == if Plays(threads[t], role) then others + {t} else others;
  }

  lemma TwoPlayers(threads: map<Tid, Thread>, role: Role, t: Tid, u: Tid)
    requires t in threads && u in threads && Plays(threads[t], role) && Plays(threads[u], role)
    ensures Count(threads, role) >= 1
    ensures t != u ==> Count(threads, role) >= 2
  {
    assert {t} <= Players(threads, role);
    assert |Players(threads, role) - {t}| == Count(threads, role) - 1;
    if t != u {
      assert u in Players(threads, role) - {t};
    }
  }

  // ----- the invariant -----

  predicate KnownItem(v: Lives, k: Key, c: Cached) {
    c.instance in v.created && v.created[c.instance] == c.request && c.request.key == k
  }

  /** What a call may return: an instance made for its own key from an equivalent request. */
  predicate Serves(v: Lives, r: Request, out: Outcome) {
    out.Returned? ==>
      out.instance in v.created && v.created[out.instance].key == r.key && !Outdated(r, v.created[out.instance])
  }

  /** The goroutine uses the one mutex of its key. */
  predicate LockOk(l: Locker, th: Thread) {
    var k := th.request.key;
    match th.pc
    case RAcquire(m) => k in l.locks && m == l.locks[k]
    case WAcquire(m) => k in l.locks && m == l.locks[k]
    case RRelease(m, _) => k in l.locks && m == l.locks[k]
    case WRelease(m, _) => k in l.locks && m == l.locks[k]
    case _ => Plays(th, Reader(k)) || Plays(th, Writer(k)) ==> k in l.locks
  }

  /** What it remembers of the cache is true (write-locked) or was true (read-locked). */
  predicate ViewOk(cache: map<Key, Cached>, v: Lives, th: Thread) {
    var k := th.request.key;
    match th.pc
    case RFind(item) => item.Some? ==> KnownItem(v, k, item.value)
    case RRelease(_, item) => item.Some? ==> KnownItem(v, k, item.value)
    case RCheck(item) => item.Some? ==> KnownItem(v, k, item.value)
    case WCheck(found) => k in cache && cache[k] == found
    case Retire(found) => k in cache && cache[k] == found && Outdated(th.request, found.request)
    case Create(replacing) => replacing <==> k in cache
    case Store(i, replacing) =>
      && (replacing <==> k in cache)
      && i in v.created && v.created[i] == th.request && v.retired[i] == 0
      && (k in cache ==> cache[k].instance != i)
    case Inc(i) => k in cache && cache[k] == Cached(th.request, i) && KnownItem(v, k, cache[k])
    case WFind(out) => Serves(v, th.request, out)
    case WRelease(_, out) => Serves(v, th.request, out)
    case Done(out) => Serves(v, th.request, out)
    case Panicked => false
    case _ => true
  }

  ghost predicate ThreadOk(s: State, th: Thread) { LockOk(s.locker, th) && ViewOk(s.cache, s.lives, th) }

  ghost predicate EachLockOk(l: Locker, threads: map<Tid, Thread>) { forall t :: t in threads ==> LockOk(l, threads[t]) }

  ghost predicate ThreadsOk(s: State) { forall t :: t in s.threads ==> ThreadOk(s, s.threads[t]) }

  /** One mutex per key, and its state is exactly who holds it. */
  ghost predicate LocksOk(l: Locker, threads: map<Tid, Thread>) {
    && (forall k :: k in l.locks ==> l.locks[k] in l.mutexes)
    && (forall k, j :: k in l.locks && j in l.locks && k != j ==> l.locks[k] != l.locks[j])
    && (forall k :: k in l.locks ==>
          && l.mutexes[l.locks[k]].readers == Count(threads, Reader(k))
          && Bit(l.mutexes[l.locks[k]].writer) == Count(threads, Writer(k))
          && (l.mutexes[l.locks[k]].writer ==> l.mutexes[l.locks[k]].readers == 0))
  }

  /** A cached instance is scheduled for disposal only while a write-locked call is replacing it. */
  ghost predicate CacheOk(s: State) {
    forall k :: k in s.cache ==>
      && KnownItem(s.lives, k, s.cache[k])
      && s.lives.retired[s.cache[k].instance] == Count(s.threads, Replacing(k))
  }

  /** Every instance is retired at most once, and disposed at most once if it has a disposer. */
  predicate TimerOk(v: Lives, i: Instance) {
    && v.retired[i] <= 1 && (v.retired[i] > 0 ==> i in v.created)
    && v.armed[i] + v.disposed[i] == (if i.disposable then v.retired[i] else 0)
    && v.disposing[i] <= v.disposed[i]
  }

  ghost predicate TimersOk(v: Lives) { forall i :: TimerOk(v, i) }

  /** None is lost: it is retired, cached, or in the hands of the one call about to store it. */
  predicate Accounted(s: State, i: Instance) {
    && Count(s.threads, Storing(i)) <= 1
    && (i in s.lives.created ==>
          || s.lives.retired[i] > 0
          || Count(s.threads, Storing(i)) == 1
          || (s.lives.created[i].key in s.cache && s.cache[s.lives.created[i].key].instance == i))
  }

  ghost predicate AccountedOk(s: State) { forall i :: Accounted(s, i) }

  /** Conservation: cached plus pending disposals, corrected for calls between retiring and storing
      and for calls between storing and Inc. */
  ghost predicate GaugeOk(s: State) {
    s.lives.gauge == |s.cache| + |s.lives.armed| + |s.lives.disposing|
                     - Count(s.threads, AnyReplacing) - Count(s.threads, Uncounted)
  }

  ghost predicate Inv(s: State) {
    LocksOk(s.locker, s.threads) && ThreadsOk(s) && CacheOk(s) && TimersOk(s.lives) && AccountedOk(s) && GaugeOk(s)
  }

  /** The guard of the branch that breaks the lifecycle: NewInstance failing in a replacement. */
  predicate FailedReplacement(s: State, a: Action) {
    a.Move? && a.t in s.threads && s.threads[a.t].pc == Create(true) && a.made.None?
  }

  /** NewInstance gives back an instance it made before. */
  predicate Reuse(s: State, a: Action) { a.Move? && a.t in s.threads && !GivesNew(s.lives, s.threads[a.t], a.made) }

  lemma InitInv(s: State)
    requires Init(s)
    ensures Inv(s)
  {
    forall role: Role ensures Count(s.threads, role) == 0 {
      assert Players(s.threads, role) == {};
    }
  }

  // ----- every step keeps the locks -----

  lemma CountsAfter(threads: map<Tid, Thread>, t: Tid, th: Thread)
    requires t in threads
    ensures forall role: Role ::
              Count(threads[t := th], role) + Bit(Plays(threads[t], role)) == Count(threads, role) + Bit(Plays(th, role))
  {
    forall role: Role
      ensures Count(threads[t := th], role) + Bit(Plays(threads[t], role)) == Count(threads, role) + Bit(Plays(th, role))
    {
      CountAfter(threads, t, th, role);
    }
  }

  /** The steps that touch no lock. */
  predicate LockFree(pc: Pc) {
    !(pc.RInstall? || pc.RAcquire? || pc.RRelease? || pc.WInstall? || pc.WAcquire? || pc.WRelease?)
  }

  lemma LockFreeRoles(s: State, th: Thread, made: Option<Instance>, newLock: MutexId, k: Key)
    requires LockFree(th.pc) && LockOk(s.locker, th)
    ensures var moved := th.(pc := NextPc(s, th, made, newLock));
            Plays(th, Reader(k)) == Plays(moved, Reader(k)) && Plays(th, Writer(k)) == Plays(moved, Writer(k))
  {
  }

  lemma LockFreeKeepsLocks(l: Locker, threads: map<Tid, Thread>, t: Tid, th: Thread)
    requires LocksOk(l, threads) && t in threads
    requires forall k :: Plays(threads[t], Reader(k)) == Plays(th, Reader(k))
    requires forall k :: Plays(threads[t], Writer(k)) == Plays(th, Writer(k))
    ensures LocksOk(l, threads[t := th])
  {
    CountsAfter(threads, t, th);
  }

  /** Installing a mutex for a key nobody holds. */
  lemma InstallKeepsLocks(s: State, k: Key, newLock: MutexId)
    requires LocksOk(s.locker, s.threads) && EachLockOk(s.locker, s.threads) && newLock !in s.locker.mutexes
    ensures LocksOk(Install(s.locker, k, newLock), s.threads)
  {
    if k !in s.locker.locks {
      forall t | t in s.threads
        ensures !Plays(s.threads[t], Reader(k)) && !Plays(s.threads[t], Writer(k))
      {
        assert LockOk(s.locker, s.threads[t]);
      }
      assert Players(s.threads, Reader(k)) == {} && Players(s.threads, Writer(k)) == {};
    }
  }

  /** One key's mutex changes along with the count of its holders. */
  lemma HolderKeepsLocks(l: Locker, threads: map<Tid, Thread>, t: Tid, th: Thread, mu: Mutex)
    requires LocksOk(l, threads) && t in threads && threads[t].request == th.request && th.request.key in l.locks
    requires var k := th.request.key; var held := l.mutexes[l.locks[k]];
             && mu.readers + Bit(Plays(threads[t], Reader(k))) == held.readers + Bit(Plays(th, Reader(k)))
             && Bit(mu.writer) + Bit(Plays(threads[t], Writer(k))) == Bit(held.writer) + Bit(Plays(th, Writer(k)))
             && (mu.writer ==> mu.readers == 0)
    ensures LocksOk(SetMutex(l, l.locks[th.request.key], mu), threads[t := th])
  {
    var k := th.request.key;
    CountsAfter(threads, t, th);
    forall j | j in l.locks && j != k
      ensures Count(threads[t := th], Reader(j)) == Count(threads, Reader(j))
      ensures Count(threads[t := th], Writer(j)) == Count(threads, Writer(j))
    {
      assert !Plays(threads[t], Reader(j)) && !Plays(th, Reader(j));
      assert !Plays(threads[t], Writer(j)) && !Plays(th, Writer(j));
    }
  }

  lemma LockFreeMove(s: State, t: Tid, made: Option<Instance>, newLock: MutexId)
    requires LocksOk(s.locker, s.threads) && t in s.threads && LockOk(s.locker, s.threads[t]) && LockFree(s.threads[t].pc)
    ensures var th := s.threads[t];
            LocksOk(NextLocker(s.locker, th, newLock), s.threads[t := th.(pc := NextPc(s, th, made, newLock))])
  {
    var th := s.threads[t];
    var moved := th.(pc := NextPc(s, th, made, newLock));
    forall j ensures Plays(th, Reader(j)) == Plays(moved, Reader(j)) && Plays(th, Writer(j)) == Plays(moved, Writer(j)) {
      LockFreeRoles(s, th, made, newLock, j);
    }
    LockFreeKeepsLocks(s.locker, s.threads, t, moved);
  }

  /** What taking or releasing does to a mutex. */
  function MutexAfter(pc: Pc, mu: Mutex): Mutex {
    match pc
    case RAcquire(_) => mu.(readers := mu.readers + 1)
    case RRelease(_, _) => if mu.readers > 0 then mu.(readers := mu.readers - 1) else mu
    case WAcquire(_) => mu.(writer := true)
    case WRelease(_, _) => mu.(writer := false)
    case _ => mu
  }

  lemma NextMutex(l: Locker, th: Thread, newLock: MutexId)
    requires HoldsOrTakes(th.pc) && LockOk(l, th) && l.locks[th.request.key] in l.mutexes
    requires th.pc.RRelease? ==> ReadHeld(l, th.pc.m)
    requires th.pc.WRelease? ==> WriteHeld(l, th.pc.m)
    ensures var m := l.locks[th.request.key];
            NextLocker(l, th, newLock) == SetMutex(l, m, MutexAfter(th.pc, l.mutexes[m]))
  {
  }

  /** Changing the mutex changes the roles by the same. */
  lemma HolderRoles(s: State, th: Thread, made: Option<Instance>, newLock: MutexId, mu: Mutex)
    requires HoldsOrTakes(th.pc) && CanMove(s, th, made, newLock) && (mu.writer ==> mu.readers == 0)
    requires th.pc.RAcquire? ==> !mu.writer
    requires th.pc.WAcquire? ==> !mu.writer && mu.readers == 0
    requires th.pc.RRelease? ==> mu.readers > 0 && ReadHeld(s.locker, th.pc.m)
    requires th.pc.WRelease? ==> mu.writer && WriteHeld(s.locker, th.pc.m)
    ensures var k, moved, after := th.request.key, th.(pc := NextPc(s, th, made, newLock)), MutexAfter(th.pc, mu);
            && after.readers + Bit(Plays(th, Reader(k))) == mu.readers + Bit(Plays(moved, Reader(k)))
            && Bit(after.writer) + Bit(Plays(th, Writer(k))) == Bit(mu.writer) + Bit(Plays(moved, Writer(k)))
            && (after.writer ==> after.readers == 0)
  {
  }

  lemma HeldByHolder(s: State, t: Tid)
    requires LocksOk(s.locker, s.threads) && t in s.threads && LockOk(s.locker, s.threads[t])
    ensures s.threads[t].pc.RRelease? ==> ReadHeld(s.locker, s.threads[t].pc.m)
    ensures s.threads[t].pc.WRelease? ==> WriteHeld(s.locker, s.threads[t].pc.m)
  {
    var th := s.threads[t];
    if th.pc.RRelease? { TwoPlayers(s.threads, Reader(th.request.key), t, t); }
    if th.pc.WRelease? { TwoPlayers(s.threads, Writer(th.request.key), t, t); }
  }

  predicate HoldsOrTakes(pc: Pc) { pc.RAcquire? || pc.RRelease? || pc.WAcquire? || pc.WRelease? }

  lemma HolderMove(s: State, t: Tid, made: Option<Instance>, newLock: MutexId)
    requires LocksOk(s.locker, s.threads) && t in s.threads && LockOk(s.locker, s.threads[t])
    requires CanMove(s, s.threads[t], made, newLock) && HoldsOrTakes(s.threads[t].pc)
    ensures var th := s.threads[t];
            LocksOk(NextLocker(s.locker, th, newLock), s.threads[t := th.(pc := NextPc(s, th, made, newLock))])
  {
    var th := s.threads[t];
    var m := s.locker.locks[th.request.key];
    HeldByHolder(s, t);
    NextMutex(s.locker, th, newLock);
    HolderRoles(s, th, made, newLock, s.locker.mutexes[m]);
    HolderKeepsLocks(s.locker, s.threads, t, th.(pc := NextPc(s, th, made, newLock)), MutexAfter(th.pc, s.locker.mutexes[m]));
  }

  lemma InstallRoles(s: State, th: Thread, made: Option<Instance>, newLock: MutexId)
    requires th.pc.RInstall? || th.pc.WInstall?
    ensures var moved := th.(pc := NextPc(s, th, made, newLock));
            forall k :: Plays(th, Reader(k)) == Plays(moved, Reader(k)) && Plays(th, Writer(k)) == Plays(moved, Writer(k))
  {
  }

  lemma InstallMove(s: State, t: Tid, made: Option<Instance>, newLock: MutexId)
    requires LocksOk(s.locker, s.threads) && EachLockOk(s.locker, s.threads) && Enabled(s, Move(t, made, newLock))
    requires s.threads[t].pc.RInstall? || s.threads[t].pc.WInstall?
    ensures var th := s.threads[t];
            LocksOk(NextLocker(s.locker, th, newLock), s.threads[t := th.(pc := NextPc(s, th, made, newLock))])
  {
    var th := s.threads[t];
    InstallKeepsLocks(s, th.request.key, newLock);
    InstallRoles(s, th, made, newLock);
    LockFreeKeepsLocks(Install(s.locker, th.request.key, newLock), s.threads, t, th.(pc := NextPc(s, th, made, newLock)));
  }

  lemma MoveKeepsLocks(s: State, t: Tid, made: Option<Instance>, newLock: MutexId)
    requires LocksOk(s.locker, s.threads) && EachLockOk(s.locker, s.threads) && Enabled(s, Move(t, made, newLock))
    ensures var end := Apply(s, Move(t, made, newLock)); LocksOk(end.locker, end.threads)
  {
    var th := s.threads[t];
    assert LockOk(s.locker, th);
    if LockFree(th.pc) {
      LockFreeMove(s, t, made, newLock);
    } else if th.pc.RInstall? || th.pc.WInstall? {
      InstallMove(s, t, made, newLock);
    } else {
      HolderMove(s, t, made, newLock);
    }
  }

  // ----- every step keeps what each goroutine relies on -----

  lemma OneWriter(s: State, k: Key, t: Tid, u: Tid)
    requires LocksOk(s.locker, s.threads) && k in s.locker.locks
    requires t in s.threads && u in s.threads && Plays(s.threads[t], Writer(k)) && Plays(s.threads[u], Writer(k))
    ensures t == u
  {
    TwoPlayers(s.threads, Writer(k), t, u);
  }

  lemma OthersKeepLock(s: State, t: Tid, made: Option<Instance>, newLock: MutexId, other: Thread)
    requires t in s.threads && LockOk(s.locker, s.threads[t]) && LockOk(s.locker, other)
    ensures LockOk(NextLocker(s.locker, s.threads[t], newLock), other)
  {
    assert forall k :: k in s.locker.locks ==>
             k in NextLocker(s.locker, s.threads[t], newLock).locks
             && NextLocker(s.locker, s.threads[t], newLock).locks[k] == s.locker.locks[k];
  }

  /** A view survives the step of another goroutine: what it could disturb needs the key's one write lock. */
  lemma ViewSurvives(cache: map<Key, Cached>, v: Lives, th: Thread, made: Option<Instance>, other: Thread)
    requires ViewOk(cache, v, th) && ViewOk(cache, v, other)
    requires !(th.request.key == other.request.key && Plays(th, Writer(th.request.key)) && Plays(other, Writer(th.request.key)))
    requires GivesNew(v, th, made)
    requires th.request.key in cache ==> KnownItem(v, th.request.key, cache[th.request.key])
    ensures ViewOk(NextCache(cache, th), NextLives(v, th, made), other)
  {
  }

  lemma OthersKeepView(s: State, t: Tid, made: Option<Instance>, newLock: MutexId, u: Tid)
    requires LocksOk(s.locker, s.threads) && CacheOk(s) && Enabled(s, Move(t, made, newLock)) && u in s.threads && u != t
    requires ThreadOk(s, s.threads[t]) && ThreadOk(s, s.threads[u]) && GivesNew(s.lives, s.threads[t], made)
    ensures ViewOk(NextCache(s.cache, s.threads[t]), NextLives(s.lives, s.threads[t], made), s.threads[u])
  {
    var th, other := s.threads[t], s.threads[u];
    var k := th.request.key;
    if Plays(th, Writer(k)) && Plays(other, Writer(k)) { OneWriter(s, k, t, u); }
    ViewSurvives(s.cache, s.lives, th, made, other);
  }

  lemma OwnLock(s: State, th: Thread, made: Option<Instance>, newLock: MutexId)
    requires CanMove(s, th, made, newLock) && LockOk(s.locker, th)
    ensures LockOk(NextLocker(s.locker, th, newLock), th.(pc := NextPc(s, th, made, newLock)))
  {
  }

  lemma OwnView(s: State, th: Thread, made: Option<Instance>, newLock: MutexId)
    requires CanMove(s, th, made, newLock) && ViewOk(s.cache, s.lives, th) && GivesNew(s.lives, th, made)
    requires th.request.key in s.cache ==> KnownItem(s.lives, th.request.key, s.cache[th.request.key])
    requires made.Some? && made.value !in s.lives.created ==> s.lives.retired[made.value] == 0
    requires !NextPc(s, th, made, newLock).Panicked?
    ensures ViewOk(NextCache(s.cache, th), NextLives(s.lives, th, made), th.(pc := NextPc(s, th, made, newLock)))
  {
  }

  /** RUnlock and Unlock always find their mutex, held. */
  lemma NeverPanics(s: State, t: Tid, made: Option<Instance>, newLock: MutexId)
    requires LocksOk(s.locker, s.threads) && t in s.threads && LockOk(s.locker, s.threads[t])
    requires CanMove(s, s.threads[t], made, newLock)
    ensures !NextPc(s, s.threads[t], made, newLock).Panicked?
  {
    var th := s.threads[t];
    if Plays(th, Reader(th.request.key)) { TwoPlayers(s.threads, Reader(th.request.key), t, t); }
    if Plays(th, Writer(th.request.key)) { TwoPlayers(s.threads, Writer(th.request.key), t, t); }
  }

  lemma MoveKeepsThreads(s: State, t: Tid, made: Option<Instance>, newLock: MutexId)
    requires Inv(s) && Enabled(s, Move(t, made, newLock)) && GivesNew(s.lives, s.threads[t], made)
    ensures ThreadsOk(Apply(s, Move(t, made, newLock)))
  {
    var end := Apply(s, Move(t, made, newLock));
    assert ThreadOk(s, s.threads[t]);
    assert made.Some? ==> TimerOk(s.lives, made.value);
    forall u | u in end.threads ensures ThreadOk(end, end.threads[u]) {
      if u == t {
        OwnLock(s, s.threads[t], made, newLock);
        NeverPanics(s, t, made, newLock);
        OwnView(s, s.threads[t], made, newLock);
      } else {
        assert ThreadOk(s, s.threads[u]);
        OthersKeepLock(s, t, made, newLock, s.threads[u]);
        OthersKeepView(s, t, made, newLock, u);
      }
    }
  }

  // ----- every step but a failed replacement keeps cache, timers and gauge -----

  /** A write-locked goroutine is the only one that can be replacing its key's instance. */
  lemma SoleReplacer(s: State, t: Tid)
    requires LocksOk(s.locker, s.threads) && t in s.threads && LockOk(s.locker, s.threads[t])
    requires Plays(s.threads[t], Writer(s.threads[t].request.key))
    ensures var k := s.threads[t].request.key;
            Count(s.threads, Replacing(k)) == Bit(Plays(s.threads[t], Replacing(k)))
  {
    var k := s.threads[t].request.key;
    forall u | u in s.threads && Plays(s.threads[u], Replacing(k)) ensures u == t {
      assert Plays(s.threads[u], Writer(k));
      OneWriter(s, k, t, u);
    }
    assert Players(s.threads, Replacing(k)) == if Plays(s.threads[t], Replacing(k)) then {t} else {};
  }

  /** How a step changes the roles the lifecycle counts. */
  lemma RolesAfter(s: State, th: Thread, made: Option<Instance>, newLock: MutexId)
    ensures var moved := th.(pc := NextPc(s, th, made, newLock));
            && (forall k :: Plays(moved, Replacing(k)) <==>
                  th.request.key == k && (th.pc.Retire? || (th.pc == Create(true) && made.Some?)))
            && (Plays(moved, AnyReplacing) <==> th.pc.Retire? || (th.pc == Create(true) && made.Some?))
            && (Plays(moved, Uncounted) <==> th.pc.Store?)
            && (forall i :: Plays(moved, Storing(i)) <==> th.pc.Create? && made == Some(i))
  {
  }

  lemma ReplacingAfter(s: State, t: Tid, made: Option<Instance>, newLock: MutexId, k: Key)
    requires t in s.threads && CanMove(s, s.threads[t], made, newLock)
    ensures var th := s.threads[t];
            Count(Apply(s, Move(t, made, newLock)).threads, Replacing(k)) + Bit(Plays(th, Replacing(k)))
            == Count(s.threads, Replacing(k))
               + Bit(th.request.key == k && (th.pc.Retire? || (th.pc == Create(true) && made.Some?)))
  {
    var th := s.threads[t];
    RolesAfter(s, th, made, newLock);
    CountAfter(s.threads, t, th.(pc := NextPc(s, th, made, newLock)), Replacing(k));
  }

  lemma MoveKeepsCacheAt(s: State, t: Tid, made: Option<Instance>, newLock: MutexId, k: Key)
    requires LocksOk(s.locker, s.threads) && CacheOk(s) && t in s.threads && ThreadOk(s, s.threads[t])
    requires CanMove(s, s.threads[t], made, newLock) && !(s.threads[t].pc == Create(true) && made.None?)
    requires k in NextCache(s.cache, s.threads[t]) && GivesNew(s.lives, s.threads[t], made)
    ensures var c := NextCache(s.cache, s.threads[t])[k]; var v := NextLives(s.lives, s.threads[t], made);
            var threads := Apply(s, Move(t, made, newLock)).threads;
            KnownItem(v, k, c) && v.retired[c.instance] == Count(threads, Replacing(k))
  {
    var th := s.threads[t];
    ReplacingAfter(s, t, made, newLock, k);
    if th.pc.Store? && th.request.key == k { SoleReplacer(s, t); }
  }

  lemma MoveKeepsCache(s: State, t: Tid, made: Option<Instance>, newLock: MutexId)
    requires Inv(s) && Enabled(s, Move(t, made, newLock)) && !FailedReplacement(s, Move(t, made, newLock))
    requires GivesNew(s.lives, s.threads[t], made)
    ensures CacheOk(Apply(s, Move(t, made, newLock)))
  {
    assert ThreadOk(s, s.threads[t]);
    forall k | k in NextCache(s.cache, s.threads[t]) {
      MoveKeepsCacheAt(s, t, made, newLock, k);
    }
  }

  lemma MoveKeepsTimers(s: State, t: Tid, made: Option<Instance>)
    requires LocksOk(s.locker, s.threads) && CacheOk(s) && TimersOk(s.lives) && t in s.threads && ThreadOk(s, s.threads[t])
    ensures TimersOk(NextLives(s.lives, s.threads[t], made))
  {
    var th := s.threads[t];
    if th.pc.Retire? {
      SoleReplacer(s, t);
      assert s.lives.retired[th.pc.found.instance] == 0;
    }
    forall i: Instance ensures TimerOk(NextLives(s.lives, th, made), i) {
      assert TimerOk(s.lives, i);
    }
  }

  lemma {:induction false} NotStoring(s: State, i: Instance)
    requires ThreadsOk(s) && i !in s.lives.created
    ensures Count(s.threads, Storing(i)) == 0
  {
    forall u | u in s.threads ensures !Plays(s.threads[u], Storing(i)) {
      assert ThreadOk(s, s.threads[u]);
    }
    assert Players(s.threads, Storing(i)) == {};
  }

  lemma MoveKeepsAccountedAt(s: State, t: Tid, made: Option<Instance>, newLock: MutexId, i: Instance)
    requires t in s.threads && ThreadOk(s, s.threads[t]) && CanMove(s, s.threads[t], made, newLock)
    requires Accounted(s, i) && GivesNew(s.lives, s.threads[t], made)
    requires i !in s.lives.created ==> Count(s.threads, Storing(i)) == 0
    requires var th := s.threads[t];
             th.pc.Store? && th.request.key in s.cache ==> s.lives.retired[s.cache[th.request.key].instance] > 0
    ensures Accounted(Apply(s, Move(t, made, newLock)), i)
  {
    var th := s.threads[t];
    RolesAfter(s, th, made, newLock);
    CountAfter(s.threads, t, th.(pc := NextPc(s, th, made, newLock)), Storing(i));
  }

  lemma MoveKeepsAccounted(s: State, t: Tid, made: Option<Instance>, newLock: MutexId)
    requires LocksOk(s.locker, s.threads) && ThreadsOk(s) && CacheOk(s) && AccountedOk(s) && Enabled(s, Move(t, made, newLock))
    requires GivesNew(s.lives, s.threads[t], made)
    ensures AccountedOk(Apply(s, Move(t, made, newLock)))
  {
    var th := s.threads[t];
    assert ThreadOk(s, th);
    if th.pc.Store? { SoleReplacer(s, t); }
    forall i: Instance | i !in s.lives.created ensures Count(s.threads, Storing(i)) == 0 { NotStoring(s, i); }
    forall i: Instance ensures Accounted(Apply(s, Move(t, made, newLock)), i) {
      assert Accounted(s, i);
      MoveKeepsAccountedAt(s, t, made, newLock, i);
    }
  }

  function Ledger(cache: map<Key, Cached>, v: Lives): int { |cache| + |v.armed| + |v.disposing| - v.gauge }

  /** What is missing from the gauge. */
  function Owed(s: State): int {
    Ledger(s.cache, s.lives) - Count(s.threads, AnyReplacing) - Count(s.threads, Uncounted)
  }

  /** What a write-locked goroutine knows of its key's cache entry: whether there is one. */
  predicate CacheSeen(cache: map<Key, Cached>, th: Thread) {
    var k := th.request.key;
    match th.pc
    case WCheck(_) => k in cache
    case Retire(_) => k in cache
    case Create(replacing) => replacing <==> k in cache
    case Store(_, replacing) => replacing <==> k in cache
    case Panicked => false
    case _ => true
  }

  lemma LedgerAfter(cache: map<Key, Cached>, v: Lives, th: Thread, made: Option<Instance>)
    requires CacheSeen(cache, th)
    ensures Ledger(NextCache(cache, th), NextLives(v, th, made))
         == Ledger(cache, v) + Bit(th.pc.Retire?) + Bit(th.pc.Store? && !th.pc.replacing) - Bit(th.pc.Inc?)
  {
  }

  lemma CorrectionsAfter(s: State, t: Tid, made: Option<Instance>, newLock: MutexId)
    requires t in s.threads
    ensures var th := s.threads[t]; var after := s.threads[t := th.(pc := NextPc(s, th, made, newLock))];
            && Count(after, AnyReplacing) + Bit(Plays(th, AnyReplacing))
               == Count(s.threads, AnyReplacing) + Bit(th.pc.Retire? || (th.pc == Create(true) && made.Some?))
            && Count(after, Uncounted) + Bit(th.pc.Inc?) == Count(s.threads, Uncounted) + Bit(th.pc.Store?)
  {
    var th := s.threads[t];
    var moved := th.(pc := NextPc(s, th, made, newLock));
    RolesAfter(s, th, made, newLock);
    CountAfter(s.threads, t, moved, AnyReplacing);
    CountAfter(s.threads, t, moved, Uncounted);
  }

  lemma MoveOwes(s: State, a: Action)
    requires a.Move? && Enabled(s, a) && CacheSeen(s.cache, s.threads[a.t])
    ensures Owed(Apply(s, a)) == Owed(s) + Bit(FailedReplacement(s, a))
  {
    LedgerAfter(s.cache, s.lives, s.threads[a.t], a.made);
    CorrectionsAfter(s, a.t, a.made, a.newLock);
  }

  /** A step leaves the gauge one short when a replacement fails, and otherwise as right as it was. */
  lemma StepOwes(s: State, a: Action)
    requires Enabled(s, a) && (a.Move? ==> CacheSeen(s.cache, s.threads[a.t]))
    ensures Owed(Apply(s, a)) == Owed(s) + Bit(FailedReplacement(s, a))
  {
    if a.Move? { MoveOwes(s, a); }
  }

  lemma TimerStepKeepsInv(s: State, a: Action)
    requires Inv(s) && Enabled(s, a) && !a.Move?
    ensures Inv(Apply(s, a))
  {
    var end := Apply(s, a);
    forall i: Instance ensures TimerOk(end.lives, i) {
      assert TimerOk(s.lives, i);
    }
    forall i: Instance ensures Accounted(end, i) {
      assert Accounted(s, i);
    }
    forall t | t in end.threads ensures ThreadOk(end, end.threads[t]) {
      assert ThreadOk(s, s.threads[t]);
    }
  }

  lemma EachOk(s: State)
    requires ThreadsOk(s)
    ensures EachLockOk(s.locker, s.threads)
  {
    forall t | t in s.threads ensures LockOk(s.locker, s.threads[t]) { assert ThreadOk(s, s.threads[t]); }
  }

  lemma StepKeepsInv(s: State, a: Action)
    requires Inv(s) && Enabled(s, a) && !FailedReplacement(s, a) && !Reuse(s, a)
    ensures Inv(Apply(s, a))
  {
    if a.Move? {
      EachOk(s);
      MoveKeepsLocks(s, a.t, a.made, a.newLock);
      MoveKeepsThreads(s, a.t, a.made, a.newLock);
      MoveKeepsCache(s, a.t, a.made, a.newLock);
      assert ThreadOk(s, s.threads[a.t]);
      MoveKeepsTimers(s, a.t, a.made);
      MoveKeepsAccounted(s, a.t, a.made, a.newLock);
      StepOwes(s, a);
    } else {
      TimerStepKeepsInv(s, a);
    }
  }

  /** A reused instance that is already scheduled. */
  lemma ReuseOfRetired(s: State, a: Action)
    requires Enabled(s, a) && Reuse(s, a) && s.lives.retired[a.made.value] > 0
    ensures !ThreadsOk(Apply(s, a))
  {
    var end := Apply(s, a);
    assert !ThreadOk(end, end.threads[a.t]);
  }

  /** One that another call is about to store. */
  lemma ReuseOfStored(s: State, a: Action)
    requires Enabled(s, a) && Reuse(s, a) && Count(s.threads, Storing(a.made.value)) == 1
    ensures !AccountedOk(Apply(s, a))
  {
    var th := s.threads[a.t];
    CountAfter(s.threads, a.t, th.(pc := NextPc(s, th, a.made, a.newLock)), Storing(a.made.value));
    assert !Accounted(Apply(s, a), a.made.value);
  }

  /** One that is cached for another key. */
  lemma ReuseOfCached(s: State, a: Action, k: Key)
    requires Enabled(s, a) && Reuse(s, a) && k in s.cache && s.cache[k].instance == a.made.value
    requires k != s.threads[a.t].request.key && CacheOk(s)
    ensures !CacheOk(Apply(s, a))
  {
    assert !KnownItem(Apply(s, a).lives, k, Apply(s, a).cache[k]);
  }

  /** A reused instance is already scheduled, or about to be stored by another call, or cached for another key. */
  lemma ReuseBreaksInv(s: State, a: Action)
    requires Inv(s) && Enabled(s, a) && Reuse(s, a)
    ensures !Inv(Apply(s, a))
  {
    var i := a.made.value;
    assert Accounted(s, i);
    if s.lives.retired[i] > 0 {
      ReuseOfRetired(s, a);
    } else if Count(s.threads, Storing(i)) == 1 {
      ReuseOfStored(s, a);
    } else {
      OtherKeysInstance(s, a.t, i);
      ReuseOfCached(s, a, s.lives.created[i].key);
    }
  }

  lemma OtherKeysInstance(s: State, t: Tid, i: Instance)
    requires Inv(s) && t in s.threads && s.threads[t].pc.Create? && i in s.lives.created && s.lives.retired[i] == 0
    requires s.lives.created[i].key in s.cache && s.cache[s.lives.created[i].key].instance == i
    ensures s.lives.created[i].key != s.threads[t].request.key
  {
    assert ThreadOk(s, s.threads[t]);
    if s.threads[t].pc.replacing { TwoPlayers(s.threads, Replacing(s.threads[t].request.key), t, t); }
  }

  /** The two failing cases are the exact boundary: a replacement whose NewInstance fails, and a NewInstance that gives back
      an instance it made before, break the lifecycle, and no other step does. */
  lemma StepKeepsInvExactly(s: State, a: Action)
    requires Inv(s) && Enabled(s, a)
    ensures Inv(Apply(s, a)) <==> !FailedReplacement(s, a) && !Reuse(s, a)
  {
    if FailedReplacement(s, a) {
      var k := s.threads[a.t].request.key;
      assert ThreadOk(s, s.threads[a.t]);
      SoleReplacer(s, a.t);
      RolesAfter(s, s.threads[a.t], a.made, a.newLock);
      CountAfter(s.threads, a.t, s.threads[a.t].(pc := WFind(Failed)), Replacing(k));
      assert k in Apply(s, a).cache;
    } else if Reuse(s, a) {
      ReuseBreaksInv(s, a);
    } else {
      StepKeepsInv(s, a);
    }
  }

  // ----- what holds over every run -----

  /** What no step breaks, whatever NewInstance does. */
  ghost predicate Base(s: State) {
    && LocksOk(s.locker, s.threads) && EachLockOk(s.locker, s.threads)
    && forall t :: t in s.threads ==> CacheSeen(s.cache, s.threads[t])
  }

  lemma OwnCacheSeen(s: State, th: Thread, made: Option<Instance>, newLock: MutexId)
    requires CacheSeen(s.cache, th) && !NextPc(s, th, made, newLock).Panicked?
    ensures CacheSeen(NextCache(s.cache, th), th.(pc := NextPc(s, th, made, newLock)))
  {
  }

  lemma OtherCacheSeen(s: State, t: Tid, u: Tid)
    requires Base(s) && t in s.threads && u in s.threads && u != t
    ensures CacheSeen(NextCache(s.cache, s.threads[t]), s.threads[u])
  {
    var th, other := s.threads[t], s.threads[u];
    assert CacheSeen(s.cache, other) && LockOk(s.locker, th);
    if th.pc.Store? && th.request.key == other.request.key && Plays(other, Writer(th.request.key)) {
      OneWriter(s, th.request.key, t, u);
    }
  }

  lemma StepKeepsBase(s: State, a: Action)
    requires Base(s) && Enabled(s, a)
    ensures Base(Apply(s, a))
  {
    if a.Move? {
      var th, end := s.threads[a.t], Apply(s, a);
      MoveKeepsLocks(s, a.t, a.made, a.newLock);
      NeverPanics(s, a.t, a.made, a.newLock);
      forall u | u in end.threads ensures LockOk(end.locker, end.threads[u]) && CacheSeen(end.cache, end.threads[u]) {
        if u == a.t {
          OwnLock(s, th, a.made, a.newLock);
          OwnCacheSeen(s, th, a.made, a.newLock);
        } else {
          OthersKeepLock(s, a.t, a.made, a.newLock, s.threads[u]);
          OtherCacheSeen(s, a.t, u);
        }
      }
    }
  }

  /** How many replacements failed along the run. */
  function Failures(s: State, acts: seq<Action>): nat
    decreases |acts|
  {
    if acts == [] || !Enabled(s, acts[0]) then 0
    else Bit(FailedReplacement(s, acts[0])) + Failures(Apply(s, acts[0]), acts[1..])
  }

  lemma {:induction false} RunOwes(s: State, acts: seq<Action>, end: State)
    requires Base(s) && Run(s, acts, end)
    ensures Base(end) && Owed(end) == Owed(s) + Failures(s, acts)
    decreases |acts|
  {
    if acts != [] {
      var next := Apply(s, acts[0]);
      StepOwes(s, acts[0]);
      StepKeepsBase(s, acts[0]);
      RunOwes(next, acts[1..], end);
    }
  }

  lemma InitBase(s: State)
    requires Init(s)
    ensures Base(s) && Owed(s) == 0
  {
    forall role: Role ensures Count(s.threads, role) == 0 {
      assert Players(s.threads, role) == {};
    }
  }

  /** Over every run, failing and reusing ones included: the gauge is one short for every replacement that failed, the locks
      are sound, and nobody panics. */
  lemma GaugeLaw(s0: State, acts: seq<Action>, s: State)
    requires Init(s0) && Run(s0, acts, s)
    ensures s.lives.gauge + Failures(s0, acts)
         == |s.cache| + |s.lives.armed| + |s.lives.disposing| - Count(s.threads, AnyReplacing) - Count(s.threads, Uncounted)
    ensures LocksOk(s.locker, s.threads) && forall t :: t in s.threads ==> !s.threads[t].pc.Panicked?
  {
    InitBase(s0);
    RunOwes(s0, acts, s);
    forall t | t in s.threads ensures !s.threads[t].pc.Panicked? { assert CacheSeen(s.cache, s.threads[t]); }
  }

  // ----- runs without such steps -----

  predicate NoFailedReplacement(s: State, acts: seq<Action>)
    decreases |acts|
  {
    acts != [] && Enabled(s, acts[0]) ==>
      !FailedReplacement(s, acts[0]) && NoFailedReplacement(Apply(s, acts[0]), acts[1..])
  }

  /** Along the run NewInstance never gives back an instance it made before. */
  predicate OnlyNewInstances(s: State, acts: seq<Action>)
    decreases |acts|
  {
    acts != [] && Enabled(s, acts[0]) ==> !Reuse(s, acts[0]) && OnlyNewInstances(Apply(s, acts[0]), acts[1..])
  }

  lemma {:induction false} RunKeepsInv(s: State, acts: seq<Action>, end: State)
    requires Inv(s) && Run(s, acts, end) && NoFailedReplacement(s, acts) && OnlyNewInstances(s, acts)
    ensures Inv(end)
    decreases |acts|
  {
    if acts != [] {
      StepKeepsInv(s, acts[0]);
      RunKeepsInv(Apply(s, acts[0]), acts[1..], end);
    }
  }

  /** The instance was made from a request with this key, update time and configuration. */
  predicate MadeLike(v: Lives, r: Request, out: Outcome) {
    out.Returned? ==>
      && out.instance in v.created && v.created[out.instance].key == r.key
      && v.created[out.instance].updated == r.updated && v.created[out.instance].cfg == r.cfg
  }

  lemma CallIsSound(s: State, t: Tid)
    requires ThreadsOk(s) && t in s.threads
    ensures !s.threads[t].pc.Panicked?
    ensures s.threads[t].pc.Done? ==> Serves(s.lives, s.threads[t].request, s.threads[t].pc.out)
  {
    assert ThreadOk(s, s.threads[t]);
  }

  /** Lifecycle conservation over every run in which no replacement fails. */
  lemma Lifecycle(s0: State, acts: seq<Action>, s: State)
    requires Init(s0) && Run(s0, acts, s) && NoFailedReplacement(s0, acts) && OnlyNewInstances(s0, acts)
    ensures GaugeOk(s) && AccountedOk(s) && TimersOk(s.lives)
    ensures forall i :: s.lives.disposed[i] <= s.lives.retired[i] <= 1
    ensures forall t :: t in s.threads ==> !s.threads[t].pc.Panicked?
    ensures forall t :: t in s.threads && s.threads[t].pc.Done? ==>
              Serves(s.lives, s.threads[t].request, s.threads[t].pc.out) && MadeLike(s.lives, s.threads[t].request, s.threads[t].pc.out)
  {
    InitInv(s0);
    RunKeepsInv(s0, acts, s);
    forall i: Instance ensures s.lives.disposed[i] <= s.lives.retired[i] <= 1 {
      assert TimerOk(s.lives, i);
    }
    forall t | t in s.threads
      ensures !s.threads[t].pc.Panicked?
      ensures s.threads[t].pc.Done? ==> Serves(s.lives, s.threads[t].request, s.threads[t].pc.out)
    {
      CallIsSound(s, t);
    }
  }

  /** Neither lookup of Get can see an instance that is already scheduled for disposal. */
  lemma LoadsAreLive(s: State, t: Tid)
    requires Inv(s) && t in s.threads && (s.threads[t].pc.RLoad? || s.threads[t].pc.WLoad?)
    ensures var k := s.threads[t].request.key;
            k in s.cache ==> s.lives.retired[s.cache[k].instance] == 0
  {
    var k := s.threads[t].request.key;
    assert ThreadOk(s, s.threads[t]);
    if s.threads[t].pc.RLoad? {
      TwoPlayers(s.threads, Reader(k), t, t);
      forall u | u in s.threads ensures !Plays(s.threads[u], Replacing(k)) {
        if Plays(s.threads[u], Replacing(k)) {
          assert Plays(s.threads[u], Writer(k));
          TwoPlayers(s.threads, Writer(k), u, u);
        }
      }
      assert Players(s.threads, Replacing(k)) == {};
    } else {
      SoleReplacer(s, t);
    }
  }

  predicate Finished(pc: Pc) { pc.Done? || pc.Panicked? }

  predicate IsCached(s: State, i: Instance) {
    i in s.lives.created && s.lives.created[i].key in s.cache && s.cache[s.lives.created[i].key].instance == i
  }

  lemma NobodyPlays(threads: map<Tid, Thread>)
    requires forall t :: t in threads ==> Finished(threads[t].pc)
    ensures forall role: Role :: Count(threads, role) == 0
  {
    forall role: Role ensures Count(threads, role) == 0 {
      assert Players(threads, role) == {};
    }
  }

  /** When every call has returned and every timer has run, the gauge is the number of cached
      instances, and a disposer has been disposed exactly when it is no longer the cached one. */
  lemma AtRest(s: State)
    requires CacheOk(s) && TimersOk(s.lives) && AccountedOk(s) && GaugeOk(s)
    requires forall t :: t in s.threads ==> Finished(s.threads[t].pc)
    requires s.lives.armed == s.lives.disposing == multiset{}
    ensures s.lives.gauge == |s.cache|
    ensures forall i :: i in s.lives.created ==>
              && s.lives.retired[i] == Bit(!IsCached(s, i))
              && s.lives.disposed[i] == Bit(!IsCached(s, i) && i.disposable)
  {
    NobodyPlays(s.threads);
    forall i | i in s.lives.created
      ensures s.lives.retired[i] == Bit(!IsCached(s, i))
      ensures s.lives.disposed[i] == Bit(!IsCached(s, i) && i.disposable)
    {
      AtRestFor(s, i);
    }
  }

  lemma AtRestFor(s: State, i: Instance)
    requires CacheOk(s) && TimersOk(s.lives) && AccountedOk(s) && i in s.lives.created && s.lives.armed[i] == 0
    requires Count(s.threads, Storing(i)) == 0 && Count(s.threads, Replacing(s.lives.created[i].key)) == 0
    ensures s.lives.retired[i] == Bit(!IsCached(s, i)) && s.lives.disposed[i] == Bit(!IsCached(s, i) && i.disposable)
  {
    assert TimerOk(s.lives, i) && Accounted(s, i);
  }

  /** So when every call has returned and every timer has run, the gauge falls short of the cached instances by exactly the
      replacements that failed. */
  lemma GaugeAtRest(s0: State, acts: seq<Action>, s: State)
    requires Init(s0) && Run(s0, acts, s) && forall t :: t in s.threads ==> Finished(s.threads[t].pc)
    requires s.lives.armed == s.lives.disposing == multiset{}
    ensures s.lives.gauge == |s.cache| - Failures(s0, acts)
  {
    GaugeLaw(s0, acts, s);
    NobodyPlays(s.threads);
  }

  // ----- how a call ends -----

  /** Along the run NewInstance failed in the call of `t`. */
  predicate FactoryFailed(s: State, acts: seq<Action>, t: Tid)
    decreases |acts|
  {
    acts != [] && Enabled(s, acts[0]) && (FailsNow(s, acts[0], t) || FactoryFailed(Apply(s, acts[0]), acts[1..], t))
  }

  predicate FailsNow(s: State, a: Action, t: Tid) {
    a.Move? && a.t == t && t in s.threads && s.threads[t].pc.Create? && a.made.None?
  }

  /** How far a call has come with what happened to it: without settings it fails at once, and later it fails exactly when its
      NewInstance does. */
  predicate Fate(th: Thread, failed: bool) {
    match th.pc
    case Start => !failed
    case WFind(out) => th.request.hasSettings && (out.Failed? <==> failed)
    case WRelease(_, out) => th.request.hasSettings && (out.Failed? <==> failed)
    case Done(out) => out.Failed? <==> !th.request.hasSettings || failed
    case Panicked => true
    case _ => th.request.hasSettings && !failed
  }

  lemma StepKeepsFate(s: State, a: Action, t: Tid, failed: bool)
    requires Enabled(s, a) && t in s.threads && Fate(s.threads[t], failed)
    ensures Fate(Apply(s, a).threads[t], failed || FailsNow(s, a, t))
  {
  }

  lemma {:induction false} RunKeepsFate(s: State, acts: seq<Action>, end: State, t: Tid, failed: bool)
    requires Run(s, acts, end) && t in s.threads && Fate(s.threads[t], failed)
    ensures t in end.threads && end.threads[t].request == s.threads[t].request
    ensures Fate(end.threads[t], failed || FactoryFailed(s, acts, t))
    decreases |acts|
  {
    if acts != [] {
      StepKeepsFate(s, acts[0], t, failed);
      RunKeepsFate(Apply(s, acts[0]), acts[1..], end, t, failed || FailsNow(s, acts[0], t));
    }
  }

  /** Instances are made for requests with settings only. */
  ghost predicate MadeWithSettings(s: State) {
    && (forall i :: i in s.lives.created ==> s.lives.created[i].hasSettings)
    && (forall t :: t in s.threads ==> s.threads[t].pc.Start? || Finished(s.threads[t].pc) || s.threads[t].request.hasSettings)
  }

  lemma {:induction false} RunMakesWithSettings(s: State, acts: seq<Action>, end: State)
    requires Run(s, acts, end) && MadeWithSettings(s)
    ensures MadeWithSettings(end)
    decreases |acts|
  {
    if acts != [] { RunMakesWithSettings(Apply(s, acts[0]), acts[1..], end); }
  }

  /** Over every run: a call that has returned failed exactly when its request had no settings or its NewInstance failed, and
      requests without settings made nothing. */
  lemma CallsFailExactly(s0: State, acts: seq<Action>, s: State, t: Tid)
    requires Init(s0) && Run(s0, acts, s) && t in s0.threads
    ensures t in s.threads && s.threads[t].request == s0.threads[t].request
    ensures s.threads[t].pc.Done? ==>
              (s.threads[t].pc.out.Failed? <==> !s0.threads[t].request.hasSettings || FactoryFailed(s0, acts, t))
    ensures forall i :: i in s.lives.created ==> s.lives.created[i].hasSettings
  {
    RunKeepsFate(s0, acts, s, t, false);
    RunMakesWithSettings(s0, acts, s);
  }

  // ----- progress -----

  /** Waiting for a mutex that is held; a reader also waits for a writer that came before it. */
  predicate Blocked(s: State, th: Thread) {
    || ((th.pc.RAcquire? || th.pc.WAcquire?) && !CanMove(s, th, None, 0))
    || (th.pc.RAcquire? && WriterWaits(s.threads, th.pc.m))
  }

  predicate WriterWaits(threads: map<Tid, Thread>, m: MutexId) { exists u :: u in threads && threads[u].pc == WAcquire(m) }

  /** Whoever holds a lock is itself not waiting for one. */
  lemma HoldersRun(threads: map<Tid, Thread>, role: Role) returns (u: Tid)
    requires (role.Reader? || role.Writer?) && Count(threads, role) > 0
    ensures u in threads && !threads[u].pc.RAcquire? && !threads[u].pc.WAcquire? && !Finished(threads[u].pc)
  {
    assert Players(threads, role) != {};
    u :| u in Players(threads, role);
  }

  /** A mutex that is held has a holder that can go on. */
  lemma HeldGoesOn(s: State, t: Tid)
    requires LocksOk(s.locker, s.threads) && t in s.threads && LockOk(s.locker, s.threads[t])
    requires (s.threads[t].pc.RAcquire? || s.threads[t].pc.WAcquire?) && !CanMove(s, s.threads[t], None, 0)
    ensures exists u :: u in s.threads && !Finished(s.threads[u].pc) && !Blocked(s, s.threads[u])
  {
    var k := s.threads[t].request.key;
    var u := HoldersRun(s.threads, if Count(s.threads, Writer(k)) > 0 then Writer(k) else Reader(k));
  }

  /** No deadlock: while a call is unfinished, some call can take its next step, even if waiting writers hold back new
      readers. */
  lemma NoDeadlock(s: State, t: Tid)
    requires LocksOk(s.locker, s.threads) && t in s.threads && !Finished(s.threads[t].pc)
    requires forall u :: u in s.threads ==> LockOk(s.locker, s.threads[u])
    ensures exists u :: u in s.threads && !Finished(s.threads[u].pc) && !Blocked(s, s.threads[u])
  {
    if Blocked(s, s.threads[t]) {
      if !CanMove(s, s.threads[t], None, 0) {
        HeldGoesOn(s, t);
      } else {
        var w :| w in s.threads && s.threads[w].pc == WAcquire(s.threads[t].pc.m);
        if !CanMove(s, s.threads[w], None, 0) { HeldGoesOn(s, w); }
      }
    }
  }

  // ----- single creation -----

  /** Calls for `k` all carry requests the freshness test cannot tell from `r`. */
  predicate Calm(s: State, k: Key, r: Request) {
    forall t :: t in s.threads && s.threads[t].request.key == k ==> !Outdated(s.threads[t].request, r)
  }

  predicate NoFactoryFails(s: State, acts: seq<Action>)
    decreases |acts|
  {
    acts != [] && Enabled(s, acts[0]) ==>
      !(acts[0].Move? && s.threads[acts[0].t].pc.Create? && acts[0].made.None?)
      && NoFactoryFails(Apply(s, acts[0]), acts[1..])
  }

  predicate FailedCall(pc: Pc) { (pc.WFind? || pc.WRelease? || pc.Done?) && pc.out.Failed? }

  predicate MadeFor(v: Lives, k: Key, i: Instance) { i in v.created && v.created[i].key == k }

  /** No instance of `k` was ever retired, all were made from requests like `r`, and no call for `k` failed. */
  predicate SingleAt(v: Lives, k: Key, r: Request, i: Instance) {
    MadeFor(v, k, i) ==> !Outdated(v.created[i], r) && v.retired[i] == 0
  }

  predicate Succeeds(k: Key, th: Thread) {
    th.request.key == k && FailedCall(th.pc) ==> !th.request.hasSettings
  }

  ghost predicate Single(s: State, k: Key, r: Request) {
    && (forall i :: SingleAt(s.lives, k, r, i))
    && (forall t :: t in s.threads ==> Succeeds(k, s.threads[t]))
  }

  lemma MoveKeepsSingleAt(s: State, th: Thread, made: Option<Instance>, k: Key, r: Request, i: Instance)
    requires SingleAt(s.lives, k, r, i) && ViewOk(s.cache, s.lives, th)
    requires th.request.key == k ==> !Outdated(th.request, r)
    requires th.pc.Retire? ==> KnownItem(s.lives, th.request.key, th.pc.found)
    requires made.Some? ==> s.lives.retired[made.value] == 0 || made.value in s.lives.created
    requires GivesNew(s.lives, th, made)
    requires th.pc.Retire? ==> SingleAt(s.lives, k, r, th.pc.found.instance)
    ensures SingleAt(NextLives(s.lives, th, made), k, r, i)
  {
  }

  lemma MoveKeepsSucceeds(s: State, th: Thread, made: Option<Instance>, newLock: MutexId, k: Key)
    requires Succeeds(k, th) && !(th.pc.Create? && made.None?)
    ensures Succeeds(k, th.(pc := NextPc(s, th, made, newLock)))
  {
  }

  lemma StepKeepsSingle(s: State, a: Action, k: Key, r: Request)
    requires Inv(s) && Enabled(s, a) && Calm(s, k, r) && Single(s, k, r)
    requires !(a.Move? && s.threads[a.t].pc.Create? && a.made.None?) && !Reuse(s, a)
    ensures Single(Apply(s, a), k, r) && Calm(Apply(s, a), k, r)
  {
    if a.Move? {
      var th := s.threads[a.t];
      assert ThreadOk(s, th) && Succeeds(k, th);
      MoveKeepsSucceeds(s, th, a.made, a.newLock, k);
      forall i: Instance ensures SingleAt(NextLives(s.lives, th, a.made), k, r, i) {
        assert SingleAt(s.lives, k, r, i);
        assert th.pc.Retire? ==> SingleAt(s.lives, k, r, th.pc.found.instance);
        assert a.made.Some? ==> TimerOk(s.lives, a.made.value);
        MoveKeepsSingleAt(s, th, a.made, k, r, i);
      }
    } else {
      forall i: Instance ensures SingleAt(Apply(s, a).lives, k, r, i) {
        assert SingleAt(s.lives, k, r, i);
      }
    }
  }

  lemma {:induction false} RunKeepsSingle(s: State, acts: seq<Action>, end: State, k: Key, r: Request)
    requires Inv(s) && Calm(s, k, r) && Single(s, k, r) && Run(s, acts, end) && NoFactoryFails(s, acts) && OnlyNewInstances(s, acts)
    ensures Inv(end) && Single(end, k, r) && end.threads.Keys == s.threads.Keys
    decreases |acts|
  {
    if acts != [] {
      StepKeepsInv(s, acts[0]);
      StepKeepsSingle(s, acts[0], k, r);
      RunKeepsSingle(Apply(s, acts[0]), acts[1..], end, k, r);
    }
  }

  /** An instance about to be stored, with none ever retired for its key, finds the cache empty. */
  lemma StoringIsFirst(s: State, k: Key, i: Instance) returns (t: Tid)
    requires LocksOk(s.locker, s.threads) && ThreadsOk(s) && CacheOk(s) && MadeFor(s.lives, k, i)
    requires Count(s.threads, Storing(i)) == 1
    requires k in s.cache ==> s.lives.retired[s.cache[k].instance] == 0
    ensures k !in s.cache && t in s.threads && s.threads[t].request.key == k && Plays(s.threads[t], Storing(i))
  {
    assert Players(s.threads, Storing(i)) != {};
    t :| t in Players(s.threads, Storing(i));
    StoringFinds(s, t);
  }

  /** A call about to store for a key whose instance was never retired finds the cache empty. */
  lemma StoringFinds(s: State, t: Tid)
    requires LocksOk(s.locker, s.threads) && ThreadsOk(s) && CacheOk(s) && t in s.threads && s.threads[t].pc.Store?
    ensures var k := s.threads[t].request.key;
            && s.threads[t].pc.made in s.lives.created && s.lives.created[s.threads[t].pc.made].key == k
            && (k in s.cache ==> s.lives.retired[s.cache[k].instance] > 0)
  {
    assert ThreadOk(s, s.threads[t]);
    SoleReplacer(s, t);
  }

  /** Two instances made for `k`, neither retired, are the same one. */
  lemma OneUnretired(s: State, k: Key, r: Request, i: Instance, j: Instance)
    requires Inv(s) && Single(s, k, r) && MadeFor(s.lives, k, i) && MadeFor(s.lives, k, j)
    ensures i == j
  {
    assert Accounted(s, i) && Accounted(s, j);
    assert SingleAt(s.lives, k, r, i) && SingleAt(s.lives, k, r, j);
    if k in s.cache { assert SingleAt(s.lives, k, r, s.cache[k].instance); }
    if Count(s.threads, Storing(i)) == 1 {
      var t := StoringIsFirst(s, k, i);
      var u := StoringIsFirst(s, k, j);
      assert ThreadOk(s, s.threads[t]);
      OneWriter(s, k, t, u);
    } else if Count(s.threads, Storing(j)) == 1 {
      var u := StoringIsFirst(s, k, j);
    }
  }

  lemma FinishedCallIsServed(s: State, k: Key, r: Request, t: Tid)
    requires ThreadsOk(s) && Single(s, k, r) && t in s.threads && s.threads[t].request.key == k
    requires s.threads[t].request.hasSettings && s.threads[t].pc.Done?
    ensures s.threads[t].pc.out.Returned? && MadeFor(s.lives, k, s.threads[t].pc.out.instance)
  {
    assert ThreadOk(s, s.threads[t]) && Succeeds(k, s.threads[t]);
  }

  /** Single creation under races: whatever the interleaving, at most one instance is ever made for
      `k`, and every finished call for `k` that carries settings returned that one. */
  lemma SingleCreation(s0: State, acts: seq<Action>, s: State, k: Key, r: Request)
    requires Init(s0) && Run(s0, acts, s) && Calm(s0, k, r) && NoFactoryFails(s0, acts)
    requires OnlyNewInstances(s0, acts)
    ensures forall i, j :: MadeFor(s.lives, k, i) && MadeFor(s.lives, k, j) ==> i == j
    ensures forall t :: t in s.threads && s.threads[t].request.key == k && s.threads[t].request.hasSettings
                        && s.threads[t].pc.Done? ==>
                          s.threads[t].pc.out.Returned? && MadeFor(s.lives, k, s.threads[t].pc.out.instance)
  {
    InitInv(s0);
    RunKeepsSingle(s0, acts, s, k, r);
    forall i, j | MadeFor(s.lives, k, i) && MadeFor(s.lives, k, j) ensures i == j {
      OneUnretired(s, k, r, i, j);
    }
    forall t | t in s.threads && s.threads[t].request.key == k && s.threads[t].request.hasSettings && s.threads[t].pc.Done?
      ensures s.threads[t].pc.out.Returned? && MadeFor(s.lives, k, s.threads[t].pc.out.instance)
    {
      FinishedCallIsServed(s, k, r, t);
    }
  }

  // ----- what a failing replacement does -----

  lemma {:induction false} RunAppend(s: State, xs: seq<Action>, mid: State, ys: seq<Action>, end: State)
    requires Run(s, xs, mid) && Run(mid, ys, end)
    ensures Run(s, xs + ys, end)
    decreases |xs|
  {
    if xs == [] {
      assert xs + ys == ys;
    } else {
      var zs := xs + ys;
      assert zs[0] == xs[0] && zs[1..] == xs[1..] + ys;
      RunAppend(Apply(s, xs[0]), xs[1..], mid, ys, end);
    }
  }

  lemma One(s: State, a: Action)
    requires Enabled(s, a)
    ensures Run(s, [a], Apply(s, a))
  {
    assert Run(Apply(s, a), [a][1..], Apply(s, a));
  }

  lemma Two(s: State, a: Action)
    requires Enabled(s, a) && Enabled(Apply(s, a), a)
    ensures Run(s, [a, a], Apply(Apply(s, a), a))
  {
    One(s, a);
    One(Apply(s, a), a);
    RunAppend(s, [a], Apply(s, a), [a], Apply(Apply(s, a), a));
    assert [a] + [a] == [a, a];
  }

  /** Where goroutine `t` stands, everything else as in `s`. */
  function At(s: State, t: Tid, pc: Pc): State
    requires t in s.threads
  {
    s.(threads := s.threads[t := s.threads[t].(pc := pc)])
  }

  /** The lock of `k` exists and nobody holds it. */
  predicate Idle(l: Locker, k: Key) {
    k in l.locks && l.locks[k] in l.mutexes && l.mutexes[l.locks[k]] == Mutex(0, false)
  }

  function ReadLocked(s: State, k: Key): State
    requires k in s.locker.locks
  {
    s.(locker := SetMutex(s.locker, s.locker.locks[k], Mutex(1, false)))
  }

  function WriteLocked(s: State, k: Key): State
    requires k in s.locker.locks
  {
    s.(locker := SetMutex(s.locker, s.locker.locks[k], Mutex(0, true)))
  }

  lemma Four(s: State, a: Action, s2: State, s4: State)
    requires Run(s, [a, a], s2) && Run(s2, [a, a], s4)
    ensures Run(s, [a, a, a, a], s4)
  {
    RunAppend(s, [a, a], s2, [a, a], s4);
    assert [a, a] + [a, a] == [a, a, a, a];
  }

  lemma SoloRead(s: State, t: Tid, a: Action)
    requires t in s.threads && a.Move? && a.t == t
    requires var k := s.threads[t].request.key; Idle(s.locker, k) && k in s.cache
    requires s.threads[t].pc.Start? && s.threads[t].request.hasSettings
    ensures var k := s.threads[t].request.key;
            Run(s, [a, a, a, a], At(ReadLocked(s, k), t, RFind(Some(s.cache[k]))))
  {
    var k := s.threads[t].request.key;
    var m, item := s.locker.locks[k], Some(s.cache[k]);
    var s1 := ReadLocked(s, k);
    assert Apply(s, a) == At(s, t, RLookup);
    assert Apply(At(s, t, RLookup), a) == At(s, t, RAcquire(m));
    Two(s, a);
    assert Apply(At(s, t, RAcquire(m)), a) == At(s1, t, RLoad);
    assert Apply(At(s1, t, RLoad), a) == At(s1, t, RFind(item));
    Two(At(s, t, RAcquire(m)), a);
    Four(s, a, At(s, t, RAcquire(m)), At(s1, t, RFind(item)));
  }

  lemma SoloOutdated(s: State, t: Tid, a: Action, c: Cached)
    requires t in s.threads && a.Move? && a.t == t && Idle(s.locker, s.threads[t].request.key)
    requires Outdated(s.threads[t].request, c.request)
    ensures Run(At(ReadLocked(s, s.threads[t].request.key), t, RFind(Some(c))), [a, a] + [a], At(s, t, WLookup))
  {
    var k := s.threads[t].request.key;
    var m, item := s.locker.locks[k], Some(c);
    var s1 := ReadLocked(s, k);
    assert Apply(At(s1, t, RFind(item)), a) == At(s1, t, RRelease(m, item));
    assert s1.locker.mutexes[m := Mutex(0, false)] == s.locker.mutexes;
    assert Apply(At(s1, t, RRelease(m, item)), a) == At(s, t, RCheck(item));
    Two(At(s1, t, RFind(item)), a);
    assert Apply(At(s, t, RCheck(item)), a) == At(s, t, WLookup);
    One(At(s, t, RCheck(item)), a);
    RunAppend(At(s1, t, RFind(item)), [a, a], At(s, t, RCheck(item)), [a], At(s, t, WLookup));
  }

  lemma SoloRecheck(s: State, t: Tid, a: Action)
    requires t in s.threads && a.Move? && a.t == t && s.threads[t].pc.WLookup?
    requires var k := s.threads[t].request.key; Idle(s.locker, k) && k in s.cache
    requires Outdated(s.threads[t].request, s.cache[s.threads[t].request.key].request)
    ensures var k := s.threads[t].request.key; Run(s, [a, a, a, a], At(WriteLocked(s, k), t, Retire(s.cache[k])))
  {
    var k := s.threads[t].request.key;
    var m, found := s.locker.locks[k], s.cache[k];
    var s1 := WriteLocked(s, k);
    assert Apply(s, a) == At(s, t, WAcquire(m));
    assert Apply(At(s, t, WAcquire(m)), a) == At(s1, t, WLoad);
    Two(s, a);
    assert Apply(At(s1, t, WLoad), a) == At(s1, t, WCheck(found));
    assert Apply(At(s1, t, WCheck(found)), a) == At(s1, t, Retire(found));
    Two(At(s1, t, WLoad), a);
    Four(s, a, At(s1, t, WLoad), At(s1, t, Retire(found)));
  }

  /** The end of a write-locked call. */
  lemma Released(s: State, locked: State, t: Tid, a: Action, out: Outcome, end: State)
    requires t in s.threads && locked.threads == s.threads && a.Move? && a.t == t && Idle(s.locker, s.threads[t].request.key)
    requires locked.locker == WriteLocked(s, s.threads[t].request.key).locker
    requires end == At(locked.(locker := s.locker), t, Done(out))
    ensures Run(At(locked, t, WFind(out)), [a, a], end)
  {
    var m := s.locker.locks[s.threads[t].request.key];
    assert Apply(At(locked, t, WFind(out)), a) == At(locked, t, WRelease(m, out));
    assert locked.locker.mutexes[m := Mutex(0, false)] == s.locker.mutexes;
    assert Apply(At(locked, t, WRelease(m, out)), a) == end;
    Two(At(locked, t, WFind(out)), a);
  }

  /** The instance is cached and counted. */
  function Counted(s: State, t: Tid, i: Instance): State
    requires t in s.threads
  {
    s.(cache := s.cache[s.threads[t].request.key := Cached(s.threads[t].request, i)],
       lives := s.lives.(gauge := s.lives.gauge + 1))
  }

  lemma StoredAndCounted(s: State, t: Tid, a: Action, i: Instance, replacing: bool)
    requires t in s.threads && a.Move? && a.t == t
    ensures Run(At(s, t, Store(i, replacing)), [a, a], At(Counted(s, t, i), t, WFind(Returned(i))))
  {
    var stored := s.(cache := s.cache[s.threads[t].request.key := Cached(s.threads[t].request, i)]);
    assert Apply(At(s, t, Store(i, replacing)), a) == At(stored, t, Inc(i));
    assert Apply(At(stored, t, Inc(i)), a) == At(Counted(s, t, i), t, WFind(Returned(i)));
    Two(At(s, t, Store(i, replacing)), a);
  }

  lemma SoloRetireAndFail(s: State, t: Tid, a: Action, found: Cached)
    requires t in s.threads && a == Move(t, None, 0) && found.instance.disposable
    requires Idle(s.locker, s.threads[t].request.key)
    ensures Run(At(WriteLocked(s, s.threads[t].request.key), t, Retire(found)), [a, a, a, a],
                At(Scheduled(s, found.instance), t, Done(Failed)))
  {
    var k := s.threads[t].request.key;
    var s0 := At(WriteLocked(s, k), t, Retire(found));
    var locked, end := Scheduled(WriteLocked(s, k), found.instance), At(Scheduled(s, found.instance), t, Done(Failed));
    assert Apply(s0, a) == At(locked, t, Create(true));
    assert Apply(At(locked, t, Create(true)), a) == At(locked, t, WFind(Failed));
    Two(s0, a);
    Released(s, locked, t, a, Failed, end);
    Four(s0, a, At(locked, t, WFind(Failed)), end);
  }

  /** The instance gets a disposal timer. */
  function Scheduled(s: State, i: Instance): State {
    s.(lives := s.lives.(armed := s.lives.armed + multiset{i}, retired := s.lives.retired + multiset{i}))
  }

  /** A whole call whose replacement fails: the outdated instance stays cached with a timer running. */
  lemma FailedCallSchedules(s: State, t: Tid) returns (acts: seq<Action>)
    requires t in s.threads && s.threads[t].pc.Start? && s.threads[t].request.hasSettings
    requires var k := s.threads[t].request.key; Idle(s.locker, k) && k in s.cache && s.cache[k].instance.disposable
    requires Outdated(s.threads[t].request, s.cache[s.threads[t].request.key].request)
    ensures Run(s, acts, At(Scheduled(s, s.cache[s.threads[t].request.key].instance), t, Done(Failed)))
  {
    var a := Move(t, None, 0);
    var looked := At(s, t, WLookup);
    var k := s.threads[t].request.key;
    SoloRead(s, t, a);
    SoloOutdated(s, t, a, s.cache[k]);
    RunAppend(s, [a, a, a, a], At(ReadLocked(s, k), t, RFind(Some(s.cache[k]))), [a, a] + [a], looked);
    SoloRecheck(looked, t, a);
    var end := At(Scheduled(s, s.cache[k].instance), t, Done(Failed));
    var retiring := At(WriteLocked(s, k), t, Retire(s.cache[k]));
    assert At(WriteLocked(looked, k), t, Retire(s.cache[k])) == retiring;
    SoloRetireAndFail(s, t, a, s.cache[k]);
    RunAppend(looked, [a, a, a, a], retiring, [a, a, a, a], end);
    RunAppend(s, [a, a, a, a] + ([a, a] + [a]), looked, [a, a, a, a] + [a, a, a, a], end);
    acts := [a, a, a, a] + ([a, a] + [a]) + ([a, a, a, a] + [a, a, a, a]);
  }

  /** Two calls in a row whose replacement fails dispose the same instance twice. */
  lemma FailedReplacementsDisposeTwice(s: State, t: Tid, u: Tid) returns (acts: seq<Action>, end: State)
    requires t in s.threads && u in s.threads && t != u
    requires s.threads[t].pc.Start? && s.threads[t].request.hasSettings && s.threads[u] == s.threads[t]
    requires var k := s.threads[t].request.key; Idle(s.locker, k) && k in s.cache && s.cache[k].instance.disposable
    requires Outdated(s.threads[t].request, s.cache[s.threads[t].request.key].request)
    ensures Run(s, acts, end)
    ensures end.lives.disposed[s.cache[s.threads[t].request.key].instance]
         == s.lives.disposed[s.cache[s.threads[t].request.key].instance] + 2
  {
    var i := s.cache[s.threads[t].request.key].instance;
    var s1 := At(Scheduled(s, i), t, Done(Failed));
    var xs := FailedCallSchedules(s, t);
    var ys := FailedCallSchedules(s1, u);
    var s2 := At(Scheduled(s1, i), u, Done(Failed));
    Two(s2, Fire(i));
    end := Apply(Apply(s2, Fire(i)), Fire(i));
    RunAppend(s, xs, s1, ys, s2);
    RunAppend(s, xs + ys, s2, [Fire(i), Fire(i)], end);
    acts := xs + ys + [Fire(i), Fire(i)];
  }

  lemma FirstLock(s: State, t: Tid, a: Action)
    requires t in s.threads && s.threads[t].pc.Start? && s.threads[t].request.hasSettings
    requires s.locker == Locker(map[], map[]) && a.Move? && a.t == t && a.newLock == 0
    ensures var k := s.threads[t].request.key;
            Run(s, [a, a, a, a], At(s.(locker := Locker(map[k := 0], map[0 := Mutex(1, false)])), t, RLoad))
  {
    var k := s.threads[t].request.key;
    var s1 := s.(locker := Locker(map[k := 0], map[0 := Mutex(0, false)]));
    var s2 := s.(locker := Locker(map[k := 0], map[0 := Mutex(1, false)]));
    assert Apply(s, a) == At(s, t, RLookup);
    assert Apply(At(s, t, RLookup), a) == At(s, t, RInstall);
    Two(s, a);
    assert Apply(At(s, t, RInstall), a) == At(s1, t, RAcquire(0));
    assert Apply(At(s1, t, RAcquire(0)), a) == At(s2, t, RLoad);
    Two(At(s, t, RInstall), a);
    Four(s, a, At(s, t, RInstall), At(s2, t, RLoad));
  }

  lemma FirstMiss(s: State, t: Tid, a: Action)
    requires t in s.threads && s.cache == map[] && a.Move? && a.t == t
    requires Idle(s.locker, s.threads[t].request.key)
    ensures Run(At(ReadLocked(s, s.threads[t].request.key), t, RLoad), [a, a, a, a], At(s, t, WLookup))
  {
    var k := s.threads[t].request.key;
    var m, s2 := s.locker.locks[k], ReadLocked(s, k);
    assert Apply(At(s2, t, RLoad), a) == At(s2, t, RFind(None));
    assert Apply(At(s2, t, RFind(None)), a) == At(s2, t, RRelease(m, None));
    Two(At(s2, t, RLoad), a);
    assert s2.locker.mutexes[m := Mutex(0, false)] == s.locker.mutexes;
    assert Apply(At(s2, t, RRelease(m, None)), a) == At(s, t, RCheck(None));
    assert Apply(At(s, t, RCheck(None)), a) == At(s, t, WLookup);
    Two(At(s2, t, RRelease(m, None)), a);
    Four(At(s2, t, RLoad), a, At(s2, t, RRelease(m, None)), At(s, t, WLookup));
  }

  /** The instance exists and its maker holds the write lock. */
  function JustMade(s: State, t: Tid, i: Instance): State
    requires t in s.threads && s.threads[t].request.key in s.locker.locks
  {
    At(WriteLocked(s, s.threads[t].request.key).(lives := s.lives.(created := s.lives.created[i := s.threads[t].request])),
       t, Store(i, false))
  }

  lemma FirstWriteLock(s: State, t: Tid, a: Action)
    requires t in s.threads && a.Move? && a.t == t && Idle(s.locker, s.threads[t].request.key)
    ensures Run(At(s, t, WLookup), [a, a], At(WriteLocked(s, s.threads[t].request.key), t, WLoad))
  {
    var k := s.threads[t].request.key;
    var m := s.locker.locks[k];
    assert Apply(At(s, t, WLookup), a) == At(s, t, WAcquire(m));
    assert Apply(At(s, t, WAcquire(m)), a) == At(WriteLocked(s, k), t, WLoad);
    Two(At(s, t, WLookup), a);
  }

  lemma FirstMake(s: State, t: Tid, i: Instance, a: Action)
    requires t in s.threads && a == Move(t, Some(i), 0) && s.cache == map[] && i !in s.lives.created
    requires Idle(s.locker, s.threads[t].request.key)
    ensures Run(At(s, t, WLookup), [a, a, a, a], JustMade(s, t, i))
  {
    var s1 := WriteLocked(s, s.threads[t].request.key);
    FirstWriteLock(s, t, a);
    assert Apply(At(s1, t, WLoad), a) == At(s1, t, Create(false));
    assert Apply(At(s1, t, Create(false)), a) == JustMade(s, t, i);
    Two(At(s1, t, WLoad), a);
    Four(At(s, t, WLookup), a, At(s1, t, WLoad), JustMade(s, t, i));
  }

  lemma FirstKeep(s: State, t: Tid, i: Instance, a: Action) returns (end: State)
    requires t in s.threads && a.Move? && a.t == t && s.cache == map[] && Idle(s.locker, s.threads[t].request.key)
    ensures Run(JustMade(s, t, i), [a, a, a, a], end)
    ensures end.threads == s.threads[t := s.threads[t].(pc := Done(Returned(i)))]
    ensures end.locker == s.locker && end.lives.disposed == s.lives.disposed
    ensures end.lives.retired == s.lives.retired && end.lives.armed == s.lives.armed
    ensures end.cache == map[s.threads[t].request.key := Cached(s.threads[t].request, i)]
  {
    var made := JustMade(s, t, i);
    var locked := WriteLocked(s, s.threads[t].request.key).(lives := made.lives);
    end := At(Counted(locked, t, i).(locker := s.locker), t, Done(Returned(i)));
    assert made == At(locked, t, Store(i, false));
    StoredAndCounted(locked, t, a, i, false);
    Released(s, Counted(locked, t, i), t, a, Returned(i), end);
    Four(made, a, At(Counted(locked, t, i), t, WFind(Returned(i))), end);
  }

  /** A first call on an empty manager: it leaves the lock idle and its instance cached. */
  lemma FirstCallCaches(s: State, t: Tid, i: Instance) returns (acts: seq<Action>, end: State)
    requires Init(s) && t in s.threads && s.threads[t].request.hasSettings
    ensures Run(s, acts, end)
    ensures end.threads == s.threads[t := s.threads[t].(pc := Done(Returned(i)))]
    ensures Idle(end.locker, s.threads[t].request.key) && end.lives.disposed == multiset{}
    ensures end.lives.retired == end.lives.armed == multiset{}
    ensures end.cache == map[s.threads[t].request.key := Cached(s.threads[t].request, i)]
  {
    var k := s.threads[t].request.key;
    var a := Move(t, Some(i), 0);
    var s1 := s.(locker := Locker(map[k := 0], map[0 := Mutex(0, false)]));
    FirstLock(s, t, a);
    FirstMiss(s1, t, a);
    FirstMake(s1, t, i, a);
    end := FirstKeep(s1, t, i, a);
    assert ReadLocked(s1, k).locker == Locker(map[k := 0], map[0 := Mutex(1, false)]);
    var loading := At(ReadLocked(s1, k), t, RLoad);
    RunAppend(s, [a, a, a, a], loading, [a, a, a, a], At(s1, t, WLookup));
    RunAppend(At(s1, t, WLookup), [a, a, a, a], JustMade(s1, t, i), [a, a, a, a], end);
    acts := [a, a, a, a] + [a, a, a, a] + ([a, a, a, a] + [a, a, a, a]);
    RunAppend(s, [a, a, a, a] + [a, a, a, a], At(s1, t, WLookup), [a, a, a, a] + [a, a, a, a], end);
  }

  /** So without the assumption the lifecycle claim is false: three calls, settings changed after
      the first, and a run in which one instance is disposed twice. */
  lemma LifecycleNeedsItsAssumption(s: State, t: Tid, u: Tid, v: Tid) returns (acts: seq<Action>, end: State)
    requires Init(s) && {t, u, v} <= s.threads.Keys && t != u && t != v && u != v
    requires s.threads[t].request.hasSettings && s.threads[u].request.hasSettings && s.threads[v] == s.threads[u]
    requires s.threads[u].request.key == s.threads[t].request.key && Outdated(s.threads[u].request, s.threads[t].request)
    ensures Run(s, acts, end) && end.lives.disposed[Instance(0, true)] == 2
  {
    var xs, mid := FirstCallCaches(s, t, Instance(0, true));
    var ys;
    ys, end := FailedReplacementsDisposeTwice(mid, u, v);
    RunAppend(s, xs, mid, ys, end);
    acts := xs + ys;
  }

  // ----- what reusing an instance does -----

  /** The replacing part of a call that gets `i` from NewInstance. */
  lemma SoloReplace(s: State, t: Tid, a: Action, i: Instance, found: Cached) returns (end: State)
    requires t in s.threads && a == Move(t, Some(i), 0) && found.instance.disposable
    requires Idle(s.locker, s.threads[t].request.key)
    ensures Run(At(WriteLocked(s, s.threads[t].request.key), t, Retire(found)), [a, a] + [a, a, a, a], end)
    ensures Replaced(s, t, i, found, end)
  {
    var k := s.threads[t].request.key;
    var s0 := At(WriteLocked(s, k), t, Retire(found));
    var s1 := Scheduled(WriteLocked(s, k), found.instance);
    var s2 := s1.(lives := s1.lives.(created := s1.lives.created[i := s.threads[t].request]));
    end := At(Counted(s2, t, i).(locker := s.locker), t, Done(Returned(i)));
    assert Apply(s0, a) == At(s1, t, Create(true));
    assert Apply(At(s1, t, Create(true)), a) == At(s2, t, Store(i, true));
    Two(s0, a);
    StoredAndCounted(s2, t, a, i, true);
    Released(s, Counted(s2, t, i), t, a, Returned(i), end);
    Four(At(s2, t, Store(i, true)), a, At(Counted(s2, t, i), t, WFind(Returned(i))), end);
    RunAppend(s0, [a, a], At(s2, t, Store(i, true)), [a, a, a, a], end);
  }

  /** The outdated instance got a timer, and `i` is cached and returned. */
  predicate Replaced(s: State, t: Tid, i: Instance, found: Cached, end: State)
    requires t in s.threads
  {
    && end.threads == s.threads[t := s.threads[t].(pc := Done(Returned(i)))] && end.locker == s.locker
    && end.cache == s.cache[s.threads[t].request.key := Cached(s.threads[t].request, i)]
    && end.lives.armed == s.lives.armed + multiset{found.instance}
    && end.lives.retired == s.lives.retired + multiset{found.instance} && end.lives.disposed == s.lives.disposed
  }

  /** A whole call that finds its key's instance outdated and gets `i` from NewInstance. */
  lemma CallReplaces(s: State, t: Tid, i: Instance) returns (acts: seq<Action>, end: State)
    requires t in s.threads && s.threads[t].pc.Start? && s.threads[t].request.hasSettings
    requires var k := s.threads[t].request.key; Idle(s.locker, k) && k in s.cache && s.cache[k].instance.disposable
    requires Outdated(s.threads[t].request, s.cache[s.threads[t].request.key].request)
    ensures Run(s, acts, end) && Replaced(s, t, i, s.cache[s.threads[t].request.key], end)
  {
    var a := Move(t, Some(i), 0);
    var looked := At(s, t, WLookup);
    var k := s.threads[t].request.key;
    SoloRead(s, t, a);
    SoloOutdated(s, t, a, s.cache[k]);
    RunAppend(s, [a, a, a, a], At(ReadLocked(s, k), t, RFind(Some(s.cache[k]))), [a, a] + [a], looked);
    SoloRecheck(looked, t, a);
    var retiring := At(WriteLocked(s, k), t, Retire(s.cache[k]));
    assert At(WriteLocked(looked, k), t, Retire(s.cache[k])) == retiring;
    end := SoloReplace(s, t, a, i, s.cache[k]);
    RunAppend(looked, [a, a, a, a], retiring, [a, a] + [a, a, a, a], end);
    RunAppend(s, [a, a, a, a] + ([a, a] + [a]), looked, [a, a, a, a] + ([a, a] + [a, a, a, a]), end);
    acts := [a, a, a, a] + ([a, a] + [a]) + ([a, a, a, a] + ([a, a] + [a, a, a, a]));
  }

  /** A provider that gives back its earlier instance: two calls, and the instance that every further lookup loads is
      scheduled for disposal, with no call under way. */
  lemma ReusedIsScheduled(s: State, t: Tid, u: Tid, i: Instance) returns (acts: seq<Action>, end: State)
    requires Init(s) && {t, u} <= s.threads.Keys && t != u && i.disposable
    requires s.threads[t].request.hasSettings && s.threads[u].request.hasSettings
    requires s.threads[u].request.key == s.threads[t].request.key && Outdated(s.threads[u].request, s.threads[t].request)
    ensures Run(s, acts, end) && Idle(end.locker, s.threads[u].request.key)
    ensures end.threads == s.threads[t := s.threads[t].(pc := Done(Returned(i)))][u := s.threads[u].(pc := Done(Returned(i)))]
    ensures end.cache == map[s.threads[u].request.key := Cached(s.threads[u].request, i)]
    ensures end.lives.retired[i] == 1 && end.lives.armed[i] == 1 && end.lives.disposed == multiset{}
  {
    var xs, mid := FirstCallCaches(s, t, i);
    var ys;
    ys, end := CallReplaces(mid, u, i);
    RunAppend(s, xs, mid, ys, end);
    acts := xs + ys;
  }

  /** So without the second assumption the lifecycle claim is false too: two changes of settings, and a run in which the
      instance given back is disposed twice. */
  lemma LifecycleNeedsNewInstances(s: State, t: Tid, u: Tid, v: Tid, i: Instance) returns (acts: seq<Action>, end: State)
    requires Init(s) && {t, u, v} <= s.threads.Keys && t != u && t != v && u != v && i.disposable
    requires s.threads[t].request.hasSettings && s.threads[u].request.hasSettings && s.threads[v].request.hasSettings
    requires s.threads[u].request.key == s.threads[t].request.key && s.threads[v].request.key == s.threads[t].request.key
    requires Outdated(s.threads[u].request, s.threads[t].request) && Outdated(s.threads[v].request, s.threads[u].request)
    ensures Run(s, acts, end) && end.lives.disposed[i] == 2
  {
    var xs, mid := ReusedIsScheduled(s, t, u, i);
    var ys, last := CallReplaces(mid, v, i);
    RunAppend(s, xs, mid, ys, last);
    Two(last, Fire(i));
    end := Apply(Apply(last, Fire(i)), Fire(i));
    RunAppend(s, xs + ys, last, [Fire(i), Fire(i)], end);
    acts := xs + ys + [Fire(i), Fire(i)];
  }
}
