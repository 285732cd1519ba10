/** Loading each thing once under many threads (src/ai_push_hooks/plugin_loader.py, `PluginLoader.load`
    and `_source_lock`; src/ai_push_hooks/executors/runners/registry.py, `RunnerRegistry.get`).

    Each call reads the cache, takes the lock of its key, reads the cache again, and only then loads.
    A state is what all calls share and where each of them is; a move lets one call take one atomic
    step.  The plugin loader makes locks on demand; the registry starts with all of them. */
module OnceLoader {

  import opened Options

  type Key = string
  type Object = nat
  type Lock = nat

  /** Where a call is.  From `Checking` to `Releasing` it holds the lock of its key. */
  datatype Pc =
    | Start
    | NeedLock
    | Waiting(lock: Lock)
    | Checking(lock: Lock)
    | Loading(lock: Lock)
    | Storing(lock: Lock, value: Object)
    | Releasing(lock: Lock, result: Option<Object>)
    | Done(outcome: Option<Object>)

  datatype Call = Call(key: Key, pc: Pc)

  datatype Event =
    | Began(call: nat, key: Key)
    | Ended(call: nat, key: Key, loaded: Option<Object>)
    | Returned(call: nat, key: Key, value: Option<Object>)

  datatype State = State(cache: map<Key, Object>, locks: map<Key, Lock>, nextLock: Lock, held: map<Lock, nat>,
                         calls: seq<Call>, log: seq<Event>)

  /** `loaded` is what the load of that call gives, if it is loading: nothing when it fails. */
  datatype Move = Enter(key: Key) | Advance(call: nat, loaded: Option<Object>)

  /** No call yet; any table of distinct locks. */
  ghost predicate Initial(s: State) {
    s.cache == map[] && s.held == map[] && s.calls == [] && s.log == [] && LocksOk(s)
  }

  // ---------------------------------------------------------------------------------
  // The moves
  // ---------------------------------------------------------------------------------

  ghost function At(s: State, t: nat, pc: Pc): seq<Call>
    requires t < |s.calls|
  {
    s.calls[t := s.calls[t].(pc := pc)]
  }

  function Release(held: map<Lock, nat>, lock: Lock): map<Lock, nat> {
    map l | l in held && l != lock :: held[l]
  }

  /** Where the call goes next.  A call whose lock is taken stays where it is. */
  ghost function NextPc(s: State, t: nat, loaded: Option<Object>): Pc
    requires t < |s.calls|
  {
    var key := s.calls[t].key;
    match s.calls[t].pc
    case Start => if key in s.cache then Done(Some(s.cache[key])) else NeedLock
    case NeedLock => Waiting(if key in s.locks then s.locks[key] else s.nextLock)
    case Waiting(lock) => if lock in s.held then Waiting(lock) else Checking(lock)
    case Checking(lock) => if key in s.cache then Releasing(lock, Some(s.cache[key])) else Loading(lock)
    case Loading(lock) => if loaded.Some? then Storing(lock, loaded.value) else Releasing(lock, None)
    case Storing(lock, value) => Releasing(lock, Some(value))
    case Releasing(_, result) => Done(result)
    case Done(result) => Done(result)
  }

  /** What can be observed of it. */
  ghost function EventOf(s: State, t: nat, loaded: Option<Object>): Option<Event>
    requires t < |s.calls|
  {
    var key := s.calls[t].key;
    match s.calls[t].pc
    case Start => if key in s.cache then Some(Returned(t, key, Some(s.cache[key]))) else None
    case Checking(_) => if key in s.cache then None else Some(Began(t, key))
    case Loading(_) => Some(Ended(t, key, loaded))
    case Releasing(_, result) => Some(Returned(t, key, result))
    case _ => None
  }

  ghost function NextCache(s: State, t: nat): map<Key, Object>
    requires t < |s.calls|
  {
    if s.calls[t].pc.Storing? then s.cache[s.calls[t].key := s.calls[t].pc.value] else s.cache
  }

  ghost predicate MakesLock(s: State, t: nat)
    requires t < |s.calls|
  {
    s.calls[t].pc.NeedLock? && s.calls[t].key !in s.locks
  }

  ghost function NextHeld(s: State, t: nat): map<Lock, nat>
    requires t < |s.calls|
  {
    var pc := s.calls[t].pc;
    if pc.Waiting? && pc.lock !in s.held then s.held[pc.lock := t]
    else if pc.Releasing? then Release(s.held, pc.lock)
    else s.held
  }

  ghost function Step(s: State, move: Move): State {
    match move
    case Enter(key) => s.(calls := s.calls + [Call(key, Start)])
    case Advance(t, loaded) =>
      if t >= |s.calls| then s
      else
        State(NextCache(s, t),
              if MakesLock(s, t) then s.locks[s.calls[t].key := s.nextLock] else s.locks,
              if MakesLock(s, t) then s.nextLock + 1 else s.nextLock,
              NextHeld(s, t),
              At(s, t, NextPc(s, t, loaded)),
              if EventOf(s, t, loaded).Some? then s.log + [EventOf(s, t, loaded).value] else s.log)
  }

  ghost function Run(s: State, moves: seq<Move>): State {
    if moves == [] then s else Step(Run(s, moves[..|moves| - 1]), moves[|moves| - 1])
  }

  // ---------------------------------------------------------------------------------
  // What a log says
  // ---------------------------------------------------------------------------------

  /** Loads of the key begun and not ended. */
  ghost function Open(log: seq<Event>, key: Key): int {
    if log == [] then 0
    else
      var event := log[|log| - 1];
      Open(log[..|log| - 1], key) +
        (if event.key != key then 0 else if event.Began? then 1 else if event.Ended? then -1 else 0)
  }

  /** Loads of the key that succeeded. */
  ghost function Successes(log: seq<Event>, key: Key): nat {
    if log == [] then 0
    else
      var event := log[|log| - 1];
      Successes(log[..|log| - 1], key) + if event.key == key && event.Ended? && event.loaded.Some? then 1 else 0
  }

  /** No two loads of one key overlap, at most one of them succeeds, and none begins after that. */
  ghost predicate OnceEach(log: seq<Event>, key: Key) {
    && (forall n | 0 <= n <= |log| :: AtMostOne(log[..n], key))
    && (forall n | 0 <= n < |log| && log[n].Began? && log[n].key == key :: Successes(log[..n], key) == 0)
  }

  ghost predicate AtMostOne(log: seq<Event>, key: Key) {
    0 <= Open(log, key) <= 1 && Successes(log, key) <= 1
  }

  /** Some load of the key gave this object. */
  ghost predicate Loaded(log: seq<Event>, key: Key, value: Object) {
    exists i | 0 <= i < |log| :: log[i].Ended? && log[i].key == key && log[i].loaded == Some(value)
  }

  /** Every object returned for a key is one that a load of it gave. */
  ghost predicate ReturnsLoaded(log: seq<Event>) {
    forall i | 0 <= i < |log| && log[i].Returned? && log[i].value.Some? :: Loaded(log, log[i].key, log[i].value.value)
  }

  /** All calls that return something for a key return the same object. */
  ghost predicate SameObject(log: seq<Event>) {
    forall i, j | 0 <= i < |log| && 0 <= j < |log| :: Agree(log[i], log[j])
  }

  ghost predicate Agree(a: Event, b: Event) {
    a.Returned? && b.Returned? && a.key == b.key && a.value.Some? && b.value.Some? ==> a.value == b.value
  }

  /** A call that returns nothing made a load of its own that failed. */
  ghost predicate FailureIsOwn(log: seq<Event>) {
    forall i | 0 <= i < |log| && log[i].Returned? && log[i].value.None? :: Ended(log[i].call, log[i].key, None) in log
  }

  // ---------------------------------------------------------------------------------
  // The invariant
  // ---------------------------------------------------------------------------------

  ghost function Holds(pc: Pc): Option<Lock> {
    match pc
    case Checking(lock) => Some(lock)
    case Loading(lock) => Some(lock)
    case Storing(lock, _) => Some(lock)
    case Releasing(lock, _) => Some(lock)
    case _ => None
  }

  ghost predicate LocksOk(s: State) {
    && (forall k | k in s.locks :: s.locks[k] < s.nextLock)
    && (forall j, k | j in s.locks && k in s.locks && s.locks[j] == s.locks[k] :: j == k)
  }

  ghost predicate Owns(s: State, key: Key, lock: Lock) {
    key in s.locks && s.locks[key] == lock
  }

  ghost predicate Cached(s: State, key: Key, value: Option<Object>) {
    value.Some? ==> key in s.cache && s.cache[key] == value.value
  }

  ghost predicate CallOk(s: State, t: nat)
    requires t < |s.calls|
  {
    var key, pc := s.calls[t].key, s.calls[t].pc;
    && (pc.Waiting? ==> Owns(s, key, pc.lock))
    && (Holds(pc).Some? ==> Owns(s, key, Holds(pc).value) && Holds(pc).value in s.held && s.held[Holds(pc).value] == t)
    && (pc.Loading? || pc.Storing? ==> key !in s.cache)
    && (pc.Storing? ==> Loaded(s.log, key, pc.value))
    && (pc.Releasing? ==> Cached(s, key, pc.result))
    && (pc.Releasing? && pc.result.None? ==> Ended(t, key, None) in s.log)
  }

  ghost predicate CacheOk(s: State) {
    forall k | k in s.cache :: Loaded(s.log, k, s.cache[k])
  }

  ghost predicate CallsOk(s: State) {
    forall t | 0 <= t < |s.calls| :: CallOk(s, t)
  }

  ghost predicate HeldOk(s: State) {
    forall l | l in s.held :: s.held[l] < |s.calls| && Holds(s.calls[s.held[l]].pc) == Some(l)
  }

  ghost predicate IsLoading(s: State, key: Key) {
    exists t | 0 <= t < |s.calls| :: s.calls[t].key == key && s.calls[t].pc.Loading?
  }

  ghost predicate IsStoring(s: State, key: Key) {
    exists t | 0 <= t < |s.calls| :: s.calls[t].key == key && s.calls[t].pc.Storing?
  }

  ghost predicate LogOk(s: State, key: Key) {
    && Open(s.log, key) == (if IsLoading(s, key) then 1 else 0)
    && Successes(s.log, key) == (if key in s.cache || IsStoring(s, key) then 1 else 0)
    && OnceEach(s.log, key)
  }

  ghost predicate ReturnsOk(s: State) {
    && (forall i | 0 <= i < |s.log| && s.log[i].Returned? :: Cached(s, s.log[i].key, s.log[i].value))
    && FailureIsOwn(s.log)
  }

  ghost predicate Inv(s: State) {
    && LocksOk(s) && CallsOk(s) && HeldOk(s) && ReturnsOk(s) && CacheOk(s)
    && forall key :: LogOk(s, key)
  }

  /** Two calls for one key are never both between taking and releasing the lock. */
  lemma MutualExclusion(s: State, t: nat, u: nat)
    requires t < |s.calls| && u < |s.calls| && CallOk(s, t) && CallOk(s, u)
    requires s.calls[t].key == s.calls[u].key
    requires Holds(s.calls[t].pc).Some? && Holds(s.calls[u].pc).Some?
    ensures t == u
  {
  }

  // ---------------------------------------------------------------------------------
  // Every move keeps it
  // ---------------------------------------------------------------------------------

  ghost predicate MayBegin(log: seq<Event>, event: Event, key: Key) {
    event.Began? && event.key == key ==> Successes(log, key) == 0
  }

  lemma LogSnoc(log: seq<Event>, event: Event, key: Key)
    ensures Open(log + [event], key) == Open(log, key) +
              (if event.key != key then 0 else if event.Began? then 1 else if event.Ended? then -1 else 0)
    ensures Successes(log + [event], key) == Successes(log, key) +
              (if event.key == key && event.Ended? && event.loaded.Some? then 1 else 0)
    ensures (OnceEach(log, key) && AtMostOne(log + [event], key) && MayBegin(log, event, key)) ==>
              OnceEach(log + [event], key)
  {
    var longer := log + [event];
    assert longer[..|log|] == log;
    if OnceEach(log, key) && AtMostOne(longer, key) && MayBegin(log, event, key) {
      forall n | 0 <= n <= |longer| ensures AtMostOne(longer[..n], key) {
        assert longer[..n] == if n <= |log| then log[..n] else longer;
      }
      forall n | 0 <= n < |longer| && longer[n].Began? && longer[n].key == key
        ensures Successes(longer[..n], key) == 0 {
        assert longer[..n] == if n < |log| then log[..n] else log;
      }
    }
  }

  /** Which keys are being loaded and stored after call t moved to `pc`. */
  lemma WhoLoads(s: State, after: State, t: nat, pc: Pc, key: Key)
    requires Inv(s) && t < |s.calls| && after.calls == At(s, t, pc)
    requires Holds(s.calls[t].pc).None? ==> !pc.Loading? && !pc.Storing?
    ensures key != s.calls[t].key || Holds(s.calls[t].pc).None? ==>
              (IsLoading(after, key) <==> IsLoading(s, key)) && (IsStoring(after, key) <==> IsStoring(s, key))
    ensures key == s.calls[t].key && Holds(s.calls[t].pc).Some? ==>
              && (IsLoading(s, key) <==> s.calls[t].pc.Loading?) && (IsStoring(s, key) <==> s.calls[t].pc.Storing?)
              && (IsLoading(after, key) <==> pc.Loading?) && (IsStoring(after, key) <==> pc.Storing?)
  {
    forall u | 0 <= u < |s.calls| && u != t ensures after.calls[u] == s.calls[u] {
    }
    assert after.calls[t] == Call(s.calls[t].key, pc);
    if key == s.calls[t].key && Holds(s.calls[t].pc).Some? {
      forall u | 0 <= u < |s.calls| && s.calls[u].key == key && (s.calls[u].pc.Loading? || s.calls[u].pc.Storing?)
        ensures u == t
      {
        assert CallOk(s, t) && CallOk(s, u);
        MutualExclusion(s, t, u);
      }
    }
  }

  lemma EnterKeeps(s: State, key: Key)
    requires Inv(s)
    ensures Inv(Step(s, Enter(key)))
  {
    var after := Step(s, Enter(key));
    forall t | 0 <= t < |after.calls| ensures CallOk(after, t) {
      if t < |s.calls| {
        assert CallOk(s, t);
      }
    }
    forall k ensures LogOk(after, k) {
      assert LogOk(s, k);
      forall t | 0 <= t < |after.calls| && after.calls[t].key == k ensures t < |s.calls| || after.calls[t].pc.Start? {
      }
      assert forall t | 0 <= t < |s.calls| :: after.calls[t] == s.calls[t];
      assert IsLoading(after, k) <==> IsLoading(s, k);
      assert IsStoring(after, k) <==> IsStoring(s, k);
    }
  }

  /** Call t moved on, wrote at most one event, and perhaps stored: a load begins when the cache lacks the
      key, ends when the call leaves it, and is stored when it succeeded. */
  ghost predicate LogMove(s: State, after: State, t: nat, event: Option<Event>)
    requires t < |s.calls| == |after.calls|
  {
    var key, was, pc := s.calls[t].key, s.calls[t].pc, after.calls[t].pc;
    && after.calls == At(s, t, pc)
    && after.log == (if event.Some? then s.log + [event.value] else s.log)
    && (event.Some? ==> event.value.key == key)
    && (Holds(was).None? ==> !pc.Loading? && !pc.Storing?)
    && (pc.Loading? <==> event.Some? && event.value.Began?)
    && (was.Loading? <==> event.Some? && event.value.Ended?)
    && (was.Loading? ==> (pc.Storing? <==> event.value.loaded.Some?))
    && (pc.Storing? ==> was.Loading?)
    && (pc.Loading? ==> was.Checking? && key !in s.cache)
    && (forall k :: k in after.cache <==> k in s.cache || (was.Storing? && k == key))
  }

  lemma AdvanceMovesLog(s: State, t: nat, loaded: Option<Object>)
    requires t < |s.calls|
    ensures var after := Step(s, Advance(t, loaded));
            |after.calls| == |s.calls| && LogMove(s, after, t, EventOf(s, t, loaded))
  {
  }

  lemma LogAfter(s: State, after: State, t: nat, key: Key, event: Option<Event>)
    requires Inv(s) && t < |s.calls| == |after.calls| && LogMove(s, after, t, event)
    ensures LogOk(after, key)
  {
    assert LogOk(s, key) && CallOk(s, t) && OnceEach(s.log, key);
    WhoLoads(s, after, t, after.calls[t].pc, key);
    if event.Some? {
      LogSnoc(s.log, event.value, key);
    }
  }

  lemma AdvanceKeepsLog(s: State, t: nat, loaded: Option<Object>, key: Key)
    requires Inv(s) && t < |s.calls|
    ensures LogOk(Step(s, Advance(t, loaded)), key)
  {
    AdvanceMovesLog(s, t, loaded);
    LogAfter(s, Step(s, Advance(t, loaded)), t, key, EventOf(s, t, loaded));
  }

  /** What a step of call t leaves alone: the other calls, the lock table, the locks it does not hold,
      and the cache but for what it stores. */
  ghost predicate Spares(s: State, after: State, t: nat)
    requires t < |s.calls|
  {
    SparesCalls(s, after, t) && SparesLocks(s, after, t) && SparesCache(s, after, t)
  }

  ghost predicate SparesCalls(s: State, after: State, t: nat) {
    && |after.calls| == |s.calls|
    && (forall u | 0 <= u < |s.calls| && u != t :: after.calls[u] == s.calls[u])
    && s.log <= after.log
  }

  ghost predicate SparesLocks(s: State, after: State, t: nat)
    requires t < |s.calls|
  {
    && (forall k | k in s.locks :: k in after.locks && after.locks[k] == s.locks[k])
    && (forall l | l in s.held && Holds(s.calls[t].pc) != Some(l) :: l in after.held && after.held[l] == s.held[l])
  }

  ghost predicate SparesCache(s: State, after: State, t: nat)
    requires t < |s.calls|
  {
    var key, stores := s.calls[t].key, s.calls[t].pc.Storing?;
    && (forall k | k in s.cache && !(stores && k == key) :: k in after.cache && after.cache[k] == s.cache[k])
    && (forall k | k in after.cache && !(stores && k == key) :: k in s.cache)
  }

  lemma AdvanceSparesCalls(s: State, t: nat, loaded: Option<Object>)
    requires t < |s.calls|
    ensures SparesCalls(s, Step(s, Advance(t, loaded)), t)
  {
  }

  lemma AdvanceSparesLocks(s: State, t: nat, loaded: Option<Object>)
    requires t < |s.calls|
    ensures SparesLocks(s, Step(s, Advance(t, loaded)), t)
  {
  }

  lemma AdvanceSparesCache(s: State, t: nat, loaded: Option<Object>)
    requires t < |s.calls|
    ensures SparesCache(s, Step(s, Advance(t, loaded)), t)
  {
  }

  lemma OtherStaysOk(s: State, after: State, t: nat, u: nat)
    requires t < |s.calls| && u < |s.calls| && u != t
    requires LocksOk(s) && CallOk(s, t) && CallOk(s, u) && Spares(s, after, t)
    ensures CallOk(after, u)
  {
    if s.calls[u].pc.Storing? {
      LoadedLonger(s.log, after.log, s.calls[u].key, s.calls[u].pc.value);
    }
    if Holds(s.calls[u].pc).Some? && s.calls[u].key == s.calls[t].key && Holds(s.calls[t].pc).Some? {
      MutualExclusion(s, t, u);
    }
  }

  lemma AdvanceKeepsOwn(s: State, t: nat, loaded: Option<Object>)
    requires t < |s.calls| && LocksOk(s) && CallOk(s, t)
    ensures CallOk(Step(s, Advance(t, loaded)), t)
  {
    var after := Step(s, Advance(t, loaded));
    if after.calls[t].pc.Storing? {
      assert after.log[|s.log|] == Ended(t, s.calls[t].key, loaded);
    }
  }

  lemma LoadedLonger(log: seq<Event>, longer: seq<Event>, key: Key, value: Object)
    requires Loaded(log, key, value) && log <= longer
    ensures Loaded(longer, key, value)
  {
    var i :| 0 <= i < |log| && log[i].Ended? && log[i].key == key && log[i].loaded == Some(value);
    assert longer[i] == log[i];
  }

  lemma AdvanceKeepsCache(s: State, t: nat, loaded: Option<Object>)
    requires t < |s.calls| && CacheOk(s) && CallOk(s, t)
    ensures CacheOk(Step(s, Advance(t, loaded)))
  {
    var after := Step(s, Advance(t, loaded));
    assert s.log <= after.log;
    forall k | k in after.cache ensures Loaded(after.log, k, after.cache[k]) {
      LoadedLonger(s.log, after.log, k, after.cache[k]);
    }
  }

  lemma AdvanceKeepsHeld(s: State, t: nat, loaded: Option<Object>)
    requires t < |s.calls| && HeldOk(s) && CallOk(s, t)
    ensures HeldOk(Step(s, Advance(t, loaded)))
  {
  }

  lemma AdvanceKeepsLocks(s: State, t: nat, loaded: Option<Object>)
    requires t < |s.calls| && LocksOk(s)
    ensures LocksOk(Step(s, Advance(t, loaded)))
  {
  }

  lemma AdvanceKeepsCalls(s: State, t: nat, loaded: Option<Object>)
    requires Inv(s) && t < |s.calls|
    ensures var after := Step(s, Advance(t, loaded)); LocksOk(after) && CallsOk(after) && HeldOk(after)
  {
    assert CallOk(s, t);
    AdvanceKeepsHeld(s, t, loaded);
    AdvanceKeepsLocks(s, t, loaded);
    AdvanceSparesCalls(s, t, loaded);
    AdvanceSparesLocks(s, t, loaded);
    AdvanceSparesCache(s, t, loaded);
    forall u | 0 <= u < |s.calls| ensures CallOk(Step(s, Advance(t, loaded)), u) {
      assert CallOk(s, t) && CallOk(s, u);
      if u == t {
        AdvanceKeepsOwn(s, t, loaded);
      } else {
        OtherStaysOk(s, Step(s, Advance(t, loaded)), t, u);
      }
    }
  }

  lemma AdvanceKeepsReturns(s: State, t: nat, loaded: Option<Object>)
    requires Inv(s) && t < |s.calls|
    ensures ReturnsOk(Step(s, Advance(t, loaded)))
  {
    var after := Step(s, Advance(t, loaded));
    assert CallOk(s, t);
    forall i | 0 <= i < |after.log| && after.log[i].Returned?
      ensures Cached(after, after.log[i].key, after.log[i].value)
    {
      if i < |s.log| {
        assert Cached(s, s.log[i].key, s.log[i].value);
      }
    }
    forall i | 0 <= i < |after.log| && after.log[i].Returned? && after.log[i].value.None?
      ensures Ended(after.log[i].call, after.log[i].key, None) in after.log
    {
      if i < |s.log| {
        assert Ended(s.log[i].call, s.log[i].key, None) in s.log;
      }
    }
  }

  lemma StepKeeps(s: State, move: Move)
    requires Inv(s)
    ensures Inv(Step(s, move))
  {
    if move.Enter? {
      EnterKeeps(s, move.key);
    } else if move.call < |s.calls| {
      AdvanceKeepsCalls(s, move.call, move.loaded);
      assert CallOk(s, move.call);
      AdvanceKeepsCache(s, move.call, move.loaded);
      AdvanceKeepsReturns(s, move.call, move.loaded);
      forall key ensures LogOk(Step(s, move), key) {
        AdvanceKeepsLog(s, move.call, move.loaded, key);
      }
    }
  }

  lemma InitialInv(s: State)
    requires Initial(s)
    ensures Inv(s)
  {
  }

  lemma {:induction false} RunKeeps(s: State, moves: seq<Move>)
    requires Initial(s)
    ensures Inv(Run(s, moves))
  {
    if moves == [] {
      InitialInv(s);
    } else {
      RunKeeps(s, moves[..|moves| - 1]);
      StepKeeps(Run(s, moves[..|moves| - 1]), moves[|moves| - 1]);
    }
  }

  // ---------------------------------------------------------------------------------
  // What every run guarantees
  // ---------------------------------------------------------------------------------

  /** Under every interleaving: loads of one key never overlap, at most one succeeds, nothing is loaded
      after that, everybody gets the object which that load gave, and only a call whose own load failed
      fails. */
  lemma LoadedOnce(s: State, moves: seq<Move>)
    requires Initial(s)
    ensures forall key :: OnceEach(Run(s, moves).log, key)
    ensures SameObject(Run(s, moves).log) && ReturnsLoaded(Run(s, moves).log)
    ensures FailureIsOwn(Run(s, moves).log)
  {
    RunKeeps(s, moves);
    var end := Run(s, moves);
    forall key ensures OnceEach(end.log, key) {
      assert LogOk(end, key);
    }
    forall i, j | 0 <= i < |end.log| && 0 <= j < |end.log| ensures Agree(end.log[i], end.log[j]) {
    }
    forall i | 0 <= i < |end.log| && end.log[i].Returned? && end.log[i].value.Some?
      ensures Loaded(end.log, end.log[i].key, end.log[i].value.value)
    {
      assert Cached(end, end.log[i].key, end.log[i].value);
    }
  }

  /** A key no load of which has succeeded stays loadable: whoever looks for it under its lock loads it. */
  lemma FailedStaysRetryable(s: State, moves: seq<Move>, t: nat, loaded: Option<Object>)
    requires Initial(s)
    requires var end := Run(s, moves);
             t < |end.calls| && end.calls[t].pc.Checking? && Successes(end.log, end.calls[t].key) == 0
    ensures var end := Run(s, moves); Step(end, Advance(t, loaded)).calls[t].pc.Loading?
  {
    RunKeeps(s, moves);
    var end := Run(s, moves);
    assert LogOk(end, end.calls[t].key);
  }

  ghost predicate CanMove(s: State, t: nat)
    requires t < |s.calls|
  {
    !s.calls[t].pc.Done? && !(s.calls[t].pc.Waiting? && s.calls[t].pc.lock in s.held)
  }

  /** Nobody waits for ever on somebody who waits: while a call is unfinished, some call can move. */
  lemma NeverStuck(s: State, moves: seq<Move>, t: nat)
    requires Initial(s)
    requires var end := Run(s, moves); t < |end.calls| && !end.calls[t].pc.Done?
    ensures var end := Run(s, moves); exists u | 0 <= u < |end.calls| :: CanMove(end, u)
  {
    RunKeeps(s, moves);
    var end := Run(s, moves);
    if !CanMove(end, t) {
      var holder := end.held[end.calls[t].pc.lock];
      assert Holds(end.calls[holder].pc).Some?;
      assert CanMove(end, holder);
    } else {
      assert CanMove(end, t);
    }
  }

  /** How many steps a call still has in front of it at most. */
  ghost function StepsLeft(pc: Pc): nat {
    match pc
    case Start => 7
    case NeedLock => 6
    case Waiting(_) => 5
    case Checking(_) => 4
    case Loading(_) => 3
    case Storing(_, _) => 2
    case Releasing(_, _) => 1
    case Done(_) => 0
  }

  /** Every step of a call that can move brings it nearer to its end and no other call further from its own. */
  lemma StepsForward(s: State, t: nat, loaded: Option<Object>)
    requires t < |s.calls| && CanMove(s, t)
    ensures var after := Step(s, Advance(t, loaded));
            && |after.calls| == |s.calls|
            && StepsLeft(after.calls[t].pc) < StepsLeft(s.calls[t].pc)
            && forall u | 0 <= u < |s.calls| && u != t :: after.calls[u] == s.calls[u]
  {
  }

  /** What a finished call returns is what was logged of it. */
  ghost predicate ReturnLogged(s: State, t: nat)
    requires t < |s.calls|
  {
    s.calls[t].pc.Done? ==> Returned(t, s.calls[t].key, s.calls[t].pc.outcome) in s.log
  }

  lemma StepLogsReturns(s: State, move: Move, t: nat)
    requires t < |s.calls| ==> ReturnLogged(s, t)
    ensures t < |Step(s, move).calls| ==> ReturnLogged(Step(s, move), t)
  {
    var after := Step(s, move);
    if t < |s.calls| && s.calls[t].pc.Done? {
      var i :| 0 <= i < |s.log| && s.log[i] == Returned(t, s.calls[t].key, s.calls[t].pc.outcome);
      assert after.log[i] == s.log[i] && after.calls[t] == s.calls[t];
    } else if t < |after.calls| && after.calls[t].pc.Done? {
      assert after.log[|s.log|] == Returned(t, after.calls[t].key, after.calls[t].pc.outcome);
    }
  }

  /** Under every interleaving. */
  lemma {:induction false} ReturnsAreLogged(s: State, moves: seq<Move>, t: nat)
    requires Initial(s)
    ensures t < |Run(s, moves).calls| ==> ReturnLogged(Run(s, moves), t)
  {
    if moves == [] {
    } else {
      ReturnsAreLogged(s, moves[..|moves| - 1], t);
      StepLogsReturns(Run(s, moves[..|moves| - 1]), moves[|moves| - 1], t);
    }
  }

  /** n steps of one call. */
  ghost function Steps(s: State, t: nat, loaded: Option<Object>, n: nat): State
    decreases n
  {
    if n == 0 then s else Steps(Step(s, Advance(t, loaded)), t, loaded, n - 1)
  }

  /** Nobody but call t is inside a lock. */
  ghost predicate Alone(s: State, t: nat) {
    t < |s.calls| && s.held == match Holds(s.calls[t].pc)
                               case Some(lock) => map[lock := t]
                               case None => map[]
  }

  /** What the call will return when it stays alone: what is cached when it looks, or what its load gives. */
  ghost function Yields(s: State, t: nat, loaded: Option<Object>): Option<Object>
    requires t < |s.calls|
  {
    match s.calls[t].pc
    case Loading(_) => loaded
    case Storing(_, value) => Some(value)
    case Releasing(_, result) => result
    case Done(result) => result
    case _ => if s.calls[t].key in s.cache then Some(s.cache[s.calls[t].key]) else loaded
  }

  /** Whether it will store that. */
  ghost predicate WillStore(s: State, t: nat, loaded: Option<Object>)
    requires t < |s.calls|
  {
    match s.calls[t].pc
    case Loading(_) => loaded.Some?
    case Storing(_, _) => true
    case Releasing(_, _) => false
    case Done(_) => false
    case _ => s.calls[t].key !in s.cache && loaded.Some?
  }

  ghost predicate CacheAfter(s: State, t: nat, loaded: Option<Object>, cache: map<Key, Object>)
    requires t < |s.calls|
  {
    cache == if WillStore(s, t, loaded) && Yields(s, t, loaded).Some?
             then s.cache[s.calls[t].key := Yields(s, t, loaded).value] else s.cache
  }

  lemma AloneStep(s: State, t: nat, loaded: Option<Object>)
    requires Alone(s, t)
    ensures var after := Step(s, Advance(t, loaded));
            && Alone(after, t) && after.calls[t].key == s.calls[t].key
            && Yields(after, t, loaded) == Yields(s, t, loaded)
            && (s.calls[t].pc.Done? ==> after == s)
            && (!s.calls[t].pc.Done? ==> StepsLeft(after.calls[t].pc) < StepsLeft(s.calls[t].pc))
  {
    assert s.calls[t].pc.Done? ==> At(s, t, s.calls[t].pc) == s.calls;
  }

  lemma AloneCaches(s: State, t: nat, loaded: Option<Object>, cache: map<Key, Object>)
    requires Alone(s, t)
    requires var after := Step(s, Advance(t, loaded)); t < |after.calls| && CacheAfter(after, t, loaded, cache)
    ensures CacheAfter(s, t, loaded, cache)
  {
  }

  lemma {:induction false} AloneFinishes(s: State, t: nat, loaded: Option<Object>, n: nat)
    requires Alone(s, t) && StepsLeft(s.calls[t].pc) <= n
    ensures var end := Steps(s, t, loaded, n);
            && t < |end.calls| && end.calls[t] == Call(s.calls[t].key, Done(Yields(s, t, loaded)))
            && end.held == map[] && CacheAfter(s, t, loaded, end.cache)
    decreases n
  {
    if n == 0 {
    } else {
      AloneStep(s, t, loaded);
      AloneFinishes(Step(s, Advance(t, loaded)), t, loaded, n - 1);
      AloneCaches(s, t, loaded, Steps(s, t, loaded, n).cache);
    }
  }

  /** A call alone, when nobody is inside any lock: it returns what is cached, or else what its load gives, which
      is then cached; a failed load caches nothing. */
  lemma AloneItLoads(s: State, key: Key, loaded: Option<Object>)
    requires s.held == map[]
    ensures var t := |s.calls|;
            var end := Steps(Step(s, Enter(key)), t, loaded, 7);
            && t < |end.calls|
            && end.calls[t] == Call(key, Done(if key in s.cache then Some(s.cache[key]) else loaded))
            && end.held == map[]
            && end.cache == if key !in s.cache && loaded.Some? then s.cache[key := loaded.value] else s.cache
  {
    AloneFinishes(Step(s, Enter(key)), |s.calls|, loaded, 7);
  }

  // ---------------------------------------------------------------------------------
  // The shared tables
  // ---------------------------------------------------------------------------------

  /** The loader itself: its tables, which the calls update, and where each call is. */
  class Loader {
    var cache: map<Key, Object>
    var locks: map<Key, Lock>
    var nextLock: Lock
    var held: map<Lock, nat>
    var calls: seq<Call>
    ghost var log: seq<Event>

    ghost function Now(): State
      reads this
    {
      State(cache, locks, nextLock, held, calls, log)
    }

    /** The plugin loader starts without locks, the registry with one for each of its keys. */
    constructor (known: seq<Key>)
      requires forall i, j | 0 <= i < j < |known| :: known[i] != known[j]
      ensures Initial(Now()) && locks.Keys == set k | k in known
    {
      cache, held, calls, log := map[], map[], [], [];
      nextLock := 0;
      locks := map[];
      new;
      var i := 0;
      while i < |known|
        invariant 0 <= i <= |known| && nextLock == i
        invariant forall k :: k in locks <==> k in known[..i]
        invariant LocksOk(Now()) && cache == map[] && held == map[] && calls == [] && log == []
      {
        assert known[..i + 1] == known[..i] + [known[i]];
        locks, nextLock := locks[known[i] := i], i + 1;
        i := i + 1;
      }
      assert known[..i] == known;
    }

    method Enter(key: Key) returns (t: nat)
      requires Inv(Now())
      modifies this
      ensures t == old(|calls|) && Now() == Step(old(Now()), Move.Enter(key)) && Inv(Now())
    {
      StepKeeps(Now(), Move.Enter(key));
      t := |calls|;
      calls := calls + [Call(key, Start)];
    }

    /** The lock of the key, made when there is none yet. */
    method SourceLock(key: Key) returns (lock: Lock)
      requires LocksOk(Now())
      modifies this`locks, this`nextLock
      ensures LocksOk(Now()) && key in locks && locks[key] == lock
      ensures if key in old(locks) then locks == old(locks) && nextLock == old(nextLock)
              else locks == old(locks)[key := old(nextLock)] && nextLock == old(nextLock) + 1
    {
      if key !in locks {
        locks, nextLock := locks[key := nextLock], nextLock + 1;
      }
      lock := locks[key];
    }

    /** Call t takes its next atomic step. */
    method Advance(t: nat, loaded: Option<Object>)
      requires Inv(Now()) && t < |calls|
      modifies this
      ensures Now() == Step(old(Now()), Move.Advance(t, loaded)) && Inv(Now())
    {
      var key := calls[t].key;
      ghost var before := Now();
      match calls[t].pc {
        case Start =>
          if key in cache {
            calls := calls[t := Call(key, Done(Some(cache[key])))];
            log := log + [Returned(t, key, Some(cache[key]))];
          } else {
            calls := calls[t := Call(key, NeedLock)];
          }
        case NeedLock =>
          var lock := SourceLock(key);
          calls := calls[t := Call(key, Waiting(lock))];
        case Waiting(lock) =>
          if lock !in held {
            held := held[lock := t];
            calls := calls[t := Call(key, Checking(lock))];
          }
        case Checking(lock) =>
          if key in cache {
            calls := calls[t := Call(key, Releasing(lock, Some(cache[key])))];
          } else {
            calls := calls[t := Call(key, Loading(lock))];
            log := log + [Began(t, key)];
          }
        case Loading(lock) =>
          calls := calls[t := Call(key, if loaded.Some? then Storing(lock, loaded.value) else Releasing(lock, None))];
          log := log + [Ended(t, key, loaded)];
        case Storing(lock, value) =>
          cache := cache[key := value];
          calls := calls[t := Call(key, Releasing(lock, Some(value)))];
        case Releasing(lock, result) =>
          held := Release(held, lock);
          calls := calls[t := Call(key, Done(result))];
          log := log + [Returned(t, key, result)];
        case Done(_) =>
      }
      assert Now() == Step(before, Move.Advance(t, loaded));
      StepKeeps(before, Move.Advance(t, loaded));
    }
  }
}
