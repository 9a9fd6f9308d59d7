/** A reader/writer lock built on one mutex and one condition variable, where the thread that
    owns the exclusive lock may also take shared locks. Every section of the code that runs
    under the inner mutex is one step; between steps any thread may run. */
module SharedMutexes {

  type ThreadId = nat

  // A SharedLock or ExclusiveLock object; it is used by the thread it belongs to.
  datatype Lock =
    | SharedLock(thread: ThreadId, id: nat)
    | ExclusiveLock(thread: ThreadId, id: nat)

  /** counter, exclusive and owner are the fields of SharedMutex. held is the set of lock
      objects whose locked_ flag is set. awake and parked are the lock() calls in progress:
      about to evaluate the wait predicate, or blocked in the condition variable. */
  datatype State = State(
    counter: int,
    exclusive: bool,
    owner: ThreadId,
    held: set<Lock>,
    awake: set<Lock>,
    parked: set<Lock>)

  const INITIAL := State(0, false, 0, {}, {}, {})

  datatype Action =
    | Arrive(lock: Lock)
    | Evaluate(lock: Lock)
    | SpuriousWake(lock: Lock)
    | Unlock(lock: Lock, notified: Lock)

  // A thread inside a lock() call can do nothing else.
  predicate Busy(s: State, t: ThreadId) {
    exists l :: l in s.awake + s.parked && l.thread == t
  }

  // The predicates handed to cv_.wait.
  predicate CanAcquire(s: State, l: Lock) {
    match l
    case SharedLock(t, _) => !s.exclusive || t == s.owner
    case ExclusiveLock(_, _) => s.counter == 0 && !s.exclusive
  }

  function Acquire(s: State, l: Lock): State {
    var s' := s.(awake := s.awake - {l}, held := s.held + {l});
    match l
    case SharedLock(_, _) => s'.(counter := s.counter + 1)
    case ExclusiveLock(t, _) => s'.(exclusive := true, owner := t)
  }

  function Park(s: State, l: Lock): State {
    s.(awake := s.awake - {l}, parked := s.parked + {l})
  }

  function Wake(s: State, ls: set<Lock>): State {
    s.(awake := s.awake + ls, parked := s.parked - ls)
  }

  // notify_one picks any one waiter: the argument says which.
  function NotifyOne(s: State, l: Lock): State {
    if l in s.parked then Wake(s, {l}) else s
  }

  function Release(s: State, l: Lock, notified: Lock): State {
    match l
    case SharedLock(_, _) =>
      var s' := s.(held := s.held - {l}, counter := s.counter - 1);
      if s'.counter == 0 then NotifyOne(s', notified) else s'
    case ExclusiveLock(_, _) =>
      Wake(s.(held := s.held - {l}, exclusive := false), s.parked)
  }

  // Which steps the threads and the condition variable may take.
  predicate Enabled(s: State, a: Action) {
    match a
    case Arrive(l) => l !in s.held && !Busy(s, l.thread)
    case Evaluate(l) => l in s.awake
    case SpuriousWake(l) => l in s.parked
    case Unlock(l, notified) => l in s.held && !Busy(s, l.thread) && (s.parked != {} ==> notified in s.parked)
  }

  function Step(s: State, a: Action): State {
    match a
    case Arrive(l) => s.(awake := s.awake + {l})
    case Evaluate(l) => if CanAcquire(s, l) then Acquire(s, l) else Park(s, l)
    case SpuriousWake(l) => Wake(s, {l})
    case Unlock(l, notified) => Release(s, l, notified)
  }

  ghost predicate Steps(s: State, run: seq<Action>, s': State)
    decreases |run|
  {
    if run == [] then s == s'
    else Enabled(s, run[0]) && Steps(Step(s, run[0]), run[1..], s')
  }

  ghost predicate Reachable(s: State) {
    exists run :: Steps(INITIAL, run, s)
  }

  // ---------------------------------------------------------------- what every step keeps

  function SharedHeld(s: State): set<Lock> {
    set l | l in s.held && l.SharedLock?
  }

  function ExclusiveHeld(s: State): set<Lock> {
    set l | l in s.held && l.ExclusiveLock?
  }

  /** At most one exclusive holder; the counter counts the shared holders; and while the lock
      is held exclusively, every shared holder is the exclusive owner's own thread. */
  ghost predicate Exclusion(s: State) {
    && (forall a, b :: a in ExclusiveHeld(s) && b in ExclusiveHeld(s) ==> a == b)
    && (s.exclusive <==> ExclusiveHeld(s) != {})
    && (forall l :: l in ExclusiveHeld(s) ==> l.thread == s.owner)
    && s.counter == |SharedHeld(s)|
    && (s.exclusive ==> forall l :: l in SharedHeld(s) ==> l.thread == s.owner)
  }

  // A shared waiter is parked only while another thread holds the lock exclusively.
  ghost predicate SharedWaitersHaveCause(s: State) {
    forall l :: l in s.parked && l.SharedLock? ==> s.exclusive && s.owner != l.thread
  }

  // While nobody holds the lock, a parked waiter implies an exclusive contender that is awake.
  ghost predicate FreeLockHasContender(s: State) {
    s.counter == 0 && !s.exclusive && s.parked != {} ==> exists l :: l in s.awake && l.ExclusiveLock?
  }

  // A lock object waits only while it is not held, and only in one place.
  ghost predicate WaitsApart(s: State) {
    s.held !! s.awake !! s.parked
  }

  ghost predicate Invariant(s: State) {
    Exclusion(s) && WaitsApart(s) && SharedWaitersHaveCause(s) && FreeLockHasContender(s)
  }

  lemma AcquireSharedKeepsExclusion(s: State, l: Lock)
    requires Exclusion(s) && l !in s.held && CanAcquire(s, l) && l.SharedLock?
    ensures Exclusion(Acquire(s, l))
  {
    var s' := Acquire(s, l);
    assert SharedHeld(s') == SharedHeld(s) + {l};
    assert ExclusiveHeld(s') == ExclusiveHeld(s);
  }

  lemma AcquireExclusiveKeepsExclusion(s: State, l: Lock)
    requires Exclusion(s) && l !in s.held && CanAcquire(s, l) && l.ExclusiveLock?
    ensures Exclusion(Acquire(s, l))
  {
    var s' := Acquire(s, l);
    assert SharedHeld(s) == {};
    assert SharedHeld(s') == SharedHeld(s);
    assert ExclusiveHeld(s') == ExclusiveHeld(s) + {l};
    assert l in ExclusiveHeld(s');
  }

  lemma ReleaseKeepsExclusion(s: State, l: Lock, notified: Lock)
    requires Exclusion(s) && l in s.held
    ensures Exclusion(Release(s, l, notified))
  {
    var s' := Release(s, l, notified);
    match l
    case SharedLock(_, _) =>
      assert SharedHeld(s') == SharedHeld(s) - {l};
      assert ExclusiveHeld(s') == ExclusiveHeld(s);
    case ExclusiveLock(_, _) =>
      assert l in ExclusiveHeld(s);
      assert SharedHeld(s') == SharedHeld(s);
      assert ExclusiveHeld(s') == ExclusiveHeld(s) - {l} == {};
  }

  lemma StepKeepsExclusion(s: State, a: Action)
    requires Exclusion(s) && WaitsApart(s) && Enabled(s, a)
    ensures Exclusion(Step(s, a)) && WaitsApart(Step(s, a))
  {
    match a
    case Arrive(l) => SameHolders(s, Step(s, a));
    case Evaluate(l) =>
      if !CanAcquire(s, l) {
        SameHolders(s, Step(s, a));
      } else if l.SharedLock? {
        AcquireSharedKeepsExclusion(s, l);
      } else {
        AcquireExclusiveKeepsExclusion(s, l);
      }
    case SpuriousWake(_) => SameHolders(s, Step(s, a));
    case Unlock(l, notified) => ReleaseKeepsExclusion(s, l, notified);
  }

  lemma SameHolders(s: State, s': State)
    requires Exclusion(s)
    requires s'.counter == s.counter && s'.exclusive == s.exclusive && s'.owner == s.owner && s'.held == s.held
    ensures Exclusion(s')
  {
  }

  lemma StepKeepsWaitersCovered(s: State, a: Action)
    requires Invariant(s) && Enabled(s, a)
    ensures SharedWaitersHaveCause(Step(s, a)) && FreeLockHasContender(Step(s, a))
  {
    var s' := Step(s, a);
    match a
    case Arrive(l) =>
      assert forall x :: x in s.awake ==> x in s'.awake;
    case Evaluate(l) =>
      if CanAcquire(s, l) {
        if l.SharedLock? {
          assert s'.counter == s.counter + 1 && s.counter >= 0;
        }
      } else {
        assert forall x :: x in s.awake && x != l ==> x in s'.awake;
      }
    case SpuriousWake(l) =>
      assert l in s'.awake;
      assert forall x :: x in s.awake ==> x in s'.awake;
    case Unlock(l, notified) =>
      if s'.counter == 0 && !s'.exclusive && s'.parked != {} {
        assert l.SharedLock? && s.parked != {};
        assert notified.ExclusiveLock? && notified in s'.awake;
      }
  }

  lemma {:induction false} RunKeepsInvariant(s: State, run: seq<Action>, s': State)
    requires Invariant(s) && Steps(s, run, s')
    ensures Invariant(s')
    decreases |run|
  {
    if run != [] {
      StepKeepsExclusion(s, run[0]);
      StepKeepsWaitersCovered(s, run[0]);
      RunKeepsInvariant(Step(s, run[0]), run[1..], s');
    }
  }

  /** Mutual exclusion in every reachable state. */
  lemma LockExclusion(s: State)
    requires Reachable(s)
    ensures Exclusion(s)
  {
    var run :| Steps(INITIAL, run, s);
    RunKeepsInvariant(INITIAL, run, s);
  }

  /** No lost wake-up: whenever nobody holds the lock and somebody is parked, an exclusive
      contender is awake and its next evaluation takes the lock, so waking a single waiter on
      the last shared unlock is enough. Shared waiters park only behind an exclusive holder. */
  lemma NoLostWakeup(s: State)
    requires Reachable(s)
    ensures SharedWaitersHaveCause(s)
    ensures s.held == {} && s.parked != {} ==>
              exists l :: l in s.awake && l.ExclusiveLock? && CanAcquire(s, l)
  {
    var run :| Steps(INITIAL, run, s);
    RunKeepsInvariant(INITIAL, run, s);
    if s.held == {} {
      assert SharedHeld(s) == {} && ExclusiveHeld(s) == {};
    }
  }

  /** The same for the awake: in every reachable state in which nobody holds the lock and some
      lock() call is in progress, some enabled evaluation takes the lock. */
  lemma FreeLockIsTaken(s: State)
    requires Reachable(s) && s.held == {} && s.awake + s.parked != {}
    ensures exists l :: l in s.awake && CanAcquire(s, l) && Step(s, Evaluate(l)).held == {l}
  {
    NoLostWakeup(s);
    LockExclusion(s);
    assert SharedHeld(s) == {} && ExclusiveHeld(s) == {};
    var l :| l in s.awake;
    assert CanAcquire(s, l);
    assert Step(s, Evaluate(l)).held == {l};
  }

  // ---------------------------------------------------------------- progress

  // Some lock() call can take the lock now, or some holder is free to release one.
  ghost predicate Progress(s: State) {
    (exists l :: l in s.awake && CanAcquire(s, l)) || (exists l :: l in s.held && !Busy(s, l.thread))
  }

  ghost predicate WaitsForExclusive(s: State, t: ThreadId) {
    exists w :: w in s.awake + s.parked && w.thread == t && w.ExclusiveLock?
  }

  /** The only way to get stuck is the upgrade: if lock() calls are in progress and neither an
      acquisition nor a release is possible, the lock is held and every thread that holds it is
      itself waiting for an exclusive lock. */
  lemma StuckMeansUpgrade(s: State)
    requires Reachable(s) && s.awake + s.parked != {} && !Progress(s)
    ensures s.held != {} && forall l :: l in s.held ==> WaitsForExclusive(s, l.thread)
  {
    LockExclusion(s);
    NoLostWakeup(s);
    if s.held == {} {
      FreeLockIsTaken(s);
    }
    forall l | l in s.held
      ensures WaitsForExclusive(s, l.thread)
    {
      assert Busy(s, l.thread);
      var w :| w in s.awake + s.parked && w.thread == l.thread;
      assert l in SharedHeld(s) || l in ExclusiveHeld(s);
      assert s.exclusive ==> s.owner == l.thread;
      assert w.SharedLock? ==> w !in s.parked && CanAcquire(s, w);
    }
  }

  // The discipline the wait predicate relies on: ask for the exclusive lock empty-handed.
  ghost predicate Disciplined(s: State, run: seq<Action>)
    decreases |run|
  {
    run != [] ==>
      && (run[0].Arrive? && run[0].lock.ExclusiveLock? ==> forall l :: l in s.held ==> l.thread != run[0].lock.thread)
      && Disciplined(Step(s, run[0]), run[1..])
  }

  // A thread is inside at most one lock() call.
  ghost predicate OneCall(s: State) {
    forall a, b :: a in s.awake + s.parked && b in s.awake + s.parked && a.thread == b.thread ==> a == b
  }

  ghost predicate ExclusiveWaitersEmptyHanded(s: State) {
    && OneCall(s)
    && (forall w, l :: w in s.awake + s.parked && w.ExclusiveLock? && l in s.held ==> l.thread != w.thread)
  }

  lemma StepKeepsEmptyHanded(s: State, a: Action)
    requires ExclusiveWaitersEmptyHanded(s) && WaitsApart(s) && Enabled(s, a) && Disciplined(s, [a])
    ensures ExclusiveWaitersEmptyHanded(Step(s, a))
  {
    var s' := Step(s, a);
    assert forall x :: x in s'.awake + s'.parked ==> x in s.awake + s.parked || a == Arrive(x);
    assert forall x :: x in s'.held ==> x in s.held || a == Evaluate(x);
  }

  lemma {:induction false} RunKeepsEmptyHanded(s: State, run: seq<Action>, s': State)
    requires ExclusiveWaitersEmptyHanded(s) && Exclusion(s) && WaitsApart(s)
    requires Steps(s, run, s') && Disciplined(s, run)
    ensures ExclusiveWaitersEmptyHanded(s')
    decreases |run|
  {
    if run != [] {
      assert Disciplined(s, [run[0]]) by { assert [run[0]][1..] == []; }
      StepKeepsEmptyHanded(s, run[0]);
      StepKeepsExclusion(s, run[0]);
      RunKeepsEmptyHanded(Step(s, run[0]), run[1..], s');
    }
  }

  /** Under that discipline no reachable state is stuck. */
  lemma DisciplinedRunsProgress(run: seq<Action>, s: State)
    requires Steps(INITIAL, run, s) && Disciplined(INITIAL, run)
    requires s.awake + s.parked != {}
    ensures Progress(s)
  {
    RunKeepsEmptyHanded(INITIAL, run, s);
    if !Progress(s) {
      StuckMeansUpgrade(s);
    }
  }

  // ---------------------------------------------------------------- upgrades

  // A thread holds l and waits for the exclusive lock x.
  ghost predicate Upgrades(s: State, l: Lock, x: Lock) {
    l in s.held && x in s.awake + s.parked && x.ExclusiveLock? && x.thread == l.thread
  }

  lemma StepKeepsUpgrade(s: State, a: Action, l: Lock, x: Lock)
    requires Exclusion(s) && WaitsApart(s) && Enabled(s, a) && Upgrades(s, l, x)
    ensures Upgrades(Step(s, a), l, x)
    ensures ExclusiveHeld(Step(s, a)) <= ExclusiveHeld(s)
  {
    assert l in SharedHeld(s) || l in ExclusiveHeld(s);
    assert Busy(s, l.thread);
    assert a.Evaluate? && a.lock.ExclusiveLock? ==> !CanAcquire(s, a.lock);
  }

  /** An upgrade is for ever: in every continuation the thread still holds its lock and still waits, and
      no exclusive lock is ever granted to anybody. */
  lemma {:induction false} UpgradeIsForever(s: State, run: seq<Action>, s': State, l: Lock, x: Lock)
    requires Exclusion(s) && WaitsApart(s) && Upgrades(s, l, x) && Steps(s, run, s')
    ensures Upgrades(s', l, x)
    ensures ExclusiveHeld(s') <= ExclusiveHeld(s)
    decreases |run|
  {
    if run != [] {
      StepKeepsExclusion(s, run[0]);
      StepKeepsUpgrade(s, run[0], l, x);
      UpgradeIsForever(Step(s, run[0]), run[1..], s', l, x);
    }
  }

  /** Four steps of one thread lead there: a shared holder that asks for the exclusive lock parks behind
      itself, and no continuation ends it. */
  lemma UpgradeDeadlocks()
    ensures var r, x := SharedLock(1, 0), ExclusiveLock(1, 0);
            var s := State(1, false, 0, {r}, {}, {x});
            && Reachable(s) && !Progress(s)
            && forall run, s' :: Steps(s, run, s') ==> Upgrades(s', r, x)
  {
    var r, x := SharedLock(1, 0), ExclusiveLock(1, 0);
    var s1 := Step(INITIAL, Arrive(r));
    var s2 := Step(s1, Evaluate(r));
    var s3 := Step(s2, Arrive(x));
    var s4 := Step(s3, Evaluate(x));
    assert s4 == State(1, false, 0, {r}, {}, {x});
    assert Steps(s4, [], s4);
    StepsCons(s3, Evaluate(x), [], s4);
    StepsCons(s2, Arrive(x), [Evaluate(x)], s4);
    StepsCons(s1, Evaluate(r), [Arrive(x), Evaluate(x)], s4);
    StepsCons(INITIAL, Arrive(r), [Evaluate(r), Arrive(x), Evaluate(x)], s4);
    assert x in s4.awake + s4.parked;
    LockExclusion(s4);
    forall run, s' | Steps(s4, run, s')
      ensures Upgrades(s', r, x)
    {
      UpgradeIsForever(s4, run, s', r, x);
    }
  }

  ghost predicate NobodyUpgrades(s: State) {
    forall l :: l in s.held ==> !WaitsForExclusive(s, l.thread)
  }

  ghost predicate NoSpuriousWakes(run: seq<Action>) {
    forall i :: 0 <= i < |run| ==> !run[i].SpuriousWake?
  }

  ghost predicate Settled(s: State) {
    Invariant(s) && OneCall(s) && NobodyUpgrades(s)
  }

  lemma StepKeepsOneCall(s: State, a: Action)
    requires OneCall(s) && Enabled(s, a)
    ensures OneCall(Step(s, a))
  {
    assert forall x :: x in Step(s, a).awake + Step(s, a).parked ==> x in s.awake + s.parked || a == Arrive(x);
  }

  lemma {:induction false} RunKeepsOneCall(s: State, run: seq<Action>, s': State)
    requires OneCall(s) && Steps(s, run, s')
    ensures OneCall(s')
    decreases |run|
  {
    if run != [] {
      StepKeepsOneCall(s, run[0]);
      RunKeepsOneCall(Step(s, run[0]), run[1..], s');
    }
  }

  lemma StepKeepsInvariant(s: State, a: Action)
    requires Invariant(s) && OneCall(s) && Enabled(s, a)
    ensures Invariant(Step(s, a)) && OneCall(Step(s, a))
  {
    StepKeepsExclusion(s, a);
    StepKeepsWaitersCovered(s, a);
    StepKeepsOneCall(s, a);
  }

  // An idle holder unlocks; the lock() calls in progress stay the same.
  lemma HolderUnlocks(s: State, l: Lock) returns (a: Action, s': State)
    requires Settled(s) && l in s.held && !Busy(s, l.thread)
    ensures Enabled(s, a) && !a.SpuriousWake? && s' == Step(s, a)
    ensures Settled(s') && s'.held == s.held - {l} && s'.awake + s'.parked == s.awake + s.parked
  {
    hide Invariant, OneCall, NobodyUpgrades;
    var notified := l;
    if s.parked != {} {
      notified :| notified in s.parked;
    }
    a := Unlock(l, notified);
    s' := Step(s, a);
    StepKeepsInvariant(s, a);
    assert s'.awake + s'.parked == s.awake + s.parked;
    NoNewUpgrades(s, s');
  }

  lemma NoNewUpgrades(s: State, s': State)
    requires NobodyUpgrades(s) && s'.held <= s.held && s'.awake + s'.parked == s.awake + s.parked
    ensures NobodyUpgrades(s')
  {
    assert forall t :: WaitsForExclusive(s', t) <==> WaitsForExclusive(s, t);
  }

  // A holder inside a lock() call that is no upgrade is about to get its shared lock.
  lemma HolderIsServed(s: State, l: Lock, w: Lock)
    requires Settled(s) && l in s.held && w in s.awake + s.parked && w.thread == l.thread
    ensures w.SharedLock? && w in s.awake && CanAcquire(s, w)
  {
    assert w.ExclusiveLock? ==> WaitsForExclusive(s, l.thread);
    assert l in SharedHeld(s) || l in ExclusiveHeld(s);
    assert s.exclusive ==> s.owner == l.thread;
  }

  lemma HolderTakesShared(s: State, l: Lock, w: Lock) returns (s': State)
    requires Settled(s) && l in s.held && w in s.awake + s.parked && w.thread == l.thread
    ensures w.SharedLock? && Enabled(s, Evaluate(w)) && s' == Step(s, Evaluate(w))
    ensures Settled(s') && s'.held == s.held + {w} && s'.awake + s'.parked == s.awake + s.parked - {w}
    ensures w !in s.held && !Busy(s', w.thread)
  {
    HolderIsServed(s, l, w);
    s' := Step(s, Evaluate(w));
    StepKeepsInvariant(s, Evaluate(w));
    assert s'.awake + s'.parked == s.awake + s.parked - {w};
    assert forall t :: WaitsForExclusive(s', t) ==> WaitsForExclusive(s, t);
  }

  lemma QuietCons(s: State, a: Action, rest: seq<Action>, s': State)
    requires Enabled(s, a) && !a.SpuriousWake? && Steps(Step(s, a), rest, s') && NoSpuriousWakes(rest)
    ensures Steps(s, [a] + rest, s') && NoSpuriousWakes([a] + rest)
  {
    StepsCons(s, a, rest, s');
  }

  lemma NoSteps(s: State)
    ensures Steps(s, [], s) && NoSpuriousWakes([])
  {
  }

  lemma CallOf(s: State, t: ThreadId) returns (w: Lock)
    requires Busy(s, t)
    ensures w in s.awake + s.parked && w.thread == t
  {
    w :| w in s.awake + s.parked && w.thread == t;
  }

  // Without upgrades, everybody can let go.
  lemma {:induction false} EverybodyLetsGo(s: State, x: Lock) returns (run: seq<Action>, s': State)
    requires Settled(s) && x in s.awake + s.parked && x.ExclusiveLock?
    ensures Steps(s, run, s') && NoSpuriousWakes(run)
    ensures Settled(s') && s'.held == {} && x in s'.awake + s'.parked
    decreases |s.held| + |s.awake + s.parked|
  {
    hide Settled, Enabled, Step, Steps, Busy, NoSpuriousWakes;
    run, s' := [], s;
    NoSteps(s);
    if s.held != {} {
      var l :| l in s.held;
      var rest;
      if Busy(s, l.thread) {
        var w := CallOf(s, l.thread);
        var mid := HolderTakesShared(s, l, w);
        var a, next := HolderUnlocks(mid, w);
        assert next.held == s.held;
        Smaller(s.awake + s.parked, w);
        rest, s' := EverybodyLetsGo(next, x);
        QuietCons(mid, a, rest, s');
        QuietCons(s, Evaluate(w), [a] + rest, s');
        run := [Evaluate(w)] + ([a] + rest);
      } else {
        var a, next := HolderUnlocks(s, l);
        Smaller(s.held, l);
        rest, s' := EverybodyLetsGo(next, x);
        QuietCons(s, a, rest, s');
        run := [a] + rest;
      }
    }
  }

  lemma Smaller(s: set<Lock>, l: Lock)
    requires l in s
    ensures |s - {l}| < |s|
  {
    assert s == (s - {l}) + {l};
  }

  lemma FreeLockTaken(s: State, y: Lock)
    requires Settled(s) && s.held == {} && y in s.awake && y.ExclusiveLock?
    ensures Enabled(s, Evaluate(y))
    ensures Step(s, Evaluate(y)) == State(0, true, y.thread, {y}, s.awake - {y}, s.parked)
    ensures !Busy(Step(s, Evaluate(y)), y.thread)
  {
    assert SharedHeld(s) == {} && ExclusiveHeld(s) == {};
    assert Step(s, Evaluate(y)).held == {y};
  }

  // An exclusive lock held by an idle thread passes to a call parked behind it.
  lemma LockPassesOn(s: State, y: Lock, x: Lock) returns (run: seq<Action>, s': State)
    requires s.counter == 0 && s.held == {y} && y.ExclusiveLock? && !Busy(s, y.thread)
    requires x in s.parked && x.ExclusiveLock?
    ensures Steps(s, run, s') && NoSpuriousWakes(run) && x in s'.held
  {
    var mid := Step(s, Unlock(y, x));
    s' := Step(mid, Evaluate(x));
    NoSteps(s');
    QuietCons(mid, Evaluate(x), [], s');
    QuietCons(s, Unlock(y, x), [Evaluate(x)] + [], s');
    run := [Unlock(y, x)] + ([Evaluate(x)] + []);
  }

  // A free lock can be taken by any exclusive call: at once, or after one that is awake was served.
  lemma FreeLockIsGranted(s: State, x: Lock) returns (run: seq<Action>, s': State)
    requires Settled(s) && s.held == {} && x in s.awake + s.parked && x.ExclusiveLock?
    ensures Steps(s, run, s') && NoSpuriousWakes(run) && x in s'.held
  {
    hide Enabled, Step, Steps, Busy, NoSpuriousWakes;
    if x in s.awake {
      FreeLockTaken(s, x);
      s' := Step(s, Evaluate(x));
      NoSteps(s');
      QuietCons(s, Evaluate(x), [], s');
      run := [Evaluate(x)] + [];
    } else {
      var y := AwakeContender(s);
      FreeLockTaken(s, y);
      run, s' := LockPassesOn(Step(s, Evaluate(y)), y, x);
      QuietCons(s, Evaluate(y), run, s');
      run := [Evaluate(y)] + run;
    }
  }

  lemma AwakeContender(s: State) returns (y: Lock)
    requires Invariant(s) && s.held == {} && s.parked != {}
    ensures y in s.awake && y.ExclusiveLock?
  {
    assert SharedHeld(s) == {} && ExclusiveHeld(s) == {};
    y :| y in s.awake && y.ExclusiveLock?;
  }

  lemma {:induction false} StepsJoin(s: State, a: seq<Action>, mid: State, b: seq<Action>, s': State)
    requires Steps(s, a, mid) && Steps(mid, b, s')
    ensures Steps(s, a + b, s')
    decreases |a|
  {
    if a == [] {
      assert a + b == b;
    } else {
      assert (a + b)[1..] == a[1..] + b;
      StepsJoin(Step(s, a[0]), a[1..], mid, b, s');
    }
  }

  lemma GrantingRun(s: State, x: Lock) returns (run: seq<Action>, s': State)
    requires Settled(s) && x in s.awake + s.parked && x.ExclusiveLock?
    ensures Steps(s, run, s') && NoSpuriousWakes(run) && x in s'.held
  {
    hide Settled, Steps;
    var a, mid := EverybodyLetsGo(s, x);
    var b;
    b, s' := FreeLockIsGranted(mid, x);
    StepsJoin(s, a, mid, b, s');
    run := a + b;
  }

  lemma ReachableIsSound(s: State)
    requires Reachable(s)
    ensures Invariant(s) && OneCall(s)
  {
    var path :| Steps(INITIAL, path, s);
    RunKeepsInvariant(INITIAL, path, s);
    RunKeepsOneCall(INITIAL, path, s);
  }

  /** The exact condition for the exclusive lock: in every reachable state, a call waiting for it is granted
      in some continuation iff no thread that holds the lock waits for it exclusively; and then it is
      granted in one without spurious wake-ups. */
  lemma ExclusiveIsGrantedIff(s: State, x: Lock)
    requires Reachable(s) && x in s.awake + s.parked && x.ExclusiveLock?
    ensures (exists run, s' :: Steps(s, run, s') && x in s'.held) <==> NobodyUpgrades(s)
    ensures NobodyUpgrades(s) ==> exists run, s' :: Steps(s, run, s') && NoSpuriousWakes(run) && x in s'.held
  {
    hide Steps, Invariant, OneCall, NobodyUpgrades, NoSpuriousWakes;
    ReachableIsSound(s);
    if NobodyUpgrades(s) {
      var run, s' := GrantingRun(s, x);
    } else {
      UpgradeBlocksAll(s, x);
    }
  }

  lemma UpgradeBlocksAll(s: State, x: Lock)
    requires Invariant(s) && !NobodyUpgrades(s) && x in s.awake + s.parked && x.ExclusiveLock?
    ensures forall run, s' :: Steps(s, run, s') ==> x !in s'.held
  {
    var l :| l in s.held && WaitsForExclusive(s, l.thread);
    var w :| w in s.awake + s.parked && w.thread == l.thread && w.ExclusiveLock?;
    forall run, s' | Steps(s, run, s')
      ensures x !in s'.held
    {
      UpgradeIsForever(s, run, s', l, w);
      assert x in s'.held ==> x in ExclusiveHeld(s');
    }
  }

  lemma StepsCons(s: State, a: Action, rest: seq<Action>, s': State)
    requires Enabled(s, a) && Steps(Step(s, a), rest, s')
    ensures Steps(s, [a] + rest, s')
  {
  }

  /** notify_one would not do where the code has notify_all: after an exclusive unlock that woke
      only one shared waiter, the other would sleep with nobody holding the lock exclusively. */
  lemma ExclusiveUnlockMustWakeAll(s: State, a: Lock, b: Lock, x: Lock)
    requires Invariant(s) && a != b && {a, b} <= s.parked && a.SharedLock? && b.SharedLock?
    requires x in s.held && x.ExclusiveLock?
    ensures !SharedWaitersHaveCause(NotifyOne(s.(held := s.held - {x}, exclusive := false), a))
    ensures SharedWaitersHaveCause(Release(s, x, a)) && {a, b} <= Release(s, x, a).awake
  {
  }

  /** Whom an unlock wakes, exactly: nobody while shared locks remain, one waiter, if there is any, with the
      last shared lock, and everybody with an exclusive lock; nobody else moves. */
  lemma UnlockWakes(s: State, l: Lock, notified: Lock)
    requires Enabled(s, Unlock(l, notified))
    ensures var s' := Step(s, Unlock(l, notified));
            && s'.held == s.held - {l}
            && s'.parked == (if l.ExclusiveLock? then {}
                             else if s.counter == 1 then s.parked - {notified}
                             else s.parked)
            && s'.awake == s.awake + (s.parked - s'.parked)
  {
  }

  /** In numbers: the waiters an unlock wakes. */
  lemma UnlockWakesThatMany(s: State, l: Lock, notified: Lock)
    requires Enabled(s, Unlock(l, notified))
    ensures |s.parked - Step(s, Unlock(l, notified)).parked|
            == if l.ExclusiveLock? then |s.parked|
               else if s.counter == 1 && s.parked != {} then 1
               else 0
  {
    hide Step;
    UnlockWakes(s, l, notified);
    var s' := Step(s, Unlock(l, notified));
    if l.ExclusiveLock? {
      assert s.parked - s'.parked == s.parked;
    } else if s.counter == 1 && s.parked != {} {
      assert s.parked - s'.parked == {notified};
    } else {
      assert s.parked - s'.parked == {};
    }
  }

  // ---------------------------------------------------------------- the lock itself

  /** SharedMutex with the code that runs on it under the inner mutex. held, awake and parked
      stand for the lock objects' locked_ flags and for the threads inside cv_.wait. */
  class SharedMutex {
    var sharedCounter: int
    var exclusivelyLocked: bool
    var exclusiveThreadId: ThreadId
    var held: set<Lock>
    var awake: set<Lock>
    var parked: set<Lock>

    ghost function Abs(): State
      reads this
    {
      State(sharedCounter, exclusivelyLocked, exclusiveThreadId, held, awake, parked)
    }

    constructor ()
      ensures Abs() == INITIAL
    {
      sharedCounter, exclusivelyLocked, exclusiveThreadId := 0, false, 0;
      held, awake, parked := {}, {}, {};
    }

    // Entering lock(): a lock object that is already locked does nothing.
    method EnterLock(l: Lock)
      modifies this
      ensures Abs() == if l in old(held) then old(Abs()) else Step(old(Abs()), Arrive(l))
    {
      if l !in held {
        awake := awake + {l};
      }
    }

    // One evaluation of the wait predicate, and what follows it before the mutex is released.
    method EvaluatePredicate(l: Lock) returns (acquired: bool)
      requires l in awake
      modifies this
      ensures acquired == CanAcquire(old(Abs()), l)
      ensures Abs() == Step(old(Abs()), Evaluate(l))
    {
      awake := awake - {l};
      match l {
        case SharedLock(t, _) =>
          acquired := !exclusivelyLocked || t == exclusiveThreadId;
          if acquired {
            sharedCounter := sharedCounter + 1;
          }
        case ExclusiveLock(t, _) =>
          acquired := 0 == sharedCounter && !exclusivelyLocked;
          if acquired {
            exclusivelyLocked := true;
            exclusiveThreadId := t;
          }
      }
      if acquired {
        held := held + {l};
      } else {
        parked := parked + {l};
      }
    }

    method WakeSpuriously(l: Lock)
      requires l in parked
      modifies this
      ensures Abs() == Step(old(Abs()), SpuriousWake(l))
    {
      awake, parked := awake + {l}, parked - {l};
    }

    // unlock(): a lock object that is not locked does nothing.
    method UnlockLock(l: Lock, notified: Lock)
      modifies this
      ensures Abs() == if l in old(held) then Step(old(Abs()), Unlock(l, notified)) else old(Abs())
    {
      if l in held {
        match l {
          case SharedLock(_, _) =>
            sharedCounter := sharedCounter - 1;
            if 0 == sharedCounter && notified in parked {
              awake, parked := awake + {notified}, parked - {notified};
            }
          case ExclusiveLock(_, _) =>
            exclusivelyLocked := false;
            awake, parked := awake + parked, parked - parked;
        }
        held := held - {l};
      }
    }
  }
}
