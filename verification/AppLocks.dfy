// The per-application lock with stale takeover (backend/app/app_locks.py).
//
// Any number of tasks run `acquire_app_lock` on one application; entries of
// different applications share nothing. A run is a sequence of the atomic
// pieces between two awaits. Getting the lock and stamping the entry are two
// steps: before Python 3.12 `asyncio.wait_for` lets other tasks run between
// them, from 3.12 on they follow each other immediately.
module AppLocks {
  import opened Basics

  const LOCK_TIMEOUT_SECONDS := 30.0

  // `acquiredAt == 0` means nobody is registered.
  datatype Entry = Entry(locked: bool, acquiredAt: real, holder: string)

  const FREE := Entry(false, 0.0, "")

  predicate IsStale(e: Entry, now: real) {
    e.acquiredAt != 0.0 && now - e.acquiredAt > LOCK_TIMEOUT_SECONDS
  }

  // The first piece: the lock is free, taken over, or the caller is refused.
  predicate TakesOver(e: Entry, now: real) {
    e.locked && IsStale(e, now)
  }

  predicate Refuses(e: Entry, now: real) {
    e.locked && !IsStale(e, now)
  }

  function AfterBegin(e: Entry, now: real): Entry {
    if TakesOver(e, now) then e.(locked := false) else e
  }

  function AfterStamp(e: Entry, now: real, operation: string): Entry {
    e.(acquiredAt := now, holder := if operation != "" then operation else "unknown")
  }

  // Releasing a lock that is not held raises, and the error is swallowed.
  function AfterLeave(e: Entry): Entry {
    FREE
  }

  class AppLockEntry {
    var locked: bool
    var acquiredAt: real
    var holder: string

    ghost function Abs(): Entry
      reads this
    {
      Entry(locked, acquiredAt, holder)
    }

    constructor ()
      ensures Abs() == FREE
    {
      locked, acquiredAt, holder := false, 0.0, "";
    }

    method Begin(now: real) returns (refused: bool)
      modifies this
      ensures refused == Refuses(old(Abs()), now)
      ensures Abs() == AfterBegin(old(Abs()), now)
    {
      if locked {
        if acquiredAt != 0.0 && now - acquiredAt > LOCK_TIMEOUT_SECONDS {
          locked := false;
        } else {
          return true;
        }
      }
      return false;
    }

    method Acquire()
      requires !locked
      modifies this
      ensures Abs() == old(Abs()).(locked := true)
    {
      locked := true;
    }

    // From here on the entry is stale exactly after the timeout.
    method Stamp(now: real, operation: string)
      modifies this
      ensures Abs() == AfterStamp(old(Abs()), now, operation)
      ensures holder != "" && (operation != "" ==> holder == operation)
      ensures now != 0.0 ==> forall later: real :: IsStale(Abs(), later) <==> later > now + LOCK_TIMEOUT_SECONDS
    {
      acquiredAt := now;
      holder := if operation != "" then operation else "unknown";
    }

    // A caller that nobody interrupts: it is refused, or it is in the section
    // and every caller up to the timeout is refused. A clock that reads 0 would
    // leave a lock that never gets stale.
    method Enter(now: real, operation: string) returns (refused: bool)
      modifies this
      ensures refused <==> Refuses(old(Abs()), now)
      ensures refused ==> Abs() == old(Abs())
      ensures !refused ==> locked && acquiredAt == now && holder == (if operation != "" then operation else "unknown")
      ensures !refused ==> forall later: real :: now <= later ==>
                (Refuses(Abs(), later) <==> now == 0.0 || later <= now + LOCK_TIMEOUT_SECONDS)
    {
      refused := Begin(now);
      if !refused {
        Acquire();
        Stamp(now, operation);
      }
    }

    // Whoever leaves, the next caller is let in.
    method Leave()
      modifies this
      ensures Abs() == AfterLeave(old(Abs()))
      ensures forall now: real :: !Refuses(Abs(), now) && !TakesOver(Abs(), now)
    {
      acquiredAt := 0.0;
      holder := "";
      if locked {
        locked := false;
      }
    }
  }

  // One entry for each application, created when it is first asked for.
  class AppLockRegistry {
    var entries: map<int, AppLockEntry>

    // Applications do not share an entry.
    ghost predicate Valid()
      reads this
    {
      forall i, j :: i in entries && j in entries && entries[i] == entries[j] ==> i == j
    }

    constructor ()
      ensures Valid() && entries == map[]
    {
      entries := map[];
    }

    method GetEntry(appId: int) returns (entry: AppLockEntry)
      requires Valid()
      modifies this
      ensures Valid() && appId in entries && entry == entries[appId]
      ensures appId in old(entries) ==> entries == old(entries)
      ensures appId !in old(entries) ==> fresh(entry) && entry.Abs() == FREE && entries == old(entries)[appId := entry]
    {
      if appId !in entries {
        entry := new AppLockEntry();
        entries := entries[appId := entry];
      }
      entry := entries[appId];
    }

    // The lock of one application is asked for, and the others are left alone.
    method AcquireAppLock(appId: int, now: real, operation: string) returns (entry: AppLockEntry, refused: bool)
      requires Valid()
      modifies this, if appId in entries then {entries[appId]} else {}
      ensures Valid() && appId in entries && entry == entries[appId]
      ensures forall i :: i in old(entries) ==> i in entries && entries[i] == old(entries[i])
      ensures forall i :: i in old(entries) && i != appId ==> entries[i].Abs() == old(entries[i].Abs())
      ensures refused <==> appId in old(entries) && old(Refuses(entries[appId].Abs(), now))
      ensures !refused ==> forall later: real :: now <= later ==>
                (Refuses(entry.Abs(), later) <==> now == 0.0 || later <= now + LOCK_TIMEOUT_SECONDS)
    {
      entry := GetEntry(appId);
      refused := entry.Enter(now, operation);
    }
  }

  // ----- the protocol -----

  datatype Phase = Waiting | Granted | Inside(since: real) | Ended

  // `takeovers` counts the forced releases, `acquirer` is the task that got
  // the lock last and `stampedAt` is when the entry was stamped last.
  datatype State = State(clock: real, entry: Entry, tasks: map<nat, Phase>,
                         takeovers: nat, acquirer: nat, stampedAt: real)

  datatype Step =
    | Tick(now: real)
    | Begin(task: nat)
    | Grant(task: nat)
    | Stamp(task: nat, operation: string)
    | GiveUp(task: nat)
    | Leave(task: nat)

  ghost predicate Init(s: State) {
    s.clock > 0.0 && s.entry == FREE && s.tasks == map[] && s.takeovers == 0 && s.stampedAt == 0.0
  }

  ghost predicate IsIn(s: State, t: nat, p: Phase) {
    t in s.tasks && s.tasks[t] == p
  }

  ghost predicate Next(s: State, step: Step, s': State) {
    match step
    case Tick(now) => now >= s.clock && s' == s.(clock := now)
    case Begin(t) =>
      && t !in s.tasks
      && s' == s.(entry := AfterBegin(s.entry, s.clock),
                  tasks := s.tasks[t := if Refuses(s.entry, s.clock) then Ended else Waiting],
                  takeovers := s.takeovers + (if TakesOver(s.entry, s.clock) then 1 else 0))
    case Grant(t) =>
      && IsIn(s, t, Waiting) && !s.entry.locked
      && s' == s.(entry := s.entry.(locked := true), tasks := s.tasks[t := Granted], acquirer := t)
    case Stamp(t, operation) =>
      && IsIn(s, t, Granted)
      && s' == s.(entry := AfterStamp(s.entry, s.clock, operation), tasks := s.tasks[t := Inside(s.clock)],
                  stampedAt := s.clock)
    case GiveUp(t) => IsIn(s, t, Waiting) && s' == s.(tasks := s.tasks[t := Ended])
    case Leave(t) =>
      && t in s.tasks && s.tasks[t].Inside?
      && s' == s.(entry := AfterLeave(s.entry), tasks := s.tasks[t := Ended])
  }

  datatype Run = Start(first: State) | More(prefix: Run, step: Step, last: State)

  function Final(r: Run): State {
    match r
    case Start(s) => s
    case More(_, _, s) => s
  }

  ghost predicate IsRun(r: Run) {
    match r
    case Start(s) => Init(s)
    case More(p, step, s) => IsRun(p) && Next(Final(p), step, s)
  }

  ghost predicate IsPrefix(p: Run, r: Run) {
    p == r || (r.More? && IsPrefix(p, r.prefix))
  }

  // ----- the tasks that hold a lock they were granted -----

  ghost function Holders(s: State): set<nat> {
    set t | t in s.tasks && (s.tasks[t].Granted? || s.tasks[t].Inside?)
  }

  function Held(e: Entry): nat {
    if e.locked then 1 else 0
  }

  lemma HoldersStep(s: State, step: Step, s': State)
    requires Next(s, step, s')
    ensures Holders(s') == match step
                           case Grant(t) => Holders(s) + {t}
                           case Leave(t) => Holders(s) - {t}
                           case _ => Holders(s)
    ensures step.Grant? ==> step.task !in Holders(s)
    ensures step.Leave? ==> step.task in Holders(s)
  {
  }

  // The safety bound: in every run of any number of tasks, no more tasks are
  // in the section than the lock shows, plus one for each takeover so far.
  lemma {:induction false} HoldersBound(r: Run)
    requires IsRun(r)
    ensures var s := Final(r); |Holders(s)| <= Held(s.entry) + s.takeovers
    decreases r
  {
    match r {
      case Start(s) => assert Holders(s) == {};
      case More(p, step, s) =>
        HoldersBound(p);
        HoldersStep(Final(p), step, s);
    }
  }

  // ----- mutual exclusion while no hold outlasts the timeout -----

  ghost predicate NoneOutlasts(s: State) {
    forall t :: t in s.tasks && s.tasks[t].Inside? ==> s.clock - s.tasks[t].since <= LOCK_TIMEOUT_SECONDS
  }

  ghost predicate NoHoldOutlasts(r: Run) {
    match r
    case Start(s) => NoneOutlasts(s)
    case More(p, _, s) => NoHoldOutlasts(p) && NoneOutlasts(s)
  }

  // As long as nothing was taken over, the entry describes its one holder.
  ghost predicate Quiet(s: State) {
    && s.clock > 0.0
    && (s.entry.locked <==> Holders(s) != {})
    && (forall t, u :: t in Holders(s) && u in Holders(s) ==> t == u)
    && (forall t :: t in s.tasks && s.tasks[t].Granted? ==> s.entry.acquiredAt == 0.0)
    && (forall t :: t in s.tasks && s.tasks[t].Inside? ==> s.entry.acquiredAt == s.tasks[t].since > 0.0)
    && (!s.entry.locked ==> s.entry.acquiredAt == 0.0)
  }

  lemma QuietStep(s: State, step: Step, s': State)
    requires Quiet(s) && Next(s, step, s') && s'.takeovers == s.takeovers
    ensures Quiet(s')
  {
    HoldersStep(s, step, s');
    assert forall t :: t in s.tasks && (s.tasks[t].Granted? || s.tasks[t].Inside?) ==> t in Holders(s);
    assert forall t :: t in s'.tasks && (s'.tasks[t].Granted? || s'.tasks[t].Inside?) ==> t in Holders(s');
    if step.Leave? {
      assert Holders(s') == {};
    }
  }

  // A quiet lock is taken over only from a task that has outlasted it.
  lemma QuietTakeover(s: State)
    requires Quiet(s) && TakesOver(s.entry, s.clock)
    ensures exists t :: t in s.tasks && s.tasks[t].Inside? && s.clock - s.tasks[t].since > LOCK_TIMEOUT_SECONDS
  {
    var t := SomeElement(Holders(s));
    assert s.tasks[t].Inside?;
  }

  lemma {:induction false} MutualExclusion(r: Run)
    requires IsRun(r) && NoHoldOutlasts(r)
    ensures var s := Final(r); s.takeovers == 0 && Quiet(s) && |Holders(s)| <= 1
    decreases r
  {
    hide Quiet, NoneOutlasts;
    match r {
      case Start(s) =>
        InitQuiet(s);
      case More(p, step, s) =>
        MutualExclusion(p);
        if TakesOver(Final(p).entry, Final(p).clock) {
          QuietTakeover(Final(p));
          SomeoneOutlasts(p);
        }
        QuietStep(Final(p), step, s);
    }
    HoldersBound(r);
  }

  lemma SomeoneOutlasts(r: Run)
    requires NoHoldOutlasts(r)
    ensures !exists t :: t in Final(r).tasks && Final(r).tasks[t].Inside?
                         && Final(r).clock - Final(r).tasks[t].since > LOCK_TIMEOUT_SECONDS
  {
  }

  lemma InitQuiet(s: State)
    requires Init(s)
    ensures Quiet(s)
  {
    assert Holders(s) == {};
  }

  // ----- whom a takeover displaces -----

  // A held lock belongs to the last acquirer, and the entry's time is never
  // older than the last stamp.
  ghost predicate Stamped(s: State) {
    && s.stampedAt <= s.clock
    && (s.entry.acquiredAt == 0.0 || s.entry.acquiredAt == s.stampedAt)
    && (s.entry.locked ==> s.acquirer in Holders(s))
    && forall t :: t in s.tasks && s.tasks[t].Inside? ==> s.tasks[t].since <= s.stampedAt
  }

  lemma StampedStep(s: State, step: Step, s': State)
    requires Stamped(s) && Next(s, step, s')
    ensures Stamped(s')
  {
    HoldersStep(s, step, s');
  }

  lemma {:induction false} RunsAreStamped(r: Run)
    requires IsRun(r)
    ensures Stamped(Final(r))
    decreases r
  {
    match r {
      case Start(_) =>
      case More(p, step, s) =>
        RunsAreStamped(p);
        StampedStep(Final(p), step, s);
    }
  }

  // The displaced last acquirer is either still between getting the lock and
  // stamping it, or has held it for more than the timeout: where the stamp
  // follows at once, nobody is displaced who has held for 30 s or less.
  lemma TakeoverVictim(r: Run)
    requires IsRun(r) && TakesOver(Final(r).entry, Final(r).clock)
    ensures var s := Final(r);
            && s.acquirer in s.tasks
            && (s.tasks[s.acquirer].Granted?
                || (s.tasks[s.acquirer].Inside? && s.clock - s.tasks[s.acquirer].since > LOCK_TIMEOUT_SECONDS))
  {
    RunsAreStamped(r);
  }

  // ----- when the stamp follows at once -----

  // A task that gets the lock is stamped by the very next step.
  ghost predicate Prompt(r: Run) {
    match r
    case Start(_) => true
    case More(p, step, _) =>
      Prompt(p) && (p.More? && p.step.Grant? ==> step.Stamp? && step.task == p.step.task)
  }

  lemma {:induction false} PromptlyStamped(r: Run)
    requires IsRun(r) && Prompt(r)
    ensures forall t :: t in Final(r).tasks && Final(r).tasks[t].Granted? ==> r.More? && r.step == Grant(t)
    decreases r
  {
    match r {
      case Start(_) =>
      case More(p, step, s) =>
        PromptlyStamped(p);
    }
  }

  // Then the promise holds as it is made: a takeover displaces only a task that
  // has been inside for more than the timeout.
  lemma PromptTakeoverVictim(r: Run)
    requires IsRun(r) && Prompt(r) && r.More? && r.step.Begin? && TakesOver(Final(r.prefix).entry, Final(r.prefix).clock)
    ensures var s := Final(r.prefix);
            && s.acquirer in s.tasks && s.tasks[s.acquirer].Inside?
            && s.clock - s.tasks[s.acquirer].since > LOCK_TIMEOUT_SECONDS
  {
    PromptlyStamped(r.prefix);
    TakeoverVictim(r.prefix);
  }

  // ----- the bounds cannot be improved -----

  ghost predicate IsFresh(s: State, t: nat) {
    t in s.tasks && s.tasks[t] == Inside(s.clock)
  }

  // A new task walks in when the lock is free or stale.
  lemma WalkIn(r: Run, t: nat) returns (r': Run)
    requires IsRun(r) && t !in Final(r).tasks && !Refuses(Final(r).entry, Final(r).clock)
    ensures IsRun(r') && IsPrefix(r, r')
    ensures var s, s' := Final(r), Final(r');
            && s'.clock == s.clock
            && s'.entry == Entry(true, s.clock, "unknown")
            && s'.tasks == s.tasks[t := Inside(s.clock)]
            && s'.takeovers == s.takeovers + (if TakesOver(s.entry, s.clock) then 1 else 0)
  {
    var s := Final(r);
    var s1 := s.(entry := AfterBegin(s.entry, s.clock), tasks := s.tasks[t := Waiting],
                 takeovers := s.takeovers + (if TakesOver(s.entry, s.clock) then 1 else 0));
    var r1 := More(r, Begin(t), s1);
    var s2 := s1.(entry := s1.entry.(locked := true), tasks := s1.tasks[t := Granted], acquirer := t);
    var r2 := More(r1, Grant(t), s2);
    var s3 := s2.(entry := AfterStamp(s2.entry, s2.clock, ""), tasks := s2.tasks[t := Inside(s2.clock)], stampedAt := s2.clock);
    r' := More(r2, Stamp(t, ""), s3);
    assert Next(s, Begin(t), s1) && Next(s1, Grant(t), s2) && Next(s2, Stamp(t, ""), s3);
    assert s3.tasks == s.tasks[t := Inside(s.clock)];
    assert IsPrefix(r, r1) && IsPrefix(r, r2);
  }

  // Without a takeover so far the entry describes its one holder.
  lemma {:induction false} QuietSoFar(r: Run)
    requires IsRun(r) && Final(r).takeovers == 0
    ensures Quiet(Final(r))
    decreases r
  {
    hide Quiet;
    match r {
      case Start(s) =>
        InitQuiet(s);
      case More(p, step, s) =>
        TakeoversGrow(Final(p), step, s);
        QuietSoFar(p);
        QuietStep(Final(p), step, s);
    }
  }

  lemma TakeoversGrow(s: State, step: Step, s': State)
    requires Next(s, step, s')
    ensures s.takeovers <= s'.takeovers
  {
  }

  // Without a takeover so far, the next caller takes the lock over exactly when
  // the hold has outlasted the timeout.
  lemma TakeoverExactly(r: Run)
    requires IsRun(r) && Final(r).takeovers == 0
    ensures TakesOver(Final(r).entry, Final(r).clock) <==> !NoneOutlasts(Final(r))
  {
    var s := Final(r);
    QuietSoFar(r);
    if TakesOver(s.entry, s.clock) {
      QuietTakeover(s);
    }
    if !NoneOutlasts(s) {
      var t :| t in s.tasks && s.tasks[t].Inside? && s.clock - s.tasks[t].since > LOCK_TIMEOUT_SECONDS;
      assert t in Holders(s);
    }
  }

  // The converse of mutual exclusion: as soon as a hold has outlasted the
  // timeout, the next task walks in beside it.
  lemma OutlastingHoldBreaks(r: Run, t: nat) returns (r': Run)
    requires IsRun(r) && Final(r).takeovers == 0 && t !in Final(r).tasks && !NoneOutlasts(Final(r))
    ensures IsRun(r') && IsPrefix(r, r') && Final(r').clock == Final(r).clock && Final(r').takeovers == 1
    ensures |Holders(Final(r))| == 1 && |Holders(Final(r'))| == 2 && t in Holders(Final(r'))
  {
    var s := Final(r);
    TakeoverExactly(r);
    QuietSoFar(r);
    r' := WalkIn(r, t);
    var u := SomeElement(Holders(s));
    assert Holders(s) == {u};
    assert Holders(Final(r')) == {u, t};
  }

  lemma {:induction false} SomeOtherTask(tasks: set<nat>) returns (t: nat)
    ensures t !in tasks && forall u :: u in tasks ==> u < t
    decreases |tasks|
  {
    if tasks == {} {
      t := 0;
    } else {
      var x := SomeElement(tasks);
      t := SomeOtherTask(tasks - {x});
      assert forall u :: u in tasks ==> u == x || u in tasks - {x};
      t := if x < t then t else x + 1;
    }
  }

  // The first time that a hold outlasts the timeout nothing was taken over.
  lemma {:induction false} FirstOutlasting(r: Run) returns (p: Run)
    requires IsRun(r) && !NoHoldOutlasts(r)
    ensures IsPrefix(p, r) && IsRun(p) && Final(p).takeovers == 0 && !NoneOutlasts(Final(p))
    decreases r
  {
    hide NoneOutlasts, Quiet;
    p := r;
    match r {
      case Start(_) =>
      case More(q, step, s) =>
        if NoHoldOutlasts(q) {
          MutualExclusion(q);
          if TakesOver(Final(q).entry, Final(q).clock) {
            QuietTakeover(Final(q));
            SomeoneOutlasts(q);
          }
        } else {
          p := FirstOutlasting(q);
        }
    }
  }

  // The condition of mutual exclusion is exact: every run in which some hold
  // outlasts the timeout comes to a point where one more caller, who has just
  // arrived, is let in beside the holder.
  lemma ExclusionNeedsShortHolds(r: Run) returns (p: Run, r': Run)
    requires IsRun(r) && !NoHoldOutlasts(r)
    ensures IsPrefix(p, r) && IsPrefix(p, r') && IsRun(r') && Final(r').clock == Final(p).clock
    ensures |Holders(Final(p))| == 1 && |Holders(Final(r'))| == 2
  {
    hide Quiet, NoneOutlasts;
    p := FirstOutlasting(r);
    var t := SomeOtherTask(Final(p).tasks.Keys);
    r' := OutlastingHoldBreaks(p, t);
  }

  // For every number of takeovers there is a run that attains the bound.
  lemma {:induction false} BoundIsAttained(n: nat) returns (r: Run)
    ensures IsRun(r)
    ensures var s := Final(r);
            && s.takeovers == n && |Holders(s)| == n + 1 && s.clock > 0.0
            && s.entry.locked && s.entry.acquiredAt == s.clock
            && IsFresh(s, n)
            && forall t: nat :: t in s.tasks <==> t <= n
    ensures forall t :: t in Final(r).tasks ==> Final(r).tasks[t].Inside?
  {
    if n == 0 {
      var first := State(1.0, FREE, map[], 0, 0, 0.0);
      r := WalkIn(Start(first), 0);
      assert Holders(Final(r)) == {0};
    } else {
      var before := BoundIsAttained(n - 1);
      var s := Final(before);
      var later := s.(clock := s.clock + 31.0);
      var r1 := More(before, Tick(s.clock + 31.0), later);
      assert Next(s, Tick(s.clock + 31.0), later);
      r := WalkIn(r1, n);
      assert Holders(Final(r)) == Holders(s) + {n};
    }
  }

  // After one takeover two tasks can be inside although neither has held for
  // any time: the displaced task, on leaving, releases the lock of the task
  // that displaced it, and a third one walks in.
  lemma TwoFreshHolders() returns (r: Run)
    ensures IsRun(r) && Final(r).takeovers == 1
    ensures IsFresh(Final(r), 1) && IsFresh(Final(r), 2)
    ensures Holders(Final(r)) == {1, 2}
  {
    var before := BoundIsAttained(1);
    var s := Final(before);
    var s1 := s.(entry := FREE, tasks := s.tasks[0 := Ended]);
    var r1 := More(before, Leave(0), s1);
    assert Next(s, Leave(0), s1);
    r := WalkIn(r1, 2);
    assert 1 in Final(r).tasks && Final(r).tasks[1] == s.tasks[1];
    assert Holders(Final(r)) == {1, 2};
  }

  // Where other tasks run between getting the lock and stamping it, a task
  // that has only just got the lock is displaced, because the entry still
  // carries the stale time.
  lemma UnstampedAcquirerIsDisplaced() returns (r: Run)
    ensures IsRun(r) && r.More? && r.step == Begin(2)
    ensures TakesOver(Final(r.prefix).entry, Final(r.prefix).clock)
    ensures var s := Final(r.prefix); s.acquirer == 1 && IsIn(s, 1, Granted)
  {
    var before := BoundIsAttained(0);
    var s := Final(before);
    var s1 := s.(clock := s.clock + 31.0);
    var r1 := More(before, Tick(s.clock + 31.0), s1);
    var s2 := s1.(entry := AfterBegin(s1.entry, s1.clock), tasks := s1.tasks[1 := Waiting], takeovers := s1.takeovers + 1);
    var r2 := More(r1, Begin(1), s2);
    var s3 := s2.(entry := s2.entry.(locked := true), tasks := s2.tasks[1 := Granted], acquirer := 1);
    var r3 := More(r2, Grant(1), s3);
    var s4 := s3.(entry := AfterBegin(s3.entry, s3.clock), tasks := s3.tasks[2 := Waiting], takeovers := s3.takeovers + 1);
    r := More(r3, Begin(2), s4);
    assert Next(s, Tick(s.clock + 31.0), s1) && Next(s1, Begin(1), s2) && Next(s2, Grant(1), s3) && Next(s3, Begin(2), s4);
    assert IsRun(r1) && IsRun(r2) && IsRun(r3);
  }
}
