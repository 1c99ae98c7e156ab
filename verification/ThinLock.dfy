/**
  The Windows mutex: a shared counter and a semaphore of maximum one, under the poison flag
  of the portable layer, as a transition system over any number of threads.

  A thread adds one to the counter and owns the lock if the counter was zero, or else waits
  on the semaphore.  To unlock it subtracts one and, if others had queued up, posts the
  semaphore in a later step.  The poison flag is read after locking and stored before
  unlocking; attaching another handle to the same memory clears it at any time.
 */
module ThinLock {
  import opened Words
  import opened Sums
  import opened Wrappers

  datatype Stage =
    | Waiting    // counted, blocked in WaitForSingleObject
    | Entering   // owns the lock, is about to load the poison flag
    | Inside     // the guard is live
    | Poisoning  // the guard is dropped while panicking, is about to store the flag
    | Unlocking  // is about to subtract one from the counter
    | Posting    // saw others queued up, is about to release the semaphore

  type ThreadId = nat
  type Threads = map<ThreadId, Stage>

  /** faulted records that an error branch of the unlocking code was taken. */
  datatype State = State(count: Word, semaphore: nat, poison: bool, faulted: bool, threads: Threads) {
    function Move(t: ThreadId, stage: Stage): State {
      this.(threads := threads[t := stage])
    }

    function Leave(t: ThreadId): State {
      this.(threads := threads - {t})
    }
  }

  datatype Event =
    | Arrive(thread: ThreadId)
    | Acquire(thread: ThreadId)
    | LoadPoison(thread: ThreadId)
    | Drop(thread: ThreadId, panicking: bool)
    | StorePoison(thread: ThreadId)
    | FetchSub(thread: ThreadId)
    | Post(thread: ThreadId)
    | Attach

  /** The state that new_with_memory sets up. */
  const Initial := State(0, 0, false, false, map[])

  predicate At(s: State, t: ThreadId, stage: Stage) {
    t in s.threads && s.threads[t] == stage
  }

  predicate Enabled(s: State, e: Event) {
    match e
    case Arrive(t) => t !in s.threads && |s.threads| < MAX_WORD
    case Acquire(t) => At(s, t, Waiting) && s.semaphore > 0
    case LoadPoison(t) => At(s, t, Entering)
    case Drop(t, _) => At(s, t, Inside)
    case StorePoison(t) => At(s, t, Poisoning)
    case FetchSub(t) => At(s, t, Unlocking)
    case Post(t) => At(s, t, Posting)
    case Attach => true
  }

  function Apply(s: State, e: Event): State {
    match e
    case Arrive(t) => s.(count := Wrap(s.count + 1)).Move(t, if s.count == 0 then Entering else Waiting)
    case Acquire(t) => (if s.semaphore == 0 then s else s.(semaphore := s.semaphore - 1)).Move(t, Entering)
    case LoadPoison(t) => s.Move(t, Inside)
    case Drop(t, panicking) => s.Move(t, if panicking then Poisoning else Unlocking)
    case StorePoison(t) => s.(poison := true).Move(t, Unlocking)
    case FetchSub(t) =>
      var after := s.(count := Wrap(s.count - 1));
      if s.count == 0 then after.(faulted := true).Leave(t)
      else if s.count == 1 then after.Leave(t)
      else after.Move(t, Posting)
    case Post(t) =>
      if s.semaphore >= 1 then s.(faulted := true).Leave(t)
      else s.(semaphore := s.semaphore + 1).Leave(t)
    case Attach => s.(poison := false)
  }

  function Exec(s: State, events: seq<Event>): Option<State> {
    if events == [] then Some(s)
    else
      var n := |events| - 1;
      match Exec(s, events[..n])
      case None => None
      case Some(t) => if Enabled(t, events[n]) then Some(Apply(t, events[n])) else None
  }

  // ---------- the token invariant ----------

  predicate OwnsLock(stage: Stage) {
    stage == Entering || stage == Inside || stage == Poisoning || stage == Unlocking
  }

  /** One for a thread that owns the lock or is about to pass it on. */
  function Token(stage: Stage): nat {
    if OwnsLock(stage) || stage == Posting then 1 else 0
  }

  /** One for a thread that the counter still counts. */
  function Counted(stage: Stage): nat {
    if OwnsLock(stage) || stage == Waiting then 1 else 0
  }

  function Each(threads: Threads, f: Stage -> nat): map<ThreadId, nat> {
    map t | t in threads :: f(threads[t])
  }

  ghost function Total(threads: Threads, f: Stage -> nat): nat {
    Sum(Each(threads, f))
  }

  /** Exactly one token exists while the lock is in use; the counter is owners plus waiters. */
  ghost predicate Inv(s: State) {
    && !s.faulted
    && s.count == Total(s.threads, Counted)
    && s.semaphore + Total(s.threads, Token) == (if s.count > 0 then 1 else 0)
  }

  lemma TotalMove(threads: Threads, t: ThreadId, stage: Stage, f: Stage -> nat)
    ensures t in threads ==>
              Total(threads[t := stage], f) + f(threads[t]) == Total(threads, f) + f(stage)
    ensures t !in threads ==> Total(threads[t := stage], f) == Total(threads, f) + f(stage)
  {
    assert Each(threads[t := stage], f) == Each(threads, f)[t := f(stage)];
    if t in threads {
      SumUpdate(Each(threads, f), t, f(stage));
    } else {
      SumRemove(Each(threads, f)[t := f(stage)], t);
      assert Each(threads, f)[t := f(stage)] - {t} == Each(threads, f);
    }
  }

  lemma TotalLeave(threads: Threads, t: ThreadId, f: Stage -> nat)
    requires t in threads
    ensures Total(threads - {t}, f) + f(threads[t]) == Total(threads, f)
  {
    SumRemove(Each(threads, f), t);
    assert Each(threads - {t}, f) == Each(threads, f) - {t};
  }

  lemma TotalBounds(threads: Threads, f: Stage -> nat, lo: nat, hi: nat)
    requires forall stage :: lo <= f(stage) && f(stage) <= hi
    ensures |threads| * lo <= Total(threads, f) <= |threads| * hi
  {
    SumBounds(Each(threads, f), lo, hi);
    assert Each(threads, f).Keys == threads.Keys;
  }

  lemma InitialInv()
    ensures Inv(Initial)
  {
    assert Each(map[], Counted) == map[] && Each(map[], Token) == map[];
  }

  /** How a step changes a total: it replaces what its own thread contributed. */
  lemma StepTotal(s: State, e: Event, f: Stage -> nat)
    requires Enabled(s, e) && !e.Attach?
    ensures var after := Apply(s, e).threads;
            Total(after, f) + (if e.thread in s.threads then f(s.threads[e.thread]) else 0) ==
            Total(s.threads, f) + (if e.thread in after then f(after[e.thread]) else 0)
  {
    var t := e.thread;
    var after := Apply(s, e).threads;
    if t in after {
      TotalMove(s.threads, t, after[t], f);
      assert after == s.threads[t := after[t]];
    } else {
      TotalLeave(s.threads, t, f);
      assert after == s.threads - {t};
    }
  }

  /** What the two totals of the invariant amount to after a step. */
  lemma StepTokens(s: State, e: Event)
    requires Enabled(s, e) && !e.Attach?
    ensures var t := e.thread;
            var after := Apply(s, e).threads;
            && Total(after, Token) + (if t in s.threads then Token(s.threads[t]) else 0) ==
               Total(s.threads, Token) + (if t in after then Token(after[t]) else 0)
            && Total(after, Counted) + (if t in s.threads then Counted(s.threads[t]) else 0) ==
               Total(s.threads, Counted) + (if t in after then Counted(after[t]) else 0)
            && (t in s.threads ==> Token(s.threads[t]) <= Total(s.threads, Token))
            && (t in s.threads ==> Counted(s.threads[t]) <= Total(s.threads, Counted))
  {
    StepTotal(s, e, Token);
    StepTotal(s, e, Counted);
    if e.thread in s.threads {
      TotalLeave(s.threads, e.thread, Token);
      TotalLeave(s.threads, e.thread, Counted);
    }
  }

  lemma QueueStepKeepsInv(s: State, e: Event)
    requires Inv(s) && Enabled(s, e) && (e.Arrive? || e.Acquire?)
    ensures Inv(Apply(s, e))
  {
    CountFits(s);
    StepTokens(s, e);
    assert Apply(s, e).threads[e.thread] == if e.Arrive? && s.count > 0 then Waiting else Entering;
  }

  /** What the owner does inside the lock moves no token. */
  lemma OwnerStepKeepsInv(s: State, e: Event)
    requires Inv(s) && Enabled(s, e) && (e.LoadPoison? || e.Drop? || e.StorePoison?)
    ensures Inv(Apply(s, e))
  {
    StepTokens(s, e);
    assert OwnsLock(s.threads[e.thread]) && OwnsLock(Apply(s, e).threads[e.thread]);
  }

  lemma FetchSubKeepsInv(s: State, e: Event)
    requires Inv(s) && Enabled(s, e) && e.FetchSub?
    ensures Inv(Apply(s, e))
  {
    StepTokens(s, e);
    assert s.count >= 1 && s.semaphore == 0;
    assert Apply(s, e).count == s.count - 1;
  }

  lemma PostKeepsInv(s: State, e: Event)
    requires Inv(s) && Enabled(s, e) && e.Post?
    ensures Inv(Apply(s, e))
  {
    StepTokens(s, e);
    assert s.count >= 1 && s.semaphore == 0;
  }

  /** Every step keeps the invariant; in particular no error branch is ever taken. */
  lemma StepKeepsInv(s: State, e: Event)
    requires Inv(s) && Enabled(s, e)
    ensures Inv(Apply(s, e))
  {
    match e
    case Attach =>
    case Arrive(_) => QueueStepKeepsInv(s, e);
    case Acquire(_) => QueueStepKeepsInv(s, e);
    case FetchSub(_) => FetchSubKeepsInv(s, e);
    case Post(_) => PostKeepsInv(s, e);
    case _ => OwnerStepKeepsInv(s, e);
  }

  /** The counter never wraps. */
  lemma CountFits(s: State)
    requires Inv(s)
    ensures s.count <= |s.threads|
  {
    TotalBounds(s.threads, Counted, 0, 1);
  }

  lemma {:induction false} RunKeepsInv(s: State, events: seq<Event>)
    requires Inv(s) && Exec(s, events).Some?
    ensures Inv(Exec(s, events).value)
    decreases |events|
  {
    if events != [] {
      var n := |events| - 1;
      RunKeepsInv(s, events[..n]);
      StepKeepsInv(Exec(s, events[..n]).value, events[n]);
    }
  }

  // ---------- what the invariant means ----------

  /** Two different threads never own the lock, or pass it on, at the same time. */
  lemma MutualExclusion(s: State, t: ThreadId, u: ThreadId)
    requires Inv(s) && t in s.threads && u in s.threads
    requires Token(s.threads[t]) == 1 && Token(s.threads[u]) == 1
    ensures t == u
    ensures s.semaphore == 0
  {
    TotalLeave(s.threads, t, Token);
    if t != u {
      TotalLeave(s.threads - {t}, u, Token);
    }
  }

  lemma {:induction false} TokenHolderExists(threads: Threads) returns (t: ThreadId)
    requires Total(threads, Token) > 0
    ensures t in threads && Token(threads[t]) == 1
    decreases |threads|
  {
    assert Each(map[], Token) == map[];
    t :| t in threads;
    if Token(threads[t]) == 0 {
      TotalLeave(threads, t, Token);
      assert (threads - {t}).Keys == threads.Keys - {t};
      t := TokenHolderExists(threads - {t});
    }
  }

  /**
    No wakeup is lost: while some thread waits and nobody owns the lock, either the semaphore
    holds the token or exactly one thread is about to post it, never both.
   */
  lemma NoLostWakeup(s: State, w: ThreadId)
    requires Inv(s) && At(s, w, Waiting)
    requires forall t :: t in s.threads ==> !OwnsLock(s.threads[t])
    ensures s.semaphore <= 1
    ensures s.semaphore == 1 <==> forall t :: t in s.threads ==> s.threads[t] != Posting
    ensures s.semaphore == 0 ==> exists t :: At(s, t, Posting)
  {
    TotalLeave(s.threads, w, Counted);
    if s.semaphore == 0 {
      var t := TokenHolderExists(s.threads);
      assert At(s, t, Posting);
    } else {
      forall t | t in s.threads && s.threads[t] == Posting
        ensures false
      {
        TotalLeave(s.threads, t, Token);
      }
    }
  }

  // ---------- progress ----------

  /** How many steps a thread in this stage can still take. */
  function Rank(stage: Stage): nat {
    match stage
    case Waiting => 6
    case Entering => 5
    case Inside => 4
    case Poisoning => 3
    case Unlocking => 2
    case Posting => 1
  }

  /** Every step but an arrival or an attach brings its thread closer to leaving. */
  lemma StepUsesRank(s: State, e: Event)
    requires Enabled(s, e) && !e.Arrive? && !e.Attach?
    ensures Total(Apply(s, e).threads, Rank) < Total(s.threads, Rank)
  {
    StepTotal(s, e, Rank);
  }

  /** While threads are about, one of them can move: the system never deadlocks. */
  lemma SomeoneCanMove(s: State) returns (e: Event)
    requires Inv(s) && s.threads != map[]
    ensures Enabled(s, e) && !e.Arrive? && !e.Attach?
  {
    var t :| t in s.threads;
    if s.threads[t] == Waiting {
      TotalLeave(s.threads, t, Counted);
      if s.semaphore > 0 {
        return Acquire(t);
      }
      t := TokenHolderExists(s.threads);
    }
    match s.threads[t]
    case Entering => e := LoadPoison(t);
    case Inside => e := Drop(t, false);
    case Poisoning => e := StorePoison(t);
    case Unlocking => e := FetchSub(t);
    case Posting => e := Post(t);
  }

  function Arrivals(events: seq<Event>): nat {
    if events == [] then 0
    else Arrivals(events[..|events| - 1]) + if events[|events| - 1].Arrive? then 1 else 0
  }

  function Attaches(events: seq<Event>): nat {
    if events == [] then 0
    else Attaches(events[..|events| - 1]) + if events[|events| - 1].Attach? then 1 else 0
  }

  lemma StepRank(s: State, e: Event)
    requires Enabled(s, e)
    ensures 1 + Total(Apply(s, e).threads, Rank) <=
            Total(s.threads, Rank) + (if e.Arrive? then 7 else 0) + (if e.Attach? then 1 else 0)
  {
    if e.Arrive? {
      StepTotal(s, e, Rank);
    } else if !e.Attach? {
      StepUsesRank(s, e);
    }
  }

  /** In any schedule, steps are paid for by the threads about, by arrivals and by attaches. */
  lemma {:induction false} StepsBounded(s: State, events: seq<Event>)
    requires Exec(s, events).Some?
    ensures |events| + Total(Exec(s, events).value.threads, Rank) <=
            Total(s.threads, Rank) + 7 * Arrivals(events) + Attaches(events)
    decreases |events|
  {
    if events != [] {
      var n := |events| - 1;
      StepsBounded(s, events[..n]);
      StepRank(Exec(s, events[..n]).value, events[n]);
    }
  }

  /** Once no thread arrives every schedule ends: it has six steps at most for each thread about. */
  lemma RunsEnd(s: State, events: seq<Event>)
    requires Exec(s, events).Some? && Arrivals(events) == 0
    ensures |events| <= 6 * |s.threads| + Attaches(events)
  {
    StepsBounded(s, events);
    TotalBounds(s.threads, Rank, 1, 6);
  }

  /** A schedule in which no thread can go on has let every thread through the lock. */
  lemma MaximalRunsServeAll(s: State, events: seq<Event>)
    requires Inv(s) && Exec(s, events).Some?
    requires forall e :: Enabled(Exec(s, events).value, e) ==> e.Arrive? || e.Attach?
    ensures Exec(s, events).value.threads == map[]
    ensures Exec(s, events).value.count == 0 && Exec(s, events).value.semaphore == 0
  {
    RunKeepsInv(s, events);
    var t := Exec(s, events).value;
    if t.threads != map[] {
      var e := SomeoneCanMove(t);
    }
    assert Each(map[], Counted) == map[] && Each(map[], Token) == map[];
  }

  // ---------- poison ----------

  ghost predicate StoringPoison(s: State) {
    exists t :: At(s, t, Poisoning)
  }

  /** A guard was dropped while panicking after the last attach. */
  function PanickedSinceAttach(events: seq<Event>): bool {
    if events == [] then false
    else
      var e := events[|events| - 1];
      if e.Attach? then false
      else (e.Drop? && e.panicking) || PanickedSinceAttach(events[..|events| - 1])
  }

  /** At the last attach, a thread was between its panicking drop and the store of the flag. */
  ghost predicate StoringAtAttach(s: State, events: seq<Event>)
    requires Exec(s, events).Some?
  {
    if events == [] then false
    else
      var before := events[..|events| - 1];
      if events[|events| - 1].Attach? then StoringPoison(Exec(s, before).value)
      else StoringAtAttach(s, before)
  }

  /** The flag, counting a store that is due, says whether a panicking drop is on record. */
  lemma {:induction false} PoisonRecord(events: seq<Event>)
    requires Exec(Initial, events).Some?
    ensures var t := Exec(Initial, events).value;
            (t.poison || StoringPoison(t)) <==> (PanickedSinceAttach(events) || StoringAtAttach(Initial, events))
    decreases |events|
  {
    if events != [] {
      var n := |events| - 1;
      PoisonRecord(events[..n]);
      PoisonStep(Exec(Initial, events[..n]).value, events[n]);
    }
  }

  lemma PoisonStep(s: State, e: Event)
    requires Enabled(s, e)
    ensures e.Attach? ==> !Apply(s, e).poison && (StoringPoison(Apply(s, e)) <==> StoringPoison(s))
    ensures !e.Attach? ==>
              ((Apply(s, e).poison || StoringPoison(Apply(s, e))) <==>
               (s.poison || StoringPoison(s) || (e.Drop? && e.panicking)))
  {
    var after := Apply(s, e);
    if e.Attach? {
      assert forall t :: At(after, t, Poisoning) == At(s, t, Poisoning);
    } else {
      assert forall t :: t != e.thread ==> At(after, t, Poisoning) == At(s, t, Poisoning);
      if e.Drop? && e.panicking {
        assert At(after, e.thread, Poisoning);
      } else {
        assert !At(after, e.thread, Poisoning);
      }
    }
  }

  /**
    What lock answers at the end of a run.  It reports poison exactly when a guard was dropped
    while panicking since the last attach, or such a drop was under way at that attach.
   */
  lemma LockVerdict(events: seq<Event>, t: ThreadId)
    requires Exec(Initial, events).Some?
    requires Enabled(Exec(Initial, events).value, LoadPoison(t))
    ensures Exec(Initial, events).value.poison <==>
            PanickedSinceAttach(events) || StoringAtAttach(Initial, events)
  {
    PoisonRecord(events);
    InitialInv();
    RunKeepsInv(Initial, events);
    var s := Exec(Initial, events).value;
    forall u | At(s, u, Poisoning)
      ensures false
    {
      MutualExclusion(s, t, u);
    }
  }

  /**
    So the documented reading is right if and only if a guard was dropped while panicking since the
    last attach, or no such drop was under way at it.
   */
  lemma VerdictAsDocumented(events: seq<Event>, t: ThreadId)
    requires Exec(Initial, events).Some?
    requires Enabled(Exec(Initial, events).value, LoadPoison(t))
    ensures (Exec(Initial, events).value.poison <==> PanickedSinceAttach(events)) <==>
            (PanickedSinceAttach(events) || !StoringAtAttach(Initial, events))
  {
    LockVerdict(events, t);
  }

  // ---------- what a thread did before ----------

  predicate IsOf(e: Event, t: ThreadId) {
    !e.Attach? && e.thread == t
  }

  /** The last event of a thread in a run. */
  function LastOf(events: seq<Event>, t: ThreadId): Option<Event> {
    if events == [] then None
    else
      var n := |events| - 1;
      if IsOf(events[n], t) then Some(events[n]) else LastOf(events[..n], t)
  }

  /** The order in which lock and the drops of the two guards go through their steps. */
  predicate Follows(before: Option<Event>, e: Event) {
    match e
    case Arrive(_) => before.None? || before.value.FetchSub? || before.value.Post?
    case Acquire(_) => before.Some? && before.value.Arrive?
    case LoadPoison(_) => before.Some? && (before.value.Arrive? || before.value.Acquire?)
    case Drop(_, _) => before.Some? && before.value.LoadPoison?
    case StorePoison(_) => before.Some? && before.value.Drop? && before.value.panicking
    case FetchSub(_) =>
      before.Some? && (before.value.StorePoison? || (before.value.Drop? && !before.value.panicking))
    case Post(_) => before.Some? && before.value.FetchSub?
    case Attach => true
  }

  /** Where a thread stands after its last event. */
  predicate StandsAfter(s: State, t: ThreadId, last: Option<Event>) {
    match last
    case None => t !in s.threads
    case Some(Arrive(_)) => At(s, t, Waiting) || At(s, t, Entering)
    case Some(Acquire(_)) => At(s, t, Entering)
    case Some(LoadPoison(_)) => At(s, t, Inside)
    case Some(Drop(_, panicking)) => At(s, t, if panicking then Poisoning else Unlocking)
    case Some(StorePoison(_)) => At(s, t, Unlocking)
    case Some(FetchSub(_)) => t !in s.threads || At(s, t, Posting)
    case Some(Post(_)) => t !in s.threads
    case Some(Attach) => false
  }

  lemma StandsStep(s: State, e: Event, t: ThreadId, last: Option<Event>)
    requires Enabled(s, e) && StandsAfter(s, t, last)
    ensures IsOf(e, t) ==> Follows(last, e)
    ensures StandsAfter(Apply(s, e), t, if IsOf(e, t) then Some(e) else last)
  {
  }

  lemma {:induction false} LastEventStands(events: seq<Event>, t: ThreadId)
    requires Exec(Initial, events).Some?
    ensures StandsAfter(Exec(Initial, events).value, t, LastOf(events, t))
    decreases |events|
  {
    if events != [] {
      var n := |events| - 1;
      LastEventStands(events[..n], t);
      StandsStep(Exec(Initial, events[..n]).value, events[n], t, LastOf(events[..n], t));
    }
  }

  lemma {:induction false} PrefixRuns(events: seq<Event>, n: nat)
    requires Exec(Initial, events).Some? && n < |events|
    ensures Exec(Initial, events[..n]).Some?
    ensures Enabled(Exec(Initial, events[..n]).value, events[n])
    decreases |events|
  {
    var init := events[..|events| - 1];
    assert Exec(Initial, init).Some?;
    if n < |init| {
      PrefixRuns(init, n);
      assert init[..n] == events[..n] && init[n] == events[n];
    }
  }

  /** In every run every thread takes its steps in the order of the code, and skips none. */
  lemma ProgramOrder(events: seq<Event>, n: nat)
    requires Exec(Initial, events).Some? && n < |events| && !events[n].Attach?
    ensures Follows(LastOf(events[..n], events[n].thread), events[n])
  {
    PrefixRuns(events, n);
    LastEventStands(events[..n], events[n].thread);
    StandsStep(Exec(Initial, events[..n]).value, events[n], events[n].thread, LastOf(events[..n], events[n].thread));
  }

  /** When a thread loaded the flag, if it did so after it last arrived. */
  function LoadedAt(events: seq<Event>, t: ThreadId): (k: Option<nat>)
    ensures k.Some? ==> k.value < |events| && events[k.value] == LoadPoison(t)
  {
    if events == [] then None
    else
      var n := |events| - 1;
      if events[n] == LoadPoison(t) then Some(n)
      else if events[n] == Arrive(t) then None
      else LoadedAt(events[..n], t)
  }

  /** A guard is held, or is being dropped. */
  predicate HasGuard(s: State, t: ThreadId) {
    At(s, t, Inside) || At(s, t, Poisoning) || At(s, t, Unlocking)
  }

  /** A thread gets its guard only after it loaded the flag, whether it had to wait or not. */
  lemma {:induction false} GuardLoaded(events: seq<Event>, t: ThreadId)
    requires Exec(Initial, events).Some? && HasGuard(Exec(Initial, events).value, t)
    ensures LoadedAt(events, t).Some?
    decreases |events|
  {
    var n := |events| - 1;
    if events[n] != LoadPoison(t) {
      GuardLoaded(events[..n], t);
    }
  }

  /**
    What came with a guard that is held: the flag that its thread found after it last arrived, which
    reported poison exactly when a guard had been dropped while panicking since the last attach, or
    such a drop was under way at that attach.
   */
  lemma GuardVerdict(events: seq<Event>, t: ThreadId)
    requires Exec(Initial, events).Some? && HasGuard(Exec(Initial, events).value, t)
    ensures LoadedAt(events, t).Some?
    ensures var before := events[..LoadedAt(events, t).value];
            && Exec(Initial, before).Some?
            && (Exec(Initial, before).value.poison <==> PanickedSinceAttach(before) || StoringAtAttach(Initial, before))
  {
    GuardLoaded(events, t);
    var k := LoadedAt(events, t).value;
    PrefixRuns(events, k);
    LockVerdict(events[..k], t);
  }

  // ---------- a race between an attach and a drop ----------

  lemma Extend(events: seq<Event>, e: Event)
    requires Exec(Initial, events).Some? && Enabled(Exec(Initial, events).value, e)
    ensures Exec(Initial, events + [e]) == Some(Apply(Exec(Initial, events).value, e))
    ensures PanickedSinceAttach(events + [e]) ==
            (!e.Attach? && ((e.Drop? && e.panicking) || PanickedSinceAttach(events)))
  {
    assert (events + [e])[..|events|] == events;
  }

  /** A thread panics inside the lock, and the memory is attached before the flag is stored. */
  lemma AttachRaceBegins()
    ensures Exec(Initial, [Arrive(0), LoadPoison(0), Drop(0, true), Attach]) ==
            Some(State(1, 0, false, false, map[0 := Poisoning]))
    ensures !PanickedSinceAttach([Arrive(0), LoadPoison(0), Drop(0, true), Attach])
  {
    Extend([], Arrive(0));
    Extend([] + [Arrive(0)], LoadPoison(0));
    Extend([] + [Arrive(0)] + [LoadPoison(0)], Drop(0, true));
    Extend([] + [Arrive(0)] + [LoadPoison(0)] + [Drop(0, true)], Attach);
    var events := [] + [Arrive(0)] + [LoadPoison(0)] + [Drop(0, true)] + [Attach];
    assert events == [Arrive(0), LoadPoison(0), Drop(0, true), Attach];
    assert Exec(Initial, events).value.threads == map[0 := Poisoning];
  }

  /** An attach that races with a panicking drop: the lock is poisoned by the older drop. */
  lemma AttachRace()
    ensures var events := [Arrive(0), LoadPoison(0), Drop(0, true), Attach, StorePoison(0), FetchSub(0), Arrive(1)];
            && Exec(Initial, events).Some?
            && Enabled(Exec(Initial, events).value, LoadPoison(1))
            && Exec(Initial, events).value.poison
            && !PanickedSinceAttach(events)
  {
    AttachRaceBegins();
    var begin := [Arrive(0), LoadPoison(0), Drop(0, true), Attach];
    Extend(begin, StorePoison(0));
    Extend(begin + [StorePoison(0)], FetchSub(0));
    Extend(begin + [StorePoison(0)] + [FetchSub(0)], Arrive(1));
    assert begin + [StorePoison(0)] + [FetchSub(0)] + [Arrive(1)] ==
           [Arrive(0), LoadPoison(0), Drop(0, true), Attach, StorePoison(0), FetchSub(0), Arrive(1)];
  }

  // ---------- the code, one atomic operation at a time ----------

  /**
    The mutex with its shared counter, semaphore and flag.  lock is FetchAdd, then Wait unless
    it owns the lock already, then LoadFlag; dropping a guard is BeginDrop, StoreFlag if
    panicking, FetchSub, and Release if others had queued up.
   */
  class Mutex {
    var count: Word
    var semaphore: nat
    var poison: bool
    ghost var threads: Threads

    ghost function Model(): State
      reads this
    {
      State(count, semaphore, poison, false, threads)
    }

    ghost predicate Valid()
      reads this
    {
      Inv(Model())
    }

    constructor NewWithMemory()
      ensures Valid() && Model() == Initial
    {
      count, semaphore, poison, threads := 0, 0, false, map[];
      new;
      InitialInv();
    }

    method FetchAdd(t: ThreadId) returns (owner: bool)
      requires Valid() && Enabled(Model(), Arrive(t))
      modifies this
      ensures Valid() && Model() == Apply(old(Model()), Arrive(t))
      ensures owner <==> old(count) == 0
      ensures count == old(count) + 1 && threads == old(threads)[t := if owner then Entering else Waiting]
    {
      StepKeepsInv(Model(), Arrive(t));
      CountFits(Model());
      var before: int := count;
      count := Wrap(before + 1);
      assert count == before + 1;
      threads := threads[t := if before == 0 then Entering else Waiting];
      match before {
        case 0 => return true;
        case _ => return false;
      }
    }

    /** Returns from WaitForSingleObject, which it does only when the semaphore is signalled. */
    method Wait(t: ThreadId)
      requires Valid() && Enabled(Model(), Acquire(t))
      modifies this
      ensures Valid() && Model() == Apply(old(Model()), Acquire(t))
      ensures old(semaphore) == 1 && semaphore == 0 && threads == old(threads)[t := Entering]
    {
      StepKeepsInv(Model(), Acquire(t));
      semaphore := semaphore - 1;
      threads := threads[t := Entering];
    }

    method LoadFlag(t: ThreadId) returns (poisoned: bool)
      requires Valid() && Enabled(Model(), LoadPoison(t))
      modifies this
      ensures Valid() && Model() == Apply(old(Model()), LoadPoison(t))
      ensures poisoned == old(poison) && threads == old(threads)[t := Inside]
    {
      StepKeepsInv(Model(), LoadPoison(t));
      threads := threads[t := Inside];
      return poison;
    }

    /** The drop of the outer guard begins; it runs before the drop of the inner one. */
    method BeginDrop(t: ThreadId, panicking: bool) returns (mustStore: bool)
      requires Valid() && Enabled(Model(), Drop(t, panicking))
      modifies this
      ensures Valid() && Model() == Apply(old(Model()), Drop(t, panicking))
      ensures mustStore == panicking
      ensures threads == old(threads)[t := if panicking then Poisoning else Unlocking]
    {
      StepKeepsInv(Model(), Drop(t, panicking));
      threads := threads[t := if panicking then Poisoning else Unlocking];
      return panicking;
    }

    method StoreFlag(t: ThreadId)
      requires Valid() && Enabled(Model(), StorePoison(t))
      modifies this
      ensures Valid() && Model() == Apply(old(Model()), StorePoison(t))
      ensures poison && threads == old(threads)[t := Unlocking]
    {
      StepKeepsInv(Model(), StorePoison(t));
      poison := true;
      threads := threads[t := Unlocking];
    }

    /** The branch for an invalid state is never taken. */
    method FetchSub(t: ThreadId) returns (mustRelease: bool)
      requires Valid() && Enabled(Model(), Event.FetchSub(t))
      modifies this
      ensures Valid() && Model() == Apply(old(Model()), Event.FetchSub(t))
      ensures mustRelease <==> old(count) > 1
      ensures count == old(count) - 1
      ensures threads == if mustRelease then old(threads)[t := Posting] else old(threads) - {t}
    {
      StepKeepsInv(Model(), Event.FetchSub(t));
      var before: int := count;
      count := Wrap(before - 1);
      match before {
        case 0 => assert false;
        case 1 =>
          threads := threads - {t};
          return false;
        case _ =>
          threads := threads[t := Posting];
          return true;
      }
    }

    /** Releasing the semaphore never fails, since its count is below the maximum of one. */
    method Release(t: ThreadId)
      requires Valid() && Enabled(Model(), Post(t))
      modifies this
      ensures Valid() && Model() == Apply(old(Model()), Post(t))
      ensures old(semaphore) == 0 && semaphore == 1 && threads == old(threads) - {t}
    {
      StepKeepsInv(Model(), Post(t));
      semaphore := semaphore + 1;
      threads := threads - {t};
    }
  }
}
