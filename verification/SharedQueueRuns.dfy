/**
  What holds over whole runs of the shared queue: it refines a bounded first-in first-out
  queue, consumers see what producers committed, and poison is published in time.
 */
module SharedQueueRuns {
  import opened Words
  import opened Wrappers
  import opened SharedQueue
  import opened SharedQueueInvariant

  // ---------- refinement of a bounded FIFO ----------

  /** The step finishes an index of the given role: its compare-exchange succeeds. */
  predicate Finishes(s: State, e: Event, role: Role) {
    && e.Commit?
    && !e.spurious
    && e.agent in s.agents
    && s.agents[e.agent].role == role
    && IsTurn(s, e.agent)
  }

  /** The contents of the slots of the indices in [lo, hi). */
  function Window(slots: seq<Item>, lo: nat, hi: nat): seq<Item>
    requires slots != [] && lo <= hi
  {
    seq(hi - lo, j requires 0 <= j < hi - lo => slots[(lo + j) % |slots|])
  }

  /** The abstract queue: the slots that are committed and not yet consumed, oldest first. */
  function Pending(s: State): seq<Item>
    requires s.slots != [] && s.Done(Recv) <= s.Done(Send)
  {
    Window(s.slots, s.Done(Recv), s.Done(Send))
  }

  lemma WindowEnds(slots: seq<Item>, lo: nat, hi: nat)
    requires slots != [] && lo <= hi
    ensures Window(slots, lo, hi + 1) == Window(slots, lo, hi) + [slots[hi % |slots|]]
    ensures lo < hi ==> Window(slots, lo, hi) == [slots[lo % |slots|]] + Window(slots, lo + 1, hi)
  {
  }

  lemma WindowSame(slots: seq<Item>, slots': seq<Item>, lo: nat, hi: nat)
    requires slots != [] && |slots'| == |slots| && lo <= hi
    requires forall j: nat :: lo <= j < hi ==> slots'[j % |slots|] == slots[j % |slots|]
    ensures Window(slots', lo, hi) == Window(slots, lo, hi)
  {
    forall j | 0 <= j < hi - lo
      ensures Window(slots', lo, hi)[j] == Window(slots, lo, hi)[j]
    {
      assert slots'[(lo + j) % |slots|] == slots[(lo + j) % |slots|];
    }
  }

  /** Only a successful commit stores to the last counter of a role. */
  lemma LastAfter(p: Params, s: State, e: Event, role: Role)
    requires ValidParams(p) && WellSized(p, s) && Enabled(p, s, e)
    ensures Apply(p, s, e).At(role).last ==
            if Finishes(s, e, role) then s.agents[e.agent].index else s.At(role).last
  {
  }

  /** It finishes the lowest index that its role has not finished. */
  lemma DoneAfter(p: Params, s: State, e: Event, role: Role)
    requires Inv(p, s) && Enabled(p, s, e)
    ensures Apply(p, s, e).Done(role) == s.Done(role) + if Finishes(s, e, role) then 1 else 0
    ensures Finishes(s, e, role) ==> s.agents[e.agent].index == s.Done(role)
  {
    LastAfter(p, s, e, role);
    if Finishes(s, e, role) {
      TestsExact(p, s, e.agent);
      IndexBounds(p, s, e.agent);
    }
  }

  /** The slot a producer holds is not pending, so replacing it leaves the abstract queue as it was. */
  lemma HeldSlotNotPending(p: Params, s: State, a: AgentId, item: Item)
    requires Inv(p, s) && IsLive(s, a) && s.agents[a].role == Send
    ensures Window(s.slots[s.agents[a].index % p.itemCount := item], s.Done(Recv), s.Done(Send)) == Pending(s)
  {
    LiveWindow(p, s, a);
    var k := s.agents[a].index % p.itemCount;
    var slots := s.slots[k := item];
    forall j: nat | s.Done(Recv) <= j < s.Done(Send)
      ensures slots[j % |slots|] == s.slots[j % |s.slots|]
    {
      DistinctSlots(j, s.agents[a].index, p.itemCount);
    }
    WindowSame(s.slots, slots, s.Done(Recv), s.Done(Send));
  }

  /** A successful commit of a producer enqueues its slot. */
  lemma SendCommitEnqueues(p: Params, s: State, e: Event)
    requires Inv(p, s) && Enabled(p, s, e) && Finishes(s, e, Send)
    ensures Inv(p, Apply(p, s, e))
    ensures Pending(Apply(p, s, e)) == Pending(s) + [s.Slot(s.agents[e.agent].index)]
  {
    CommitKeepsInv(p, s, e.agent);
    DoneAfter(p, s, e, Send);
    DoneAfter(p, s, e, Recv);
    WindowEnds(s.slots, s.Done(Recv), s.Done(Send));
  }

  /** A successful commit of a consumer dequeues its slot. */
  lemma RecvCommitDequeues(p: Params, s: State, e: Event)
    requires Inv(p, s) && Enabled(p, s, e) && Finishes(s, e, Recv)
    ensures Inv(p, Apply(p, s, e))
    ensures Pending(s) == [s.Slot(s.agents[e.agent].index)] + Pending(Apply(p, s, e))
  {
    CommitKeepsInv(p, s, e.agent);
    DoneAfter(p, s, e, Send);
    DoneAfter(p, s, e, Recv);
    LiveWindow(p, s, e.agent);
    WindowEnds(s.slots, s.Done(Recv), s.Done(Send));
  }

  /** Every other step is invisible. */
  lemma OtherStepsInvisible(p: Params, s: State, e: Event)
    requires Inv(p, s) && Enabled(p, s, e) && !Finishes(s, e, Send) && !Finishes(s, e, Recv)
    ensures Apply(p, s, e).Done(Recv) == s.Done(Recv) && Apply(p, s, e).Done(Send) == s.Done(Send)
    ensures Pending(Apply(p, s, e)) == Pending(s)
  {
    DoneAfter(p, s, e, Send);
    DoneAfter(p, s, e, Recv);
    if e.WriteByte? {
      HeldSlotNotPending(p, s, e.agent, Apply(p, s, e).Slot(s.agents[e.agent].index));
    } else {
      assert Apply(p, s, e).slots == s.slots;
    }
  }

  /** Every step is invisible, an enqueue at the tail, or a dequeue at the head. */
  lemma StepRefinesFifo(p: Params, s: State, e: Event)
    requires Inv(p, s) && Enabled(p, s, e)
    ensures Inv(p, Apply(p, s, e))
    ensures |Pending(Apply(p, s, e))| <= p.itemCount
    ensures Finishes(s, e, Send) ==> Pending(Apply(p, s, e)) == Pending(s) + [s.Slot(s.agents[e.agent].index)]
    ensures Finishes(s, e, Recv) ==> Pending(s) == [s.Slot(s.agents[e.agent].index)] + Pending(Apply(p, s, e))
    ensures !Finishes(s, e, Send) && !Finishes(s, e, Recv) ==> Pending(Apply(p, s, e)) == Pending(s)
  {
    StepKeepsInv(p, s, e);
    if Finishes(s, e, Send) {
      SendCommitEnqueues(p, s, e);
    } else if Finishes(s, e, Recv) {
      RecvCommitDequeues(p, s, e);
    } else {
      OtherStepsInvisible(p, s, e);
    }
  }

  /** The item, if any, that a step finishes for a role. */
  function FinishedBy(s: State, e: Event, role: Role): seq<Item>
    requires s.slots != []
  {
    if Finishes(s, e, role) then [s.Slot(s.agents[e.agent].index)] else []
  }

  /** The contents of the slots at the moments their indices were finished, in order. */
  function Finished(p: Params, s: State, events: seq<Event>, role: Role): seq<Item>
    requires ValidParams(p) && WellSized(p, s) && Exec(p, s, events).Some?
  {
    if events == [] then []
    else
      var n := |events| - 1;
      var t := Exec(p, s, events[..n]).value;
      Finished(p, s, events[..n], role) + FinishedBy(t, events[n], role)
  }

  /**
    First in, first out, exactly once, nothing lost: over any run, what was pending followed by
    what was enqueued is what was dequeued followed by what is pending now.
   */
  lemma {:induction false} RunRefinesFifo(p: Params, s: State, events: seq<Event>)
    requires Inv(p, s) && Exec(p, s, events).Some?
    ensures Inv(p, Exec(p, s, events).value)
    ensures Pending(s) + Finished(p, s, events, Send) ==
            Finished(p, s, events, Recv) + Pending(Exec(p, s, events).value)
    decreases |events|
  {
    if events == [] {
    } else {
      var n := |events| - 1;
      RunRefinesFifo(p, s, events[..n]);
      FifoStep(p, Exec(p, s, events[..n]).value, events[n],
               Pending(s) + Finished(p, s, events[..n], Send), Finished(p, s, events[..n], Recv));
      assert Pending(s) + Finished(p, s, events, Send) ==
             (Pending(s) + Finished(p, s, events[..n], Send))
             + FinishedBy(Exec(p, s, events[..n]).value, events[n], Send);
    }
  }

  lemma FifoStep(p: Params, s: State, e: Event, entered: seq<Item>, left: seq<Item>)
    requires Inv(p, s) && Enabled(p, s, e)
    requires entered == left + Pending(s)
    ensures Inv(p, Apply(p, s, e))
    ensures entered + FinishedBy(s, e, Send) == left + FinishedBy(s, e, Recv) + Pending(Apply(p, s, e))
  {
    StepRefinesFifo(p, s, e);
    var after := Pending(Apply(p, s, e));
    if Finishes(s, e, Send) {
      assert left + (Pending(s) + FinishedBy(s, e, Send)) == left + after;
    } else if Finishes(s, e, Recv) {
      assert left + (FinishedBy(s, e, Recv) + after) == left + Pending(s);
    }
  }

  /** How many items each side has finished is what its last counter says. */
  lemma {:induction false} FinishedCounts(p: Params, s: State, events: seq<Event>, role: Role)
    requires Inv(p, s) && Exec(p, s, events).Some?
    ensures Inv(p, Exec(p, s, events).value)
    ensures |Finished(p, s, events, role)| == Exec(p, s, events).value.Done(role) - s.Done(role)
    decreases |events|
  {
    if events != [] {
      var n := |events| - 1;
      FinishedCounts(p, s, events[..n], role);
      DoneAfter(p, Exec(p, s, events[..n]).value, events[n], role);
      StepKeepsInv(p, Exec(p, s, events[..n]).value, events[n]);
    }
  }

  /** From the initial state: what came out is a prefix of what went in, itemCount items behind at most. */
  lemma FifoFromStart(p: Params, s: State, events: seq<Event>)
    requires ValidParams(p) && Initial(p, s)
    requires Exec(p, s, events).Some?
    ensures Finished(p, s, events, Recv) <= Finished(p, s, events, Send)
    ensures |Finished(p, s, events, Send)| <= |Finished(p, s, events, Recv)| + p.itemCount
  {
    InitialInv(p, s);
    RunRefinesFifo(p, s, events);
    assert Pending(s) + Finished(p, s, events, Send) == Finished(p, s, events, Send);
  }

  /**
    A consumer that was cleared for index k sees the item that the producer of index k
    committed, at every point until it gives the slot up.
   */
  lemma ConsumerSeesCommitted(p: Params, s: State, events: seq<Event>, a: AgentId)
    requires ValidParams(p) && Initial(p, s)
    requires Exec(p, s, events).Some?
    requires IsLive(Exec(p, s, events).value, a) && Exec(p, s, events).value.agents[a].role == Recv
    ensures var t := Exec(p, s, events).value;
            var k := t.agents[a].index;
            k < |Finished(p, s, events, Send)| && t.Slot(k) == Finished(p, s, events, Send)[k]
  {
    InitialInv(p, s);
    RunRefinesFifo(p, s, events);
    FinishedCounts(p, s, events, Recv);
    var t := Exec(p, s, events).value;
    LiveWindow(p, t, a);
    PendingAt(Finished(p, s, events, Recv), t, t.agents[a].index);
    assert Pending(s) + Finished(p, s, events, Send) == Finished(p, s, events, Send);
  }

  lemma PendingAt(left: seq<Item>, t: State, k: Word)
    requires t.slots != [] && |left| == t.Done(Recv) <= k < t.Done(Send)
    ensures (left + Pending(t))[k] == t.Slot(k)
  {
  }

  // ---------- what a guard holds ----------

  /** The guard of agent a is live throughout the run. */
  predicate StaysLive(p: Params, s: State, events: seq<Event>, a: AgentId)
    requires ValidParams(p) && WellSized(p, s) && Exec(p, s, events).Some?
  {
    && IsLive(Exec(p, s, events).value, a)
    && (events == [] || StaysLive(p, s, events[..|events| - 1], a))
  }

  /** An item after the writes of one agent among the events. */
  function WrittenBy(item: Item, events: seq<Event>, a: AgentId): Item {
    if events == [] then item
    else
      var before := WrittenBy(item, events[..|events| - 1], a);
      match events[|events| - 1]
      case WriteByte(b, offset, byte) => if b == a && offset < |before| then before[offset := byte] else before
      case _ => before
  }

  /** A step changes the slot of a live guard only by a write of its own agent. */
  lemma HeldSlotAfter(p: Params, s: State, e: Event, a: AgentId)
    requires Inv(p, s) && Enabled(p, s, e)
    requires IsLive(s, a) && IsLive(Apply(p, s, e), a)
    ensures Apply(p, s, e).agents[a].index == s.agents[a].index
    ensures Apply(p, s, e).Slot(s.agents[a].index) == WrittenBy(s.Slot(s.agents[a].index), [e], a)
  {
    assert [e][..0] == [];
    if e.WriteByte? && e.agent != a {
      SlotExclusion(p, s, a, e.agent);
    }
  }

  /** While a guard is live its slot holds what it held at first, changed by its own writes only. */
  lemma {:induction false} GuardOwnsSlot(p: Params, s: State, events: seq<Event>, a: AgentId)
    requires Inv(p, s) && Exec(p, s, events).Some? && StaysLive(p, s, events, a)
    ensures IsLive(s, a)
    ensures var t := Exec(p, s, events).value;
            && t.agents[a].index == s.agents[a].index
            && t.Slot(t.agents[a].index) == WrittenBy(s.Slot(s.agents[a].index), events, a)
    decreases |events|
  {
    if events != [] {
      var n := |events| - 1;
      GuardOwnsSlot(p, s, events[..n], a);
      RunKeepsInv(p, s, events[..n]);
      HeldSlotAfter(p, Exec(p, s, events[..n]).value, events[n], a);
      assert [events[n]][..0] == [];
    }
  }

  // ---------- poison ----------

  /** The indices of a role whose guards were dropped while panicking. */
  function Panicked(p: Params, s: State, events: seq<Event>, role: Role): set<Word>
    requires ValidParams(p) && WellSized(p, s) && Exec(p, s, events).Some?
  {
    if events == [] then {}
    else
      var n := |events| - 1;
      var t := Exec(p, s, events[..n]).value;
      var e := events[n];
      Panicked(p, s, events[..n], role) +
      if e.Drop? && e.panicking && t.agents[e.agent].role == role then {t.agents[e.agent].index} else {}
  }

  ghost predicate StoringPoison(s: State, role: Role, i: int) {
    exists a: AgentId :: Owns(s.agents, a, role, i) && s.agents[a].stage == Poisoning
  }

  /** Once set, the flag stays set. */
  lemma {:induction false} PoisonSticks(p: Params, s: State, events: seq<Event>)
    requires ValidParams(p) && WellSized(p, s)
    requires Exec(p, s, events).Some? && s.poison
    ensures Exec(p, s, events).value.poison
    decreases |events|
  {
    if events != [] {
      var n := |events| - 1;
      PoisonSticks(p, s, events[..n]);
      StepKeepsPoison(p, Exec(p, s, events[..n]).value, events[n]);
    }
  }

  lemma StepKeepsPoison(p: Params, s: State, e: Event)
    requires ValidParams(p) && WellSized(p, s) && Enabled(p, s, e)
    ensures Apply(p, s, e).poison == (s.poison || e.StorePoison?)
  {
  }

  /** A store that is due stays due until the flag is set. */
  lemma StoringStays(p: Params, s: State, e: Event, role: Role, i: int)
    requires ValidParams(p) && WellSized(p, s) && Enabled(p, s, e)
    requires StoringPoison(s, role, i)
    ensures Apply(p, s, e).poison || StoringPoison(Apply(p, s, e), role, i)
  {
    var a: AgentId :| Owns(s.agents, a, role, i) && s.agents[a].stage == Poisoning;
    var t := Apply(p, s, e);
    if !t.poison {
      assert Owns(t.agents, a, role, i) && t.agents[a].stage == Poisoning;
    }
  }

  /** A panicking drop has set the flag, or is still about to and has not committed. */
  lemma {:induction false} PanicsPublished(p: Params, s: State, events: seq<Event>, role: Role, i: Word)
    requires ValidParams(p) && Initial(p, s)
    requires Exec(p, s, events).Some?
    requires i in Panicked(p, s, events, role)
    ensures Exec(p, s, events).value.poison || StoringPoison(Exec(p, s, events).value, role, i)
    decreases |events|
  {
    var n := |events| - 1;
    var t := Exec(p, s, events[..n]).value;
    var e := events[n];
    if i in Panicked(p, s, events[..n], role) {
      PanicsPublished(p, s, events[..n], role, i);
      StepKeepsPoison(p, t, e);
      if !t.poison {
        StoringStays(p, t, e, role, i);
      }
    } else {
      var u := Apply(p, t, e);
      assert Owns(u.agents, e.agent, role, i) && u.agents[e.agent].stage == Poisoning;
    }
  }

  /** The flag is set only when some guard was dropped while panicking. */
  lemma {:induction false} PoisonHasCause(p: Params, s: State, events: seq<Event>)
    requires ValidParams(p) && Initial(p, s)
    requires Exec(p, s, events).Some?
    ensures var t := Exec(p, s, events).value;
            t.poison || (exists a :: a in t.agents && t.agents[a].stage == Poisoning) ==>
              Panicked(p, s, events, Send) + Panicked(p, s, events, Recv) != {}
    decreases |events|
  {
    if events != [] {
      var n := |events| - 1;
      PoisonHasCause(p, s, events[..n]);
      var t := Exec(p, s, events[..n]).value;
      var e := events[n];
      if e.Drop? && e.panicking {
        assert t.agents[e.agent].index in Panicked(p, s, events, t.agents[e.agent].role);
      }
    }
  }

  /**
    If try_pop returns Ok with the guard of index k, every producer up to k dropped its guard
    without panicking; if it returns a poison error, some guard was dropped while panicking.
   */
  lemma PoisonVerdict(p: Params, s: State, events: seq<Event>, a: AgentId)
    requires ValidParams(p) && Initial(p, s)
    requires Exec(p, s, events).Some?
    requires Enabled(p, Exec(p, s, events).value, LoadPoison(a))
    ensures var t := Exec(p, s, events).value;
            if t.poison then Panicked(p, s, events, Send) + Panicked(p, s, events, Recv) != {}
            else forall i: Word :: i <= t.agents[a].index ==> i !in Panicked(p, s, events, Send)
  {
    var t := Exec(p, s, events).value;
    if t.poison {
      PoisonHasCause(p, s, events);
    } else {
      InitialInv(p, s);
      RunKeepsInv(p, s, events);
      IndexBounds(p, t, a);
      forall i: Word | i <= t.agents[a].index && i in Panicked(p, s, events, Send)
        ensures false
      {
        PanicsPublished(p, s, events, Send, i);
      }
    }
  }

  // ---------- what an agent did before ----------

  /** The last event of an agent in a run. */
  function LastOf(events: seq<Event>, a: AgentId): Option<Event> {
    if events == [] then None
    else
      var n := |events| - 1;
      if events[n].agent == a then Some(events[n]) else LastOf(events[..n], a)
  }

  /** The order in which a call of this role and the drop of its guard go through their steps. */
  predicate Follows(before: Option<Event>, role: Role, e: Event) {
    match e
    case Claim(_, _) => before.None? || before.value.GiveBack? || before.value.Commit?
    case Check(_) => before.Some? && (before.value.Claim? || before.value.GiveBack?)
    case GiveBack(_, _) => before.Some? && before.value.Check?
    case LoadPoison(_) => before.Some? && before.value.Check? && role == Recv
    case WriteByte(_, _, _) => before.Some? && (before.value.Check? || before.value.WriteByte?) && role == Send
    case Drop(_, _) =>
      before.Some? && if role == Recv then before.value.LoadPoison? else before.value.Check? || before.value.WriteByte?
    case StorePoison(_) => before.Some? && before.value.Drop? && before.value.panicking
    case Commit(_, _) =>
      && before.Some?
      && (before.value.Commit? || before.value.StorePoison? || (before.value.Drop? && !before.value.panicking))
  }

  predicate IsAt(s: State, a: AgentId, stage: Stage) {
    a in s.agents && s.agents[a].stage == stage
  }

  /** Where an agent stands after its last event. */
  predicate StandsAfter(s: State, a: AgentId, last: Option<Event>) {
    match last
    case None => a !in s.agents
    case Some(Claim(_, _)) => IsAt(s, a, Checking)
    case Some(Check(_)) =>
      IsAt(s, a, Blocked) || (a in s.agents && IsAt(s, a, if s.agents[a].role == Recv then LoadingPoison else Holding))
    case Some(GiveBack(_, _)) => a !in s.agents || IsAt(s, a, Checking)
    case Some(LoadPoison(_)) => IsAt(s, a, Holding) && s.agents[a].role == Recv
    case Some(WriteByte(_, _, _)) => IsAt(s, a, Holding) && s.agents[a].role == Send
    case Some(Drop(_, panicking)) => IsAt(s, a, if panicking then Poisoning else Committing)
    case Some(StorePoison(_)) => IsAt(s, a, Committing)
    case Some(Commit(_, _)) => a !in s.agents || IsAt(s, a, Committing)
  }

  lemma StandsStep(p: Params, s: State, e: Event, a: AgentId, last: Option<Event>)
    requires Inv(p, s) && Enabled(p, s, e) && StandsAfter(s, a, last)
    ensures e.agent == a ==> Follows(last, if a in s.agents then s.agents[a].role else Send, e)
    ensures StandsAfter(Apply(p, s, e), a, if e.agent == a then Some(e) else last)
  {
  }

  lemma {:induction false} LastEventStands(p: Params, s: State, events: seq<Event>, a: AgentId)
    requires ValidParams(p) && Initial(p, s) && Exec(p, s, events).Some?
    ensures Inv(p, Exec(p, s, events).value)
    ensures StandsAfter(Exec(p, s, events).value, a, LastOf(events, a))
    decreases |events|
  {
    InitialInv(p, s);
    if events != [] {
      var n := |events| - 1;
      LastEventStands(p, s, events[..n], a);
      StandsStep(p, Exec(p, s, events[..n]).value, events[n], a, LastOf(events[..n], a));
      StepKeepsInv(p, Exec(p, s, events[..n]).value, events[n]);
    }
  }

  lemma {:induction false} PrefixRuns(p: Params, s: State, events: seq<Event>, n: nat)
    requires ValidParams(p) && WellSized(p, s) && Exec(p, s, events).Some? && n < |events|
    ensures Exec(p, s, events[..n]).Some?
    ensures Enabled(p, Exec(p, s, events[..n]).value, events[n])
    decreases |events|
  {
    var init := events[..|events| - 1];
    assert Exec(p, s, init).Some?;
    if n < |init| {
      PrefixRuns(p, s, init, n);
      assert init[..n] == events[..n] && init[n] == events[n];
    }
  }

  /** In every run every agent takes its steps in the order of the code, and skips none. */
  lemma ProgramOrder(p: Params, s: State, events: seq<Event>, n: nat)
    requires ValidParams(p) && Initial(p, s) && Exec(p, s, events).Some? && n < |events|
    ensures Exec(p, s, events[..n]).Some?
    ensures var t, a := Exec(p, s, events[..n]).value, events[n].agent;
            Follows(LastOf(events[..n], a), if a in t.agents then t.agents[a].role else Send, events[n])
  {
    PrefixRuns(p, s, events, n);
    LastEventStands(p, s, events[..n], events[n].agent);
    StandsStep(p, Exec(p, s, events[..n]).value, events[n], events[n].agent, LastOf(events[..n], events[n].agent));
  }

  /** When an agent loaded the flag in the call it is in, if it did so. */
  function LoadedAt(events: seq<Event>, a: AgentId): (k: Option<nat>)
    ensures k.Some? ==> k.value < |events| && events[k.value] == LoadPoison(a)
  {
    if events == [] then None
    else
      var n := |events| - 1;
      if events[n] == LoadPoison(a) then Some(n)
      else if events[n].Claim? && events[n].agent == a then None
      else LoadedAt(events[..n], a)
  }

  /** A consumer that is past the poison load. */
  predicate HasPopGuard(s: State, a: AgentId) {
    a in s.agents && s.agents[a].role == Recv && IsGranted(s.agents[a].stage) && s.agents[a].stage != LoadingPoison
  }

  lemma PopGuardStep(p: Params, s: State, e: Event, a: AgentId)
    requires Inv(p, s) && Enabled(p, s, e) && HasPopGuard(Apply(p, s, e), a)
    ensures e == LoadPoison(a) || (HasPopGuard(s, a) && !(e.Claim? && e.agent == a))
    ensures a in s.agents && s.agents[a].index == Apply(p, s, e).agents[a].index
  {
  }

  lemma {:induction false} GuardLoaded(p: Params, s: State, events: seq<Event>, a: AgentId)
    requires ValidParams(p) && Initial(p, s) && Exec(p, s, events).Some?
    requires HasPopGuard(Exec(p, s, events).value, a)
    ensures LoadedAt(events, a).Some?
    ensures var k := LoadedAt(events, a).value;
            && Exec(p, s, events[..k]).Some?
            && Enabled(p, Exec(p, s, events[..k]).value, LoadPoison(a))
            && Exec(p, s, events[..k]).value.agents[a].index == Exec(p, s, events).value.agents[a].index
    decreases |events|
  {
    InitialInv(p, s);
    var n := |events| - 1;
    RunKeepsInv(p, s, events[..n]);
    PopGuardStep(p, Exec(p, s, events[..n]).value, events[n], a);
    if events[n] != LoadPoison(a) {
      GuardLoaded(p, s, events[..n], a);
      assert events[..n][..LoadedAt(events, a).value] == events[..LoadedAt(events, a).value];
    }
  }

  /**
    What came with a pop guard that is held: the flag as its call found it.  Unset, every producer
    up to the guard's index had dropped its guard without panicking.
   */
  lemma GuardVerdict(p: Params, s: State, events: seq<Event>, a: AgentId)
    requires ValidParams(p) && Initial(p, s) && Exec(p, s, events).Some?
    requires HasPopGuard(Exec(p, s, events).value, a)
    ensures LoadedAt(events, a).Some?
    ensures var before := events[..LoadedAt(events, a).value];
            && Exec(p, s, before).Some?
            && if Exec(p, s, before).value.poison
               then Panicked(p, s, before, Send) + Panicked(p, s, before, Recv) != {}
               else forall i: Word :: i <= Exec(p, s, events).value.agents[a].index ==>
                      i !in Panicked(p, s, before, Send)
  {
    GuardLoaded(p, s, events, a);
    PoisonVerdict(p, s, events[..LoadedAt(events, a).value], a);
  }
}
