/**
  The shared-memory ring queue as a transition system.

  Any number of agents act on one control block and one array of slots.  An agent is one
  call of try_push or try_pop together with the guard the call may return.  Every atomic
  operation is a step of its own, so an agent acts on what it loaded earlier while others
  move on; a weak compare-exchange may fail although the value matched.  try_push and
  try_pop mirror each other, so one set of steps serves both roles; they differ in the
  test that clears an index (Clear), in the poison load that ends try_pop, and in what a
  guard may do with its slot.

  A run is a list of events, and the state a run ends in is a function of the events.
 */
module SharedQueue {
  import opened Words
  import opened Wrappers

  datatype Params = Params(itemSize: nat, itemCount: nat, maxAgents: nat)

  /** The bounds on sizes under which a run is considered. */
  predicate ValidParams(p: Params) {
    && 0 < p.itemSize
    && 0 < p.itemCount
    && p.itemCount + p.maxAgents < HALF
  }

  datatype Role = Send | Recv

  /** A pair of counters: the next index to hand out and the last index that is finished. */
  datatype Side = Side(next: Word, last: Word)

  datatype Stage =
    | Checking       // owns an index, is about to load the opposite counter
    | Blocked        // found the queue full (empty), is about to try to give the index back
    | LoadingPoison  // cleared by try_pop, is about to load the poison flag
    | Holding        // a guard on the slot is live
    | Poisoning      // the guard is dropped while panicking, is about to store the flag
    | Committing     // is about to try to move the last counter

  datatype Agent = Agent(role: Role, index: Word, stage: Stage)

  type AgentId = nat
  type Item = seq<Byte>

  datatype State = State(send: Side, recv: Side, poison: bool, slots: seq<Item>, agents: map<AgentId, Agent>) {

    function At(role: Role): Side {
      if role == Send then send else recv
    }

    function Set(role: Role, side: Side): State {
      if role == Send then this.(send := side) else this.(recv := side)
    }

    /** How many indices of a role are finished; the initial last counter stands for -1. */
    function Done(role: Role): Word {
      Wrap(At(role).last + 1)
    }

    function Move(a: AgentId, stage: Stage): State
      requires a in agents
    {
      this.(agents := agents[a := agents[a].(stage := stage)])
    }

    function Leave(a: AgentId): State {
      this.(agents := agents - {a})
    }

    /** The contents of the slot that index i refers to. */
    function Slot(i: Word): Item
      requires slots != []
    {
      slots[i % |slots|]
    }
  }

  datatype Event =
    | Claim(agent: AgentId, role: Role)
    | Check(agent: AgentId)
    | GiveBack(agent: AgentId, spurious: bool)
    | LoadPoison(agent: AgentId)
    | WriteByte(agent: AgentId, offset: nat, byte: Byte)
    | Drop(agent: AgentId, panicking: bool)
    | StorePoison(agent: AgentId)
    | Commit(agent: AgentId, spurious: bool)

  /** The state new_with_memory leaves behind; the slots keep whatever the memory held. */
  predicate Initial(p: Params, s: State) {
    && s.send == Side(0, MAX_WORD)
    && s.recv == Side(0, MAX_WORD)
    && !s.poison
    && s.agents == map[]
    && WellSized(p, s)
  }

  predicate WellSized(p: Params, s: State) {
    && |s.slots| == p.itemCount
    && forall k :: 0 <= k < |s.slots| ==> |s.slots[k]| == p.itemSize
  }

  /** The test of try_push on the loaded last_recvd_index, in the wrapping arithmetic of the code. */
  predicate SendClear(itemCount: nat, index: Word, lastRecvd: Word) {
    Signed(Wrap(index - Wrap(lastRecvd + 1))) < itemCount
  }

  /** The test of try_pop on the loaded last_sent_index. */
  predicate RecvClear(index: Word, lastSent: Word) {
    Signed(Wrap(lastSent - index)) >= 0
  }

  predicate Clear(p: Params, role: Role, index: Word, loaded: Word) {
    if role == Send then SendClear(p.itemCount, index, loaded) else RecvClear(index, loaded)
  }

  function Opposite(role: Role): Role {
    if role == Send then Recv else Send
  }

  /** The test of Clear on the counters of state s. */
  predicate IsClear(p: Params, s: State, a: AgentId)
    requires a in s.agents
  {
    Clear(p, s.agents[a].role, s.agents[a].index, s.At(Opposite(s.agents[a].role)).last)
  }

  /** Whether the give-back compare-exchange of agent a finds the value it expects. */
  predicate OnTop(s: State, a: AgentId)
    requires a in s.agents
  {
    s.At(s.agents[a].role).next == Wrap(s.agents[a].index + 1)
  }

  /** Whether the committing compare-exchange of agent a finds the value it expects. */
  predicate IsTurn(s: State, a: AgentId)
    requires a in s.agents
  {
    s.At(s.agents[a].role).last == Wrap(s.agents[a].index - 1)
  }

  predicate Enabled(p: Params, s: State, e: Event) {
    match e
    case Claim(a, role) => a !in s.agents && |s.agents| < p.maxAgents && s.At(role).next != MAX_WORD
    case Check(a) => a in s.agents && s.agents[a].stage == Checking
    case GiveBack(a, _) => a in s.agents && s.agents[a].stage == Blocked
    case LoadPoison(a) => a in s.agents && s.agents[a].stage == LoadingPoison
    case WriteByte(a, offset, _) =>
      a in s.agents && s.agents[a].stage == Holding && s.agents[a].role == Send && offset < p.itemSize
    case Drop(a, _) => a in s.agents && s.agents[a].stage == Holding
    case StorePoison(a) => a in s.agents && s.agents[a].stage == Poisoning
    case Commit(a, _) => a in s.agents && s.agents[a].stage == Committing
  }

  function Apply(p: Params, s: State, e: Event): State
    requires Enabled(p, s, e) && WellSized(p, s) && s.slots != []
  {
    match e
    case Claim(a, role) =>
      var side := s.At(role);
      s.Set(role, side.(next := Wrap(side.next + 1)))
       .(agents := s.agents[a := Agent(role, side.next, Checking)])
    case Check(a) =>
      s.Move(a, if !IsClear(p, s, a) then Blocked
                else if s.agents[a].role == Recv then LoadingPoison
                else Holding)
    case GiveBack(a, spurious) =>
      var me := s.agents[a];
      if !spurious && OnTop(s, a)
      then s.Set(me.role, s.At(me.role).(next := me.index)).Leave(a)
      else s.Move(a, Checking)
    case LoadPoison(a) => s.Move(a, Holding)
    case WriteByte(a, offset, byte) =>
      var k := s.agents[a].index % |s.slots|;
      var item: Item := s.slots[k][offset := byte];
      s.(slots := s.slots[k := item])
    case Drop(a, panicking) => s.Move(a, if panicking then Poisoning else Committing)
    case StorePoison(a) => s.(poison := true).Move(a, Committing)
    case Commit(a, spurious) =>
      var me := s.agents[a];
      if !spurious && IsTurn(s, a)
      then s.Set(me.role, s.At(me.role).(last := me.index)).Leave(a)
      else s
  }

  // ---------- runs ----------

  /** One more step, if the steps so far were possible and this one is. */
  function Then(p: Params, so: Option<State>, e: Event): (r: Option<State>)
    requires ValidParams(p) && (so.Some? ==> WellSized(p, so.value))
    ensures r.Some? ==> WellSized(p, r.value)
  {
    match so
    case None => None
    case Some(t) => if Enabled(p, t, e) then KeepsSizes(p, t, e); Some(Apply(p, t, e)) else None
  }

  /** The state that the events lead to from s, or None when one of them cannot happen. */
  function Exec(p: Params, s: State, events: seq<Event>): (r: Option<State>)
    requires ValidParams(p) && WellSized(p, s)
    ensures r.Some? ==> WellSized(p, r.value)
  {
    if events == [] then Some(s)
    else
      var n := |events| - 1;
      Then(p, Exec(p, s, events[..n]), events[n])
  }

  lemma KeepsSizes(p: Params, s: State, e: Event)
    requires ValidParams(p) && WellSized(p, s) && Enabled(p, s, e)
    ensures WellSized(p, Apply(p, s, e))
  {
  }

  /** Runs can be put one after the other. */
  lemma {:induction false} ExecConcat(p: Params, s: State, first: seq<Event>, t: State, second: seq<Event>)
    requires ValidParams(p) && WellSized(p, s) && WellSized(p, t)
    requires Exec(p, s, first) == Some(t)
    ensures Exec(p, s, first + second) == Exec(p, t, second)
    decreases |second|
  {
    if second == [] {
      assert first + second == first;
    } else {
      var init, last := second[..|second| - 1], second[|second| - 1];
      LastApart(first, second);
      ExecConcat(p, s, first, t, init);
      ExecOnto(p, s, first + init, last);
      ExecOnto(p, t, init, last);
    }
  }

  lemma LastApart<T>(a: seq<T>, b: seq<T>)
    requires b != []
    ensures var init, last := b[..|b| - 1], b[|b| - 1];
            b == init + [last] && a + b == (a + init) + [last]
  {
  }

  lemma ExecOnto(p: Params, s: State, events: seq<Event>, e: Event)
    requires ValidParams(p) && WellSized(p, s)
    ensures Exec(p, s, events + [e]) == Then(p, Exec(p, s, events), e)
  {
    assert (events + [e])[..|events|] == events;
  }

  // ---------- the invariant ----------

  /** Indices below the limit of a role may be granted: free slots for Send, full ones for Recv. */
  function Limit(p: Params, s: State, role: Role): int {
    if role == Send then s.Done(Recv) + p.itemCount else s.Done(Send)
  }

  predicate IsGranted(stage: Stage) {
    stage != Checking && stage != Blocked
  }

  type Agents = map<AgentId, Agent>

  predicate Owns(agents: Agents, a: AgentId, role: Role, i: int) {
    a in agents && agents[a].role == role && agents[a].index == i
  }

  ghost predicate HasOwner(agents: Agents, role: Role, i: int) {
    exists a: AgentId :: Owns(agents, a, role, i)
  }

  /** Every owned index of a role lies in [lo, hi). */
  ghost predicate InRange(agents: Agents, role: Role, lo: int, hi: int) {
    forall a: AgentId, i: int :: Owns(agents, a, role, i) ==> lo <= i < hi
  }

  /** No index of a role has two owners. */
  ghost predicate Distinct(agents: Agents, role: Role) {
    forall a: AgentId, b: AgentId, i: int :: Owns(agents, a, role, i) && Owns(agents, b, role, i) ==> a == b
  }

  /** Every index in [lo, hi) has an owner. */
  ghost predicate Covered(agents: Agents, role: Role, lo: int, hi: int) {
    forall i :: lo <= i < hi ==> HasOwner(agents, role, i)
  }

  /** Cleared indices of a role stay below the limit. */
  ghost predicate GrantedBelow(agents: Agents, role: Role, limit: int) {
    forall a: AgentId, i: int :: Owns(agents, a, role, i) && IsGranted(agents[a].stage) ==> i < limit
  }

  /** What concerns one role: the claimed, unfinished indices have one owner each. */
  ghost predicate SideInv(agents: Agents, role: Role, done: int, next: int, limit: int) {
    && done <= next
    && InRange(agents, role, done, next)
    && Distinct(agents, role)
    && Covered(agents, role, done, next)
    && GrantedBelow(agents, role, limit)
  }

  ghost predicate PoisonLoadedByRecv(agents: Agents) {
    forall a :: a in agents && agents[a].stage == LoadingPoison ==> agents[a].role == Recv
  }

  ghost predicate Inv(p: Params, s: State) {
    && ValidParams(p)
    && WellSized(p, s)
    && |s.agents| <= p.maxAgents
    && s.Done(Recv) <= s.Done(Send) <= s.Done(Recv) + p.itemCount
    && SideInv(s.agents, Send, s.Done(Send), s.send.next, Limit(p, s, Send))
    && SideInv(s.agents, Recv, s.Done(Recv), s.recv.next, Limit(p, s, Recv))
    && PoisonLoadedByRecv(s.agents)
  }

  lemma InitialInv(p: Params, s: State)
    requires ValidParams(p) && Initial(p, s)
    ensures Inv(p, s)
  {
  }

  /** The bounds on the index of one agent. */
  lemma IndexBounds(p: Params, s: State, a: AgentId)
    requires Inv(p, s) && a in s.agents
    ensures s.Done(s.agents[a].role) <= s.agents[a].index < s.At(s.agents[a].role).next
    ensures IsGranted(s.agents[a].stage) ==> s.agents[a].index < Limit(p, s, s.agents[a].role)
  {
    assert Owns(s.agents, a, s.agents[a].role, s.agents[a].index);
  }

  /** Owned indices cannot outnumber the agents. */
  lemma {:induction false} IntervalBound(agents: Agents, role: Role, lo: int, hi: int)
    requires lo <= hi && Covered(agents, role, lo, hi)
    ensures hi - lo <= |agents|
    decreases hi - lo
  {
    if lo < hi {
      assert HasOwner(agents, role, hi - 1);
      var a: AgentId :| Owns(agents, a, role, hi - 1);
      OthersStayCovered(agents, a, role, lo, hi - 1);
      IntervalBound(agents - {a}, role, lo, hi - 1);
      assert (agents - {a}).Keys == agents.Keys - {a};
    }
  }

  /** Removing an agent uncovers at most its own index. */
  lemma OthersStayCovered(agents: Agents, a: AgentId, role: Role, lo: int, hi: int)
    requires a in agents && Covered(agents, role, lo, hi)
    requires agents[a].role == role ==> !(lo <= agents[a].index < hi)
    ensures Covered(agents - {a}, role, lo, hi)
  {
    forall i | lo <= i < hi
      ensures HasOwner(agents - {a}, role, i)
    {
      assert HasOwner(agents, role, i);
      var b: AgentId :| Owns(agents, b, role, i);
      assert Owns(agents - {a}, b, role, i);
    }
  }

  /** How far the claimed indices of each role can run ahead. */
  lemma ClaimsBounded(p: Params, s: State)
    requires Inv(p, s)
    ensures s.At(Send).next - s.Done(Recv) <= p.itemCount + p.maxAgents
    ensures s.At(Recv).next - s.Done(Recv) <= p.maxAgents
  {
    IntervalBound(s.agents, Send, s.Done(Send), s.At(Send).next);
    IntervalBound(s.agents, Recv, s.Done(Recv), s.At(Recv).next);
  }

  /** The wrapping 64-bit tests decide the comparison they stand for. */
  lemma TestsExact(p: Params, s: State, a: AgentId)
    requires Inv(p, s) && a in s.agents
    ensures IsClear(p, s, a) <==> s.agents[a].index < Limit(p, s, s.agents[a].role)
    ensures OnTop(s, a) <==> s.agents[a].index == s.At(s.agents[a].role).next - 1
    ensures IsTurn(s, a) <==> s.agents[a].index == s.Done(s.agents[a].role)
  {
    ClaimsBounded(p, s);
    var me := s.agents[a];
    IndexBounds(p, s, a);
    if me.role == Send {
      SendTestExact(p, me.index, s.recv.last);
    } else {
      RecvTestExact(p, me.index, s.send.last);
    }
    NeighbourExact(me.index, s.At(me.role).next, s.At(me.role).last);
  }

  lemma SendTestExact(p: Params, index: Word, loaded: Word)
    requires p.itemCount < HALF
    requires -HALF <= index - Wrap(loaded + 1) < HALF
    ensures Clear(p, Send, index, loaded) <==> index - Wrap(loaded + 1) < p.itemCount
  {
    SignedWrap(index - Wrap(loaded + 1));
  }

  lemma RecvTestExact(p: Params, index: Word, loaded: Word)
    requires -HALF <= Wrap(loaded + 1) - 1 - index < HALF
    ensures Clear(p, Recv, index, loaded) <==> index < Wrap(loaded + 1)
  {
    var x := Wrap(loaded + 1) - 1 - index;
    assert Wrap(loaded - index) == Wrap(x);
    SignedWrap(x);
  }

  lemma NeighbourExact(index: Word, next: Word, last: Word)
    requires index < next
    ensures next == Wrap(index + 1) <==> index == next - 1
    ensures last == Wrap(index - 1) <==> index == Wrap(last + 1)
  {
  }
}
