/**
  Progress of the shared queue under strong compare-exchange, however the steps interleave.
  A round is a stretch of a run in which every agent present takes two steps, or only those
  whose call has not returned a guard yet, while guards may be kept.  Newcomers can make a
  round go by without progress, so what is proved is a bound: the rounds with such agents about
  number at most twice the effective steps and a constant, and at most six times the calls that
  end and a constant.  Once no new call begins, every round makes progress.
 */
module SharedQueueProgress {
  import opened Words
  import opened Wrappers
  import opened Sums
  import opened SharedQueue
  import opened SharedQueueInvariant

  /** The step gets its agent closer to leaving; all other steps but writes are retries. */
  predicate Effective(p: Params, s: State, e: Event)
    requires Enabled(p, s, e)
  {
    match e
    case Claim(_, _) => false
    case Check(a) => IsClear(p, s, a)
    case GiveBack(a, spurious) => !spurious && OnTop(s, a)
    case LoadPoison(_) => true
    case WriteByte(_, _, _) => false
    case Drop(_, _) => true
    case StorePoison(_) => true
    case Commit(a, spurious) => !spurious && IsTurn(s, a)
  }

  /** How many effective steps an agent in this stage can still take. */
  function Weight(stage: Stage): nat {
    match stage
    case Checking => 5
    case Blocked => 5
    case LoadingPoison => 4
    case Holding => 3
    case Poisoning => 2
    case Committing => 1
  }

  function Weights(agents: Agents): map<AgentId, nat> {
    map a | a in agents :: Weight(agents[a].stage)
  }

  ghost function Work(s: State): nat {
    Sum(Weights(s.agents))
  }

  /** The number of effective steps in a run. */
  function Count(p: Params, s: State, events: seq<Event>): nat
    requires ValidParams(p) && WellSized(p, s) && Exec(p, s, events).Some?
  {
    if events == [] then 0
    else
      var n := |events| - 1;
      Count(p, s, events[..n]) + if Effective(p, Exec(p, s, events[..n]).value, events[n]) then 1 else 0
  }

  lemma MoveWork(s: State, a: AgentId, stage: Stage)
    requires a in s.agents
    ensures Work(s.Move(a, stage)) + Weight(s.agents[a].stage) == Work(s) + Weight(stage)
  {
    SumUpdate(Weights(s.agents), a, Weight(stage));
    assert Weights(s.Move(a, stage).agents) == Weights(s.agents)[a := Weight(stage)];
  }

  lemma LeaveWork(s: State, a: AgentId)
    requires a in s.agents
    ensures Work(s.Leave(a)) + Weight(s.agents[a].stage) == Work(s)
  {
    SumRemove(Weights(s.agents), a);
    assert Weights(s.Leave(a).agents) == Weights(s.agents) - {a};
  }

  lemma ClaimWork(s: State, t: State, a: AgentId, me: Agent)
    requires a !in s.agents && me.stage == Checking && t.agents == s.agents[a := me]
    ensures Work(t) == Work(s) + 5
  {
    SumRemove(Weights(t.agents), a);
    assert Weights(t.agents) - {a} == Weights(s.agents);
  }

  /** Claims bring work, effective steps use it up, and other steps leave it as it is. */
  lemma StepWork(p: Params, s: State, e: Event)
    requires ValidParams(p) && WellSized(p, s) && Enabled(p, s, e)
    ensures Effective(p, s, e) ==> Work(Apply(p, s, e)) < Work(s)
    ensures !Effective(p, s, e) ==> Work(Apply(p, s, e)) == Work(s) + if e.Claim? then 5 else 0
  {
    var a := e.agent;
    var t := Apply(p, s, e);
    if e.Claim? {
      ClaimWork(s, t, a, t.agents[a]);
    } else if a in t.agents {
      MoveWork(s, a, t.agents[a].stage);
      assert t.agents == s.Move(a, t.agents[a].stage).agents;
    } else {
      LeaveWork(s, a);
      assert t.agents == s.Leave(a).agents;
    }
  }

  function ClaimsIn(e: Event, role: Role): nat {
    if e.Claim? && e.role == role then 1 else 0
  }

  /** The number of calls of a role that begin in a run. */
  function ClaimsOf(events: seq<Event>, role: Role): nat {
    if events == [] then 0
    else ClaimsOf(events[..|events| - 1], role) + ClaimsIn(events[|events| - 1], role)
  }

  /** The number of calls that begin in a run. */
  function Claims(events: seq<Event>): nat {
    ClaimsOf(events, Send) + ClaimsOf(events, Recv)
  }

  predicate NoClaims(events: seq<Event>) {
    forall i :: 0 <= i < |events| ==> !events[i].Claim?
  }

  lemma {:induction false} NoClaimsNone(events: seq<Event>)
    requires NoClaims(events)
    ensures Claims(events) == 0
    decreases |events|
  {
    if events != [] {
      NoClaimsNone(events[..|events| - 1]);
    }
  }

  /** The step ends its agent's call: the index is given back or committed. */
  predicate Ends(p: Params, s: State, e: Event)
    requires ValidParams(p) && WellSized(p, s) && Enabled(p, s, e)
  {
    e.agent !in Apply(p, s, e).agents
  }

  /** The number of calls that end in a run, refused or with their guard committed. */
  function Ended(p: Params, s: State, events: seq<Event>): nat
    requires ValidParams(p) && WellSized(p, s) && Exec(p, s, events).Some?
  {
    if events == [] then 0
    else
      var n := |events| - 1;
      Ended(p, s, events[..n]) + if Ends(p, Exec(p, s, events[..n]).value, events[n]) then 1 else 0
  }

  /** Every call brings five effective steps at most, so without new calls they run out. */
  lemma {:induction false} EffectiveStepsBounded(p: Params, s: State, events: seq<Event>)
    requires ValidParams(p) && WellSized(p, s) && Exec(p, s, events).Some?
    ensures Count(p, s, events) + Work(Exec(p, s, events).value) <= Work(s) + 5 * Claims(events)
    ensures |s.agents| <= Work(s) <= 5 * |s.agents|
    decreases |events|
  {
    SumBounds(Weights(s.agents), 1, 5);
    assert Weights(s.agents).Keys == s.agents.Keys;
    if events != [] {
      var n := |events| - 1;
      EffectiveStepsBounded(p, s, events[..n]);
      StepWork(p, Exec(p, s, events[..n]).value, events[n]);
    }
  }

  /** What a step does to the agents about. */
  lemma AgentsAfter(p: Params, s: State, e: Event)
    requires ValidParams(p) && WellSized(p, s) && Enabled(p, s, e)
    ensures Ends(p, s, e) ==> Effective(p, s, e) && !e.Claim? && Apply(p, s, e).agents == s.agents - {e.agent}
    ensures e.Claim? ==> e.agent !in s.agents
    ensures !Ends(p, s, e) ==>
              var agents := Apply(p, s, e).agents; agents == s.agents[e.agent := agents[e.agent]]
  {
    var agents := Apply(p, s, e).agents;
    if e.WriteByte? {
      assert agents == s.agents;
    }
  }

  lemma StepAgents(p: Params, s: State, e: Event)
    requires ValidParams(p) && WellSized(p, s) && Enabled(p, s, e)
    ensures Ends(p, s, e) ==> Effective(p, s, e)
    ensures |Apply(p, s, e).agents| + (if Ends(p, s, e) then 1 else 0) ==
            |s.agents| + ClaimsIn(e, Send) + ClaimsIn(e, Recv)
  {
    AgentsAfter(p, s, e);
    var agents := Apply(p, s, e).agents;
    if Ends(p, s, e) {
      AgentLeaves(s.agents, agents, e.agent);
    } else if e.Claim? {
      AgentJoins(s.agents, agents, e.agent);
    } else {
      AgentStays(s.agents, agents, e.agent);
    }
  }

  lemma AgentStays(before: Agents, after: Agents, a: AgentId)
    requires a in before && a in after && after == before[a := after[a]]
    ensures |after| == |before|
  {
    assert after.Keys == before.Keys;
    assert |after.Keys| == |after| && |before.Keys| == |before|;
  }

  lemma AgentLeaves(before: Agents, after: Agents, a: AgentId)
    requires a in before && after == before - {a}
    ensures |after| == |before| - 1
  {
    assert after.Keys == before.Keys - {a};
    assert |after.Keys| == |after| && |before.Keys| == |before|;
  }

  lemma AgentJoins(before: Agents, after: Agents, a: AgentId)
    requires a !in before && a in after && after == before[a := after[a]]
    ensures |after| == |before| + 1
  {
    assert after.Keys == before.Keys + {a};
    assert |after.Keys| == |after| && |before.Keys| == |before|;
  }

  /** Calls begun and not ended are the agents about, and a call ends by an effective step. */
  lemma {:induction false} AgentsBalance(p: Params, s: State, events: seq<Event>)
    requires ValidParams(p) && WellSized(p, s) && Exec(p, s, events).Some?
    ensures |Exec(p, s, events).value.agents| + Ended(p, s, events) == |s.agents| + Claims(events)
    ensures Ended(p, s, events) <= Count(p, s, events)
    decreases |events|
  {
    if events != [] {
      var n := |events| - 1;
      AgentsBalance(p, s, events[..n]);
      StepAgents(p, Exec(p, s, events[..n]).value, events[n]);
    }
  }

  lemma WorkZero(s: State)
    ensures Work(s) == 0 <==> s.agents == map[]
  {
    SumBounds(Weights(s.agents), 1, 5);
    assert Weights(s.agents).Keys == s.agents.Keys;
  }

  // ---------- who can always finish ----------

  /** No compare-exchange fails although the value matched. */
  predicate IsStrong(e: Event) {
    e.GiveBack? || e.Commit? ==> !e.spurious
  }

  predicate AllStrong(events: seq<Event>) {
    forall i :: 0 <= i < |events| ==> IsStrong(events[i])
  }

  /** The call has not returned yet. */
  predicate IsCalling(stage: Stage) {
    stage == Checking || stage == Blocked || stage == LoadingPoison
  }

  /** The agents a round is about: all of them, or only those whose call has not returned. */
  predicate Attends(s: State, a: AgentId, all: bool) {
    a in s.agents && (all || IsCalling(s.agents[a].stage))
  }

  /**
    An agent that needs nobody else: it holds the lowest index and that is free to use, or it is
    about to be cleared, or it holds the top index and can give it back.
   */
  predicate Leads(p: Params, s: State, a: AgentId) {
    && a in s.agents
    && var Agent(role, i, stage) := s.agents[a];
       if i < Limit(p, s, role) then IsCalling(stage) || i == s.Done(role)
       else i == s.At(role).next - 1
  }

  /** While a role has agents, one of them leads, and one whose call has not returned if there is one. */
  lemma LeaderExists(p: Params, s: State, b: AgentId, all: bool) returns (a: AgentId)
    requires Inv(p, s) && Attends(s, b, all)
    ensures Leads(p, s, a) && Attends(s, a, all) && s.agents[a].role == s.agents[b].role
  {
    var role := s.agents[b].role;
    IndexBounds(p, s, b);
    if s.agents[b].index >= Limit(p, s, role) {
      assert HasOwner(s.agents, role, s.At(role).next - 1);
      a :| Owns(s.agents, a, role, s.At(role).next - 1);
      IndexBounds(p, s, a);
    } else if IsCalling(s.agents[b].stage) {
      a := b;
    } else {
      assert HasOwner(s.agents, role, s.Done(role));
      a :| Owns(s.agents, a, role, s.Done(role));
    }
  }

  /** How many retries the leader may still make before it has an effective step. */
  function Retries(p: Params, s: State, a: AgentId): nat
    requires a in s.agents
  {
    var me := s.agents[a];
    if me.stage == Blocked && me.index < Limit(p, s, me.role) then 1
    else if me.stage == Checking && me.index >= Limit(p, s, me.role) then 1
    else 0
  }

  /** What steps that are not effective leave alone; agents may join, and blocked ones look again. */
  predicate Keeps(s: State, t: State) {
    && t.send.last == s.send.last && t.recv.last == s.recv.last
    && forall a :: a in s.agents ==>
         && a in t.agents
         && t.agents[a].role == s.agents[a].role
         && t.agents[a].index == s.agents[a].index
         && IsGranted(t.agents[a].stage) == IsGranted(s.agents[a].stage)
  }

  /** A step that is not effective only claims or retries. */
  lemma IdleFrame(p: Params, s: State, e: Event)
    requires Inv(p, s) && Enabled(p, s, e) && IsStrong(e) && !Effective(p, s, e)
    ensures Keeps(s, Apply(p, s, e))
    ensures forall a :: a in s.agents && a != e.agent ==> Apply(p, s, e).agents[a] == s.agents[a]
    ensures forall role :: Apply(p, s, e).At(role).next == s.At(role).next + ClaimsIn(e, role)
  {
  }

  /** A retry of the leader is one of few, and it leads until a call begins above it. */
  lemma LeaderRetries(p: Params, s: State, e: Event, a: AgentId)
    requires Inv(p, s) && Enabled(p, s, e) && IsStrong(e) && !Effective(p, s, e)
    requires Leads(p, s, a)
    requires ClaimsIn(e, s.agents[a].role) == 0 || s.agents[a].index < Limit(p, s, s.agents[a].role)
    ensures Leads(p, Apply(p, s, e), a)
    ensures Retries(p, Apply(p, s, e), a) + (if e.agent == a && !e.WriteByte? then 1 else 0) == Retries(p, s, a)
  {
    IdleFrame(p, s, e);
    IndexBounds(p, s, a);
    var t := Apply(p, s, e);
    var role := s.agents[a].role;
    assert t.Done(Send) == s.Done(Send) && t.Done(Recv) == s.Done(Recv);
    assert Limit(p, t, role) == Limit(p, s, role);
    if e.agent != a {
      assert t.agents[a] == s.agents[a];
    } else {
      TestsExact(p, s, a);
    }
  }

  /** The steps an agent takes in a run, apart from writing to its slot. */
  function Moves(events: seq<Event>, a: AgentId): nat {
    if events == [] then 0
    else
      var e := events[|events| - 1];
      Moves(events[..|events| - 1], a) + if e.agent == a && !e.WriteByte? then 1 else 0
  }

  /**
    In a run without an effective step the leader gets to take one step at most, unless it leads
    as the holder of the top index and a call of its role begins.
   */
  lemma {:induction false} LeaderNotStuck(p: Params, s: State, events: seq<Event>, a: AgentId)
    requires Inv(p, s) && Leads(p, s, a)
    requires Exec(p, s, events).Some? && AllStrong(events)
    requires Count(p, s, events) == 0
    requires ClaimsOf(events, s.agents[a].role) == 0 || s.agents[a].index < Limit(p, s, s.agents[a].role)
    ensures Inv(p, Exec(p, s, events).value)
    ensures Keeps(s, Exec(p, s, events).value)
    ensures Leads(p, Exec(p, s, events).value, a)
    ensures Moves(events, a) + Retries(p, Exec(p, s, events).value, a) == Retries(p, s, a)
    decreases |events|
  {
    if events != [] {
      var n := |events| - 1;
      LeaderNotStuck(p, s, events[..n], a);
      LeaderRetries(p, Exec(p, s, events[..n]).value, events[n], a);
      IdleFrame(p, Exec(p, s, events[..n]).value, events[n]);
      StepKeepsInv(p, Exec(p, s, events[..n]).value, events[n]);
    }
  }

  // ---------- fair schedules ----------

  /** A run in which every agent it is about takes two steps, or leaves; others may act and join. */
  predicate Round(p: Params, s: State, events: seq<Event>, all: bool)
    requires ValidParams(p) && WellSized(p, s)
  {
    && Exec(p, s, events).Some?
    && AllStrong(events)
    && forall a :: Attends(s, a, all) ==> Moves(events, a) >= 2 || a !in Exec(p, s, events).value.agents
  }

  ghost predicate Busy(s: State, all: bool) {
    exists a :: Attends(s, a, all)
  }

  /** A round makes progress unless a new call begins in it, even if no guard is ever dropped. */
  lemma RoundMakesProgress(p: Params, s: State, events: seq<Event>, all: bool)
    requires Inv(p, s) && Round(p, s, events, all) && Busy(s, all)
    ensures Count(p, s, events) > 0 || Claims(events) > 0
  {
    var b :| Attends(s, b, all);
    var a := LeaderExists(p, s, b, all);
    if Count(p, s, events) == 0 && Claims(events) == 0 {
      LeaderNotStuck(p, s, events, a);
    }
  }

  /** With a newcomer above it a blocked agent can neither give its index back nor use it. */
  lemma BlockedBelow(p: Params, t: State, a: AgentId)
    requires Inv(p, t) && a in t.agents && t.agents[a].stage == Blocked
    requires !OnTop(t, a) && !IsClear(p, t, a)
    ensures !Effective(p, t, GiveBack(a, false))
    ensures var u := Apply(p, t, GiveBack(a, false));
            && WellSized(p, u) && Enabled(p, u, Check(a))
            && !Effective(p, u, Check(a)) && Apply(p, u, Check(a)) == t
  {
    var u := Apply(p, t, GiveBack(a, false));
    assert u.At(Send) == t.At(Send) && u.At(Recv) == t.At(Recv);
    assert Apply(p, u, Check(a)).agents == t.agents;
  }

  /** A claim above the index of a blocked agent. */
  lemma ClaimAbove(p: Params, s: State, a: AgentId, e: Event)
    requires Inv(p, s) && a in s.agents && s.agents[a].stage == Blocked && !IsClear(p, s, a)
    requires e.Claim? && e.role == s.agents[a].role && Enabled(p, s, e)
    ensures var t := Apply(p, s, e);
            Inv(p, t) && t.agents[a] == s.agents[a] && !OnTop(t, a) && !IsClear(p, t, a)
  {
    ClaimKeepsInv(p, s, e.agent, e.role);
    var t := Apply(p, s, e);
    IndexBounds(p, s, a);
    TestsExact(p, t, a);
    assert t.At(e.role).next == s.At(e.role).next + 1;
    assert t.At(Opposite(e.role)) == s.At(Opposite(e.role));
  }

  /**
    So a newcomer can undo a round: if the one agent about is blocked, both its steps are retries
    when another call begins in time.
   */
  lemma NewcomerUndoesRound(p: Params, s: State, a: AgentId, e: Event)
    requires Inv(p, s) && s.agents.Keys == {a}
    requires s.agents[a].stage == Blocked && !IsClear(p, s, a)
    requires e.Claim? && e.role == s.agents[a].role && Enabled(p, s, e)
    ensures var events := [e, GiveBack(a, false), Check(a)];
            && Round(p, s, events, true)
            && Count(p, s, events) == 0
            && Exec(p, s, events) == Some(Apply(p, s, e))
  {
    ClaimAbove(p, s, a, e);
    var t := Apply(p, s, e);
    BlockedBelow(p, t, a);
    assert WellSized(p, t) && Enabled(p, t, GiveBack(a, false));
    assert AllStrong([e, GiveBack(a, false), Check(a)]);
    assert forall b :: b in s.agents.Keys ==> b == a;
    ExecThree(p, s, e, GiveBack(a, false), Check(a));
    TwoMoves(e, GiveBack(a, false), Check(a), a);
  }

  lemma ExecThree(p: Params, s: State, e: Event, f: Event, g: Event)
    requires ValidParams(p) && WellSized(p, s) && Enabled(p, s, e) && !Effective(p, s, e)
    requires var t := Apply(p, s, e); WellSized(p, t) && Enabled(p, t, f) && !Effective(p, t, f)
    requires var u := Apply(p, Apply(p, s, e), f); WellSized(p, u) && Enabled(p, u, g) && !Effective(p, u, g)
    ensures Exec(p, s, [e, f, g]) == Some(Apply(p, Apply(p, Apply(p, s, e), f), g))
    ensures Count(p, s, [e, f, g]) == 0
  {
    ExecTwo(p, s, e, f);
    assert [e, f, g][..2] == [e, f];
  }

  lemma TwoMoves(e: Event, f: Event, g: Event, a: AgentId)
    requires f.agent == g.agent == a && !f.WriteByte? && !g.WriteByte?
    ensures Moves([e, f, g], a) >= 2
  {
    assert [e, f, g][..2] == [e, f] && [e, f][..1] == [e];
  }

  /** The state after a list of rounds, or None when one of them is not a round. */
  function ExecRounds(p: Params, s: State, rounds: seq<seq<Event>>, all: bool): Option<State>
    requires ValidParams(p) && WellSized(p, s)
    decreases |rounds|
  {
    if rounds == [] then Some(s)
    else if Round(p, s, rounds[0], all) then ExecRounds(p, Exec(p, s, rounds[0]).value, rounds[1..], all)
    else None
  }

  /** What happens in a list of rounds: busy counts those that start with agents they are about. */
  datatype Tally = Tally(busy: nat, effective: nat, claims: nat, ended: nat)

  ghost function TallyOf(p: Params, s: State, rounds: seq<seq<Event>>, all: bool): Tally
    requires ValidParams(p) && WellSized(p, s) && ExecRounds(p, s, rounds, all).Some?
    decreases |rounds|
  {
    if rounds == [] then Tally(0, 0, 0, 0)
    else
      var rest := TallyOf(p, Exec(p, s, rounds[0]).value, rounds[1..], all);
      Tally(rest.busy + if Busy(s, all) then 1 else 0,
            rest.effective + Count(p, s, rounds[0]),
            rest.claims + Claims(rounds[0]),
            rest.ended + Ended(p, s, rounds[0]))
  }

  /** Every busy round has a claim or an effective step, and claims are bounded by calls that end. */
  lemma {:induction false} RoundsBalance(p: Params, s: State, rounds: seq<seq<Event>>, all: bool)
    requires Inv(p, s) && ExecRounds(p, s, rounds, all).Some?
    ensures var t, tally := ExecRounds(p, s, rounds, all).value, TallyOf(p, s, rounds, all);
            && Inv(p, t)
            && tally.busy <= tally.effective + tally.claims
            && |t.agents| + tally.ended == |s.agents| + tally.claims
            && tally.ended <= tally.effective
            && tally.effective + Work(t) <= Work(s) + 5 * tally.claims
    decreases |rounds|
  {
    if rounds != [] {
      RunKeepsInv(p, s, rounds[0]);
      AgentsBalance(p, s, rounds[0]);
      EffectiveStepsBounded(p, s, rounds[0]);
      if Busy(s, all) {
        RoundMakesProgress(p, s, rounds[0], all);
      }
      RoundsBalance(p, Exec(p, s, rounds[0]).value, rounds[1..], all);
    }
  }

  /** A step that is not effective leaves every agent about, and its call where it was. */
  lemma IdleStepKeeps(p: Params, s: State, e: Event, a: AgentId, all: bool)
    requires ValidParams(p) && WellSized(p, s) && Enabled(p, s, e) && !Effective(p, s, e)
    requires Attends(s, a, all)
    ensures Attends(Apply(p, s, e), a, all)
  {
  }

  lemma {:induction false} IdleRunKeeps(p: Params, s: State, events: seq<Event>, a: AgentId, all: bool)
    requires ValidParams(p) && WellSized(p, s) && Exec(p, s, events).Some? && Count(p, s, events) == 0
    requires Attends(s, a, all)
    ensures Attends(Exec(p, s, events).value, a, all)
    decreases |events|
  {
    if events != [] {
      var n := |events| - 1;
      IdleRunKeeps(p, s, events[..n], a, all);
      IdleStepKeeps(p, Exec(p, s, events[..n]).value, events[n], a, all);
    }
  }

  /** Without an effective step, rounds that begin busy stay busy. */
  lemma {:induction false} IdleRoundsBusy(p: Params, s: State, rounds: seq<seq<Event>>, a: AgentId, all: bool)
    requires ValidParams(p) && WellSized(p, s) && ExecRounds(p, s, rounds, all).Some? && Attends(s, a, all)
    requires TallyOf(p, s, rounds, all).effective == 0
    ensures TallyOf(p, s, rounds, all).busy == |rounds|
    decreases |rounds|
  {
    if rounds != [] {
      IdleRunKeeps(p, s, rounds[0], a, all);
      IdleRoundsBusy(p, Exec(p, s, rounds[0]).value, rounds[1..], a, all);
    }
  }

  /**
    Progress whatever calls arrive: over any rounds, those with agents about number at most
    twice the effective steps and once the agents that could still join.
   */
  lemma ContendedProgress(p: Params, s: State, rounds: seq<seq<Event>>, all: bool)
    requires Inv(p, s) && ExecRounds(p, s, rounds, all).Some?
    ensures TallyOf(p, s, rounds, all).busy <= 2 * TallyOf(p, s, rounds, all).effective + (p.maxAgents - |s.agents|)
    ensures Busy(s, all) && |rounds| > p.maxAgents - |s.agents| ==> TallyOf(p, s, rounds, all).effective > 0
  {
    RoundsBalance(p, s, rounds, all);
    if Busy(s, all) && TallyOf(p, s, rounds, all).effective == 0 {
      var a :| Attends(s, a, all);
      IdleRoundsBusy(p, s, rounds, a, all);
    }
  }

  /** And calls keep ending: not only steps are bounded from below, but calls that come to an end. */
  lemma ContendedCalls(p: Params, s: State, rounds: seq<seq<Event>>, all: bool)
    requires Inv(p, s) && ExecRounds(p, s, rounds, all).Some?
    ensures TallyOf(p, s, rounds, all).busy <= 6 * TallyOf(p, s, rounds, all).ended + 5 * p.maxAgents
  {
    RoundsBalance(p, s, rounds, all);
    EffectiveStepsBounded(p, s, []);
    EffectiveStepsBounded(p, ExecRounds(p, s, rounds, all).value, []);
  }

  /** Without new calls, agents that are still about were about all the time. */
  lemma {:induction false} StillBusy(p: Params, s: State, rounds: seq<seq<Event>>)
    requires Inv(p, s) && ExecRounds(p, s, rounds, true).Some?
    requires TallyOf(p, s, rounds, true).claims == 0 && ExecRounds(p, s, rounds, true).value.agents != map[]
    ensures s.agents != map[]
    ensures TallyOf(p, s, rounds, true).busy == |rounds|
    decreases |rounds|
  {
    if rounds != [] {
      RunKeepsInv(p, s, rounds[0]);
      AgentsBalance(p, s, rounds[0]);
      StillBusy(p, Exec(p, s, rounds[0]).value, rounds[1..]);
      var a :| a in s.agents;
      assert Attends(s, a, true);
    }
  }

  /** Once no new call begins, five rounds per agent let every agent leave. */
  lemma FairRoundsDrain(p: Params, s: State, rounds: seq<seq<Event>>)
    requires Inv(p, s) && ExecRounds(p, s, rounds, true).Some?
    requires TallyOf(p, s, rounds, true).claims == 0
    requires |rounds| >= 5 * |s.agents|
    ensures ExecRounds(p, s, rounds, true).value.agents == map[]
  {
    RoundsBalance(p, s, rounds, true);
    EffectiveStepsBounded(p, s, []);
    WorkZero(ExecRounds(p, s, rounds, true).value);
    if ExecRounds(p, s, rounds, true).value.agents != map[] {
      StillBusy(p, s, rounds);
    }
  }

  // ---------- a schedule that drains ----------

  /** The step an agent takes when it is scheduled next and does not panic. */
  function NextStep(s: State, a: AgentId): (e: Event)
    requires a in s.agents
    ensures IsStrong(e) && !e.Claim?
  {
    match s.agents[a].stage
    case Checking => Check(a)
    case Blocked => GiveBack(a, false)
    case LoadingPoison => LoadPoison(a)
    case Holding => Drop(a, false)
    case Poisoning => StorePoison(a)
    case Committing => Commit(a, false)
  }

  /** From every state some schedule, of bounded length, lets every agent leave. */
  lemma {:induction false} CanDrain(p: Params, s: State) returns (events: seq<Event>)
    requires Inv(p, s)
    ensures AllStrong(events) && NoClaims(events) && |events| <= 2 * Work(s)
    ensures Exec(p, s, events).Some? && Exec(p, s, events).value.agents == map[]
    decreases Work(s)
  {
    WorkZero(s);
    if s.agents == map[] {
      events := [];
    } else {
      var b :| b in s.agents;
      var a := LeaderExists(p, s, b, true);
      var first := LeaderAdvances(p, s, a);
      var t := Exec(p, s, first).value;
      RunKeepsInv(p, s, first);
      NoClaimsNone(first);
      EffectiveStepsBounded(p, s, first);
      var rest := CanDrain(p, t);
      ExecConcat(p, s, first, t, rest);
      events := first + rest;
    }
  }

  /** If the next step of the leader is a retry, the one after it is effective. */
  lemma LeaderSecondStep(p: Params, s: State, a: AgentId)
    requires Inv(p, s) && Leads(p, s, a) && !Effective(p, s, NextStep(s, a))
    ensures var t := Apply(p, s, NextStep(s, a));
            WellSized(p, t) && a in t.agents && Effective(p, t, NextStep(t, a))
  {
    LeaderRetries(p, s, NextStep(s, a), a);
    StepKeepsInv(p, s, NextStep(s, a));
    var t := Apply(p, s, NextStep(s, a));
    if !Effective(p, t, NextStep(t, a)) {
      LeaderRetries(p, t, NextStep(t, a), a);
    }
  }

  /** The leader needs two steps of its own at most to have an effective one. */
  lemma LeaderAdvances(p: Params, s: State, a: AgentId) returns (events: seq<Event>)
    requires Inv(p, s) && Leads(p, s, a)
    ensures AllStrong(events) && NoClaims(events) && |events| <= 2
    ensures Exec(p, s, events).Some? && Count(p, s, events) > 0
  {
    var e := NextStep(s, a);
    if Effective(p, s, e) {
      ExecOne(p, s, e);
      events := [e];
    } else {
      LeaderSecondStep(p, s, a);
      var f := NextStep(Apply(p, s, e), a);
      ExecTwo(p, s, e, f);
      events := [e, f];
    }
  }

  lemma ExecOne(p: Params, s: State, e: Event)
    requires ValidParams(p) && WellSized(p, s) && Enabled(p, s, e)
    ensures Exec(p, s, [e]) == Some(Apply(p, s, e))
    ensures Count(p, s, [e]) == if Effective(p, s, e) then 1 else 0
  {
    assert [e][..0] == [];
    assert Exec(p, s, [e][..0]) == Some(s);
  }

  lemma ExecTwo(p: Params, s: State, e: Event, f: Event)
    requires ValidParams(p) && WellSized(p, s) && Enabled(p, s, e)
    requires WellSized(p, Apply(p, s, e)) && Enabled(p, Apply(p, s, e), f)
    ensures Exec(p, s, [e, f]) == Some(Apply(p, Apply(p, s, e), f))
    ensures Count(p, s, [e, f]) ==
            (if Effective(p, s, e) then 1 else 0) + if Effective(p, Apply(p, s, e), f) then 1 else 0
  {
    ExecOne(p, s, e);
    assert [e, f][..1] == [e];
  }

  // ---------- why weak compare-exchange may not progress ----------

  /** n rounds of a give-back that fails spuriously, followed by another look. */
  function Spin(a: AgentId, n: nat): seq<Event> {
    if n == 0 then [] else Spin(a, n - 1) + [GiveBack(a, true), Check(a)]
  }

  /** A blocked agent can spin forever on spurious failures without changing anything. */
  lemma {:induction false} SpuriousFailuresSpin(p: Params, s: State, a: AgentId, n: nat)
    requires Inv(p, s) && a in s.agents && s.agents[a].stage == Blocked && !IsClear(p, s, a)
    ensures Exec(p, s, Spin(a, n)) == Some(s)
    decreases n
  {
    if n > 0 {
      SpuriousFailuresSpin(p, s, a, n - 1);
      var e, f := GiveBack(a, true), Check(a);
      var t := Apply(p, s, e);
      assert t.At(Send) == s.At(Send) && t.At(Recv) == s.At(Recv);
      ExecTwo(p, s, e, f);
      assert Apply(p, t, f).agents == s.agents;
      ExecConcat(p, s, Spin(a, n - 1), s, [e, f]);
    }
  }

  /** n attempts to commit that fail, spuriously or because the value does not match. */
  function Attempts(a: AgentId, spurious: bool, n: nat): seq<Event> {
    if n == 0 then [] else Attempts(a, spurious, n - 1) + [Commit(a, spurious)]
  }

  /** A dropped guard that waits for an older one makes no progress, however often it tries. */
  lemma {:induction false} OutOfTurnSpins(p: Params, s: State, a: AgentId, spurious: bool, n: nat)
    requires ValidParams(p) && WellSized(p, s)
    requires a in s.agents && s.agents[a].stage == Committing && (spurious || !IsTurn(s, a))
    ensures Exec(p, s, Attempts(a, spurious, n)) == Some(s)
    decreases n
  {
    if n > 0 {
      OutOfTurnSpins(p, s, a, spurious, n - 1);
      ExecOne(p, s, Commit(a, spurious));
      ExecConcat(p, s, Attempts(a, spurious, n - 1), s, [Commit(a, spurious)]);
    }
  }
}
