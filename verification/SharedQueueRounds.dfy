/**
  From which states a fair round of the shared queue can go by without progress: exactly those
  in which all agents the round is about wait at a full (or empty) queue, and there is room for
  a newcomer above them.
 */
module SharedQueueRounds {
  import opened Words
  import opened Wrappers
  import opened SharedQueue
  import opened SharedQueueInvariant
  import opened SharedQueueProgress

  /** The agent has an index that is not clear, and can only try to give it back. */
  predicate Waiting(p: Params, s: State, a: AgentId) {
    a in s.agents && (s.agents[a].stage == Checking || s.agents[a].stage == Blocked) && !IsClear(p, s, a)
  }

  /** Some call of the role has not returned. */
  ghost predicate Calls(s: State, role: Role) {
    exists a :: a in s.agents && s.agents[a].role == role && IsCalling(s.agents[a].stage)
  }

  /** One newcomer for each role that has such a call. */
  ghost function Newcomers(s: State): nat {
    (if Calls(s, Send) then 1 else 0) + (if Calls(s, Recv) then 1 else 0)
  }

  /** All agents a round is about wait, and there is room for a newcomer above them. */
  ghost predicate Stuck(p: Params, s: State, all: bool) {
    && (forall a :: Attends(s, a, all) ==> Waiting(p, s, a))
    && |s.agents| + Newcomers(s) <= p.maxAgents
    && forall role :: Calls(s, role) ==> s.At(role).next != MAX_WORD
  }

  ghost predicate IdleRound(p: Params, s: State, events: seq<Event>, all: bool)
    requires ValidParams(p) && WellSized(p, s)
  {
    Round(p, s, events, all) && Count(p, s, events) == 0
  }

  // ---------- an idle round needs such a state ----------

  /** A run without an effective step keeps all agents, and its claims say how the rest changes. */
  lemma {:induction false} IdleRunKeepsAll(p: Params, s: State, events: seq<Event>)
    requires Inv(p, s) && Exec(p, s, events).Some? && AllStrong(events) && Count(p, s, events) == 0
    ensures Inv(p, Exec(p, s, events).value) && Keeps(s, Exec(p, s, events).value)
    ensures forall role :: Exec(p, s, events).value.At(role).next == s.At(role).next + ClaimsOf(events, role)
    decreases |events|
  {
    if events != [] {
      var n := |events| - 1;
      IdleRunKeepsAll(p, s, events[..n]);
      IdleFrame(p, Exec(p, s, events[..n]).value, events[n]);
      StepKeepsInv(p, Exec(p, s, events[..n]).value, events[n]);
    }
  }

  /** An agent whose index is free and that needs nobody else would have made progress. */
  lemma NoFreeLeader(p: Params, s: State, events: seq<Event>, all: bool, a: AgentId)
    requires Inv(p, s) && IdleRound(p, s, events, all)
    requires Attends(s, a, all) && Leads(p, s, a)
    ensures s.agents[a].index >= Limit(p, s, s.agents[a].role)
    ensures ClaimsOf(events, s.agents[a].role) > 0
  {
    IdleRunKeepsAll(p, s, events);
    if s.agents[a].index < Limit(p, s, s.agents[a].role) || ClaimsOf(events, s.agents[a].role) == 0 {
      LeaderNotStuck(p, s, events, a);
    }
  }

  /** So every agent the round is about waits. */
  lemma AttendedWait(p: Params, s: State, events: seq<Event>, all: bool, a: AgentId)
    requires Inv(p, s) && IdleRound(p, s, events, all) && Attends(s, a, all)
    ensures Waiting(p, s, a)
    ensures s.agents[a].index >= Limit(p, s, s.agents[a].role)
  {
    IndexBounds(p, s, a);
    TestsExact(p, s, a);
    var role := s.agents[a].role;
    if s.agents[a].index < Limit(p, s, role) {
      if IsCalling(s.agents[a].stage) {
        NoFreeLeader(p, s, events, all, a);
      } else {
        assert HasOwner(s.agents, role, s.Done(role));
        var b: AgentId :| Owns(s.agents, b, role, s.Done(role));
        NoFreeLeader(p, s, events, all, b);
      }
    }
  }

  /** And some call began above those that wait. */
  lemma NewcomerNeeded(p: Params, s: State, events: seq<Event>, all: bool, role: Role)
    requires Inv(p, s) && IdleRound(p, s, events, all) && Calls(s, role)
    ensures ClaimsOf(events, role) > 0
  {
    var a :| a in s.agents && s.agents[a].role == role && IsCalling(s.agents[a].stage);
    AttendedWait(p, s, events, all, a);
    var b := LeaderExists(p, s, a, all);
    NoFreeLeader(p, s, events, all, b);
  }

  lemma IdleRoundStuck(p: Params, s: State, events: seq<Event>, all: bool)
    requires Inv(p, s) && IdleRound(p, s, events, all)
    ensures Stuck(p, s, all)
  {
    forall a | Attends(s, a, all)
      ensures Waiting(p, s, a)
    {
      AttendedWait(p, s, events, all, a);
    }
    forall role | Calls(s, role)
      ensures ClaimsOf(events, role) > 0
    {
      NewcomerNeeded(p, s, events, all, role);
    }
    IdleRunKeepsAll(p, s, events);
    AgentsBalance(p, s, events);
  }

  // ---------- in such a state there is one ----------

  lemma CountOnto(p: Params, s: State, events: seq<Event>, e: Event)
    requires ValidParams(p) && WellSized(p, s) && Exec(p, s, events).Some?
    requires Enabled(p, Exec(p, s, events).value, e)
    ensures Exec(p, s, events + [e]).Some?
    ensures Count(p, s, events + [e]) ==
            Count(p, s, events) + if Effective(p, Exec(p, s, events).value, e) then 1 else 0
  {
    ExecOnto(p, s, events, e);
    assert (events + [e])[..|events|] == events;
  }

  lemma {:induction false} CountConcat(p: Params, s: State, first: seq<Event>, t: State, second: seq<Event>)
    requires ValidParams(p) && WellSized(p, s) && WellSized(p, t)
    requires Exec(p, s, first) == Some(t) && Exec(p, t, second).Some?
    ensures Exec(p, s, first + second) == Exec(p, t, second)
    ensures Count(p, s, first + second) == Count(p, s, first) + Count(p, t, second)
    decreases |second|
  {
    ExecConcat(p, s, first, t, second);
    if second == [] {
      assert first + second == first;
    } else {
      var init, last := second[..|second| - 1], second[|second| - 1];
      LastApart(first, second);
      CountConcat(p, s, first, t, init);
      CountOnto(p, s, first + init, last);
    }
  }

  lemma {:induction false} MovesConcat(first: seq<Event>, second: seq<Event>, a: AgentId)
    ensures Moves(first + second, a) == Moves(first, a) + Moves(second, a)
    decreases |second|
  {
    if second == [] {
      assert first + second == first;
    } else {
      var n := |second| - 1;
      MovesConcat(first, second[..n], a);
      assert (first + second)[..|first| + n] == first + second[..n];
    }
  }

  /** A number above all in a set. */
  lemma {:induction false} Above(ids: set<AgentId>) returns (bound: AgentId)
    ensures forall a :: a in ids ==> a < bound
    decreases |ids|
  {
    if ids == {} {
      bound := 0;
    } else {
      var a :| a in ids;
      var others := Above(ids - {a});
      bound := if others <= a then a + 1 else others;
      assert forall b :: b in ids ==> b == a || b in ids - {a};
    }
  }

  /** A call that begins changes nothing for the agents about, but is above those of its role. */
  lemma Join(p: Params, s: State, role: Role) returns (e: Event, t: State)
    requires Inv(p, s) && |s.agents| < p.maxAgents && s.At(role).next != MAX_WORD
    ensures IsStrong(e) && Exec(p, s, [e]) == Some(t) && Count(p, s, [e]) == 0
    ensures Inv(p, t) && |t.agents| == |s.agents| + 1
    ensures forall a :: a in s.agents ==> a in t.agents && t.agents[a] == s.agents[a]
    ensures t.send.last == s.send.last && t.recv.last == s.recv.last
    ensures t.At(role).next == s.At(role).next + 1
    ensures t.At(Opposite(role)).next == s.At(Opposite(role)).next
  {
    var id := Above(s.agents.Keys);
    e := Claim(id, role);
    assert id !in s.agents.Keys;
    t := Apply(p, s, e);
    ClaimKeepsInv(p, s, id, role);
    ExecOne(p, s, e);
    StepAgents(p, s, e);
  }

  /** An agent that waits below another can take two steps that lead nowhere. */
  predicate Buried(p: Params, t: State, a: AgentId) {
    Waiting(p, t, a) && !OnTop(t, a)
  }

  function TwoRetries(t: State, a: AgentId): seq<Event>
    requires a in t.agents
  {
    if t.agents[a].stage == Blocked then [GiveBack(a, false), Check(a)] else [Check(a), GiveBack(a, false)]
  }

  lemma CheckedBelow(p: Params, t: State, a: AgentId)
    requires Inv(p, t) && Buried(p, t, a) && t.agents[a].stage == Checking
    ensures !Effective(p, t, Check(a))
    ensures var u := Apply(p, t, Check(a));
            && WellSized(p, u) && Enabled(p, u, GiveBack(a, false))
            && !Effective(p, u, GiveBack(a, false)) && Apply(p, u, GiveBack(a, false)) == t
  {
    var u := Apply(p, t, Check(a));
    assert u.At(Send) == t.At(Send) && u.At(Recv) == t.At(Recv);
    assert Apply(p, u, GiveBack(a, false)).agents == t.agents;
  }

  lemma TwoRetriesSpin(p: Params, t: State, a: AgentId)
    requires Inv(p, t) && Buried(p, t, a)
    ensures Exec(p, t, TwoRetries(t, a)) == Some(t) && Count(p, t, TwoRetries(t, a)) == 0
    ensures AllStrong(TwoRetries(t, a)) && Moves(TwoRetries(t, a), a) == 2
  {
    var e, f := TwoRetries(t, a)[0], TwoRetries(t, a)[1];
    if t.agents[a].stage == Blocked {
      BlockedBelow(p, t, a);
    } else {
      CheckedBelow(p, t, a);
    }
    ExecTwo(p, t, e, f);
    assert TwoRetries(t, a) == [e, f] && [e, f][..1] == [e];
    assert Moves([e], a) == 1;
  }

  /** All of them can, one after the other. */
  lemma {:induction false} AllRetry(p: Params, t: State, ids: set<AgentId>) returns (events: seq<Event>)
    requires Inv(p, t) && forall a :: a in ids ==> Buried(p, t, a)
    ensures Exec(p, t, events) == Some(t) && Count(p, t, events) == 0 && AllStrong(events)
    ensures forall a :: a in ids ==> Moves(events, a) >= 2
    decreases |ids|
  {
    events := [];
    if ids != {} {
      var a :| a in ids;
      var others := AllRetry(p, t, ids - {a});
      TwoRetriesSpin(p, t, a);
      events := others + TwoRetries(t, a);
      CountConcat(p, t, others, t, TwoRetries(t, a));
      forall b | b in ids
        ensures Moves(events, b) >= 2
      {
        assert b == a || b in ids - {a};
        MovesConcat(others, TwoRetries(t, a), b);
      }
    }
  }

  /** Newcomers above all calls, where there are any. */
  lemma NewcomersJoin(p: Params, s: State) returns (events: seq<Event>, t: State)
    requires Inv(p, s) && |s.agents| + Newcomers(s) <= p.maxAgents
    requires forall role :: Calls(s, role) ==> s.At(role).next != MAX_WORD
    ensures Exec(p, s, events) == Some(t) && Count(p, s, events) == 0 && AllStrong(events)
    ensures Inv(p, t)
    ensures forall a :: a in s.agents ==> a in t.agents && t.agents[a] == s.agents[a]
    ensures t.send.last == s.send.last && t.recv.last == s.recv.last
    ensures forall role :: Calls(s, role) ==> t.At(role).next > s.At(role).next
  {
    events, t := [], s;
    var e;
    if Calls(s, Send) {
      e, t := Join(p, s, Send);
      events := [e];
    }
    if Calls(s, Recv) {
      var u := t;
      e, t := Join(p, u, Recv);
      CountConcat(p, s, events, u, [e]);
      events := events + [e];
    }
  }

  lemma StuckRoundIdle(p: Params, s: State, all: bool) returns (events: seq<Event>)
    requires Inv(p, s) && Stuck(p, s, all)
    ensures IdleRound(p, s, events, all)
  {
    var first, t := NewcomersJoin(p, s);
    var ids := set a | a in s.agents && Attends(s, a, all);
    forall a | a in ids
      ensures Buried(p, t, a)
    {
      assert Waiting(p, s, a) && Calls(s, s.agents[a].role);
      IndexBounds(p, s, a);
      TestsExact(p, t, a);
    }
    var second := AllRetry(p, t, ids);
    events := first + second;
    CountConcat(p, s, first, t, second);
    forall a | Attends(s, a, all)
      ensures Moves(events, a) >= 2
    {
      assert a in ids;
      MovesConcat(first, second, a);
    }
  }

  /**
    A fair round can go by without progress if and only if all agents it is about wait, and there
    is room for a newcomer above them.
   */
  lemma IdleRoundIff(p: Params, s: State, all: bool)
    requires Inv(p, s)
    ensures (exists events :: IdleRound(p, s, events, all)) <==> Stuck(p, s, all)
  {
    if Stuck(p, s, all) {
      var events := StuckRoundIdle(p, s, all);
    }
    forall events | IdleRound(p, s, events, all)
      ensures Stuck(p, s, all)
    {
      IdleRoundStuck(p, s, events, all);
    }
  }

  // ---------- rounds about all agents ----------

  /** Everybody waits on the same side, and one more call of that side can begin. */
  predicate StuckIn(p: Params, s: State, role: Role) {
    && (forall a :: a in s.agents ==> s.agents[a].role == role && Waiting(p, s, a))
    && |s.agents| < p.maxAgents
    && s.At(role).next != MAX_WORD
  }

  lemma LowestWaits(p: Params, s: State, a: AgentId)
    requires Inv(p, s) && a in s.agents
    requires forall c :: c in s.agents ==> Waiting(p, s, c)
    ensures s.Done(s.agents[a].role) >= Limit(p, s, s.agents[a].role)
  {
    var role := s.agents[a].role;
    IndexBounds(p, s, a);
    assert HasOwner(s.agents, role, s.Done(role));
    var b: AgentId :| Owns(s.agents, b, role, s.Done(role));
    TestsExact(p, s, b);
  }

  /** The queue cannot be full and empty at once. */
  lemma OneSideWaits(p: Params, s: State, a: AgentId, b: AgentId)
    requires Inv(p, s) && a in s.agents && b in s.agents
    requires forall c :: c in s.agents ==> Waiting(p, s, c)
    ensures s.agents[a].role == s.agents[b].role
  {
    LowestWaits(p, s, a);
    LowestWaits(p, s, b);
  }

  lemma StuckSides(p: Params, s: State)
    requires Inv(p, s) && s.agents != map[]
    ensures Stuck(p, s, true) <==> exists role :: StuckIn(p, s, role)
  {
    var a :| a in s.agents;
    var role := s.agents[a].role;
    assert Attends(s, a, true);
    if Stuck(p, s, true) {
      assert forall b :: b in s.agents ==> Attends(s, b, true);
      assert Calls(s, role);
      forall b | b in s.agents
        ensures s.agents[b].role == role
      {
        OneSideWaits(p, s, a, b);
      }
      assert StuckIn(p, s, role);
    }
  }

  /**
    A claiming loop can fail to make progress in a fair round if and only if all agents are
    waiting calls of one side, and one more call of that side can begin.
   */
  lemma FairRoundCanFailIff(p: Params, s: State)
    requires Inv(p, s) && s.agents != map[]
    ensures (exists events :: IdleRound(p, s, events, true)) <==> exists role :: StuckIn(p, s, role)
  {
    IdleRoundIff(p, s, true);
    StuckSides(p, s);
  }
}
