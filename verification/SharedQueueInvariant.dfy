/**
  What every step of the shared queue keeps, and what follows for single states:
  exact ownership of indices, and no two live guards on one slot.
 */
module SharedQueueInvariant {
  import opened Words
  import opened Wrappers
  import opened SharedQueue

  /** Owners are known by role and index alone, so a new stage leaves coverage as it was. */
  lemma RestageKeepsCovered(agents: Agents, a: AgentId, stage: Stage, role: Role, lo: int, hi: int)
    requires a in agents && Covered(agents, role, lo, hi)
    ensures Covered(agents[a := agents[a].(stage := stage)], role, lo, hi)
  {
    var after := agents[a := agents[a].(stage := stage)];
    forall i | lo <= i < hi
      ensures HasOwner(after, role, i)
    {
      assert HasOwner(agents, role, i);
      var b: AgentId :| Owns(agents, b, role, i);
      assert Owns(after, b, role, i);
    }
  }

  lemma RestageKeepsSide(agents: Agents, a: AgentId, stage: Stage, role: Role, done: int, next: int, limit: int)
    requires a in agents && SideInv(agents, role, done, next, limit)
    requires agents[a].role == role && IsGranted(stage) ==> agents[a].index < limit
    ensures SideInv(agents[a := agents[a].(stage := stage)], role, done, next, limit)
  {
    var after := agents[a := agents[a].(stage := stage)];
    assert forall b: AgentId, i: int :: Owns(after, b, role, i) ==> Owns(agents, b, role, i);
    RestageKeepsCovered(agents, a, stage, role, done, next);
  }

  /** Changing only the stage of one agent keeps the invariant, if it may have that stage. */
  lemma MoveKeepsInv(p: Params, s: State, a: AgentId, stage: Stage)
    requires Inv(p, s) && a in s.agents
    requires IsGranted(stage) ==> s.agents[a].index < Limit(p, s, s.agents[a].role)
    requires stage == LoadingPoison ==> s.agents[a].role == Recv
    ensures Inv(p, s.Move(a, stage))
  {
    RestageKeepsSide(s.agents, a, stage, Send, s.Done(Send), s.send.next, Limit(p, s, Send));
    RestageKeepsSide(s.agents, a, stage, Recv, s.Done(Recv), s.recv.next, Limit(p, s, Recv));
    assert s.Move(a, stage).agents.Keys == s.agents.Keys;
  }

  lemma JoinKeepsSide(agents: Agents, a: AgentId, me: Agent, role: Role, done: int, next: int, limit: int)
    requires a !in agents && me.stage == Checking && SideInv(agents, role, done, next, limit)
    requires me.role == role ==> me.index == next
    ensures SideInv(agents[a := me], role, done, if me.role == role then next + 1 else next, limit)
  {
    var after := agents[a := me];
    assert forall b: AgentId, i: int :: Owns(after, b, role, i) ==> b == a || Owns(agents, b, role, i);
    assert forall i: int :: Owns(after, a, role, i) ==> i == next;
    forall i | done <= i < (if me.role == role then next + 1 else next)
      ensures HasOwner(after, role, i)
    {
      if me.role == role && i == next {
        assert Owns(after, a, role, i);
      } else {
        assert HasOwner(agents, role, i);
        var b: AgentId :| Owns(agents, b, role, i);
        assert Owns(after, b, role, i);
      }
    }
  }

  lemma ClaimKeepsInv(p: Params, s: State, a: AgentId, role: Role)
    requires Inv(p, s) && Enabled(p, s, Claim(a, role))
    ensures Inv(p, Apply(p, s, Claim(a, role)))
  {
    var me := Agent(role, s.At(role).next, Checking);
    JoinKeepsSide(s.agents, a, me, Send, s.Done(Send), s.send.next, Limit(p, s, Send));
    JoinKeepsSide(s.agents, a, me, Recv, s.Done(Recv), s.recv.next, Limit(p, s, Recv));
    var t := Apply(p, s, Claim(a, role));
    assert t.agents == s.agents[a := me] && t.agents.Keys == s.agents.Keys + {a};
    assert t.Done(Send) == s.Done(Send) && t.Done(Recv) == s.Done(Recv);
    assert t.At(role).next == s.At(role).next + 1 && t.At(Opposite(role)).next == s.At(Opposite(role)).next;
  }

  /** An agent that owns the first or the last index of its role can leave. */
  lemma LeaveKeepsSide(agents: Agents, a: AgentId, role: Role, done: int, next: int, limit: int,
                       done': int, next': int, limit': int)
    requires a in agents && SideInv(agents, role, done, next, limit)
    requires done' <= next' && limit <= limit'
    requires if agents[a].role != role then done' == done && next' == next
             else (done' == done && next' == next - 1 && agents[a].index == next')
                  || (done' == done + 1 && next' == next && agents[a].index == done)
    ensures SideInv(agents - {a}, role, done', next', limit')
  {
    assert Owns(agents, a, agents[a].role, agents[a].index);
    assert forall b: AgentId, i: int :: Owns(agents - {a}, b, role, i) ==> b != a && Owns(agents, b, role, i);
    OthersStayCovered(agents, a, role, done', next');
  }

  /** A give-back that succeeds removes the top index of the caller's role, and nothing else. */
  lemma GiveBackKeepsInv(p: Params, s: State, a: AgentId)
    requires Inv(p, s) && a in s.agents && s.agents[a].stage == Blocked && OnTop(s, a)
    ensures Inv(p, Apply(p, s, GiveBack(a, false)))
  {
    var t := Apply(p, s, GiveBack(a, false));
    TestsExact(p, s, a);
    IndexBounds(p, s, a);
    var me := s.agents[a];
    assert t.Done(Send) == s.Done(Send) && t.Done(Recv) == s.Done(Recv);
    assert me.index == s.At(me.role).next - 1;
    LeaveKeepsSide(s.agents, a, Send, s.Done(Send), s.send.next, Limit(p, s, Send),
                   t.Done(Send), t.send.next, Limit(p, t, Send));
    LeaveKeepsSide(s.agents, a, Recv, s.Done(Recv), s.recv.next, Limit(p, s, Recv),
                   t.Done(Recv), t.recv.next, Limit(p, t, Recv));
    assert t.agents.Keys == s.agents.Keys - {a};
  }

  /** A commit that succeeds finishes exactly the lowest unfinished index. */
  lemma CommitKeepsInv(p: Params, s: State, a: AgentId)
    requires Inv(p, s) && a in s.agents && s.agents[a].stage == Committing && IsTurn(s, a)
    ensures Inv(p, Apply(p, s, Commit(a, false)))
    ensures Apply(p, s, Commit(a, false)).Done(s.agents[a].role) == s.Done(s.agents[a].role) + 1
  {
    var t := Apply(p, s, Commit(a, false));
    TestsExact(p, s, a);
    IndexBounds(p, s, a);
    var me := s.agents[a];
    assert me.index == s.Done(me.role) < Limit(p, s, me.role);
    assert t.Done(me.role) == me.index + 1;
    assert t.Done(Opposite(me.role)) == s.Done(Opposite(me.role));
    LeaveKeepsSide(s.agents, a, Send, s.Done(Send), s.send.next, Limit(p, s, Send),
                   t.Done(Send), t.send.next, Limit(p, t, Send));
    LeaveKeepsSide(s.agents, a, Recv, s.Done(Recv), s.recv.next, Limit(p, s, Recv),
                   t.Done(Recv), t.recv.next, Limit(p, t, Recv));
    assert t.agents.Keys == s.agents.Keys - {a};
  }

  lemma CheckKeepsInv(p: Params, s: State, a: AgentId)
    requires Inv(p, s) && Enabled(p, s, Check(a))
    ensures Inv(p, Apply(p, s, Check(a)))
  {
    TestsExact(p, s, a);
    MoveKeepsInv(p, s, a, if !IsClear(p, s, a) then Blocked
                          else if s.agents[a].role == Recv then LoadingPoison
                          else Holding);
  }

  /** The invariant does not look at the poison flag or at what the slots hold. */
  lemma SameClaimsInv(p: Params, s: State, t: State)
    requires Inv(p, s) && WellSized(p, t)
    requires t.agents == s.agents && t.send == s.send && t.recv == s.recv
    ensures Inv(p, t)
  {
    assert t.Done(Send) == s.Done(Send) && t.Done(Recv) == s.Done(Recv);
  }

  /** The steps of a live guard; none of them touches the four counters. */
  lemma GuardStepKeepsInv(p: Params, s: State, e: Event)
    requires Inv(p, s) && Enabled(p, s, e)
    requires e.LoadPoison? || e.WriteByte? || e.Drop? || e.StorePoison?
    ensures Inv(p, Apply(p, s, e))
  {
    IndexBounds(p, s, e.agent);
    match e
    case LoadPoison(a) => MoveKeepsInv(p, s, a, Holding);
    case WriteByte(a, offset, byte) =>
      KeepsSizes(p, s, e);
      SameClaimsInv(p, s, Apply(p, s, e));
    case Drop(a, panicking) => MoveKeepsInv(p, s, a, if panicking then Poisoning else Committing);
    case StorePoison(a) =>
      MoveKeepsInv(p, s, a, Committing);
      SameClaimsInv(p, s.Move(a, Committing), Apply(p, s, e));
  }

  /** Every step keeps the invariant. */
  lemma StepKeepsInv(p: Params, s: State, e: Event)
    requires Inv(p, s) && Enabled(p, s, e)
    ensures Inv(p, Apply(p, s, e))
  {
    match e
    case Claim(a, role) => ClaimKeepsInv(p, s, a, role);
    case Check(a) => CheckKeepsInv(p, s, a);
    case GiveBack(a, spurious) =>
      if !spurious && OnTop(s, a) {
        GiveBackKeepsInv(p, s, a);
      } else {
        MoveKeepsInv(p, s, a, Checking);
      }
    case Commit(a, spurious) =>
      if !spurious && IsTurn(s, a) {
        CommitKeepsInv(p, s, a);
      }
    case _ => GuardStepKeepsInv(p, s, e);
  }

  /** Every reachable state satisfies the invariant. */
  lemma {:induction false} RunKeepsInv(p: Params, s: State, events: seq<Event>)
    requires Inv(p, s)
    requires Exec(p, s, events).Some?
    ensures Inv(p, Exec(p, s, events).value)
    decreases |events|
  {
    if events != [] {
      var n := |events| - 1;
      RunKeepsInv(p, s, events[..n]);
      StepKeepsInv(p, Exec(p, s, events[..n]).value, events[n]);
    }
  }

  // ---------- consequences for single states ----------

  /** A guard exists: the index was cleared and is not committed yet. */
  predicate IsLive(s: State, a: AgentId) {
    a in s.agents && IsGranted(s.agents[a].stage)
  }

  /** No two live guards, of whatever roles, refer to the same slot. */
  lemma SlotExclusion(p: Params, s: State, a: AgentId, b: AgentId)
    requires Inv(p, s) && a != b && IsLive(s, a) && IsLive(s, b)
    ensures s.agents[a].index % p.itemCount != s.agents[b].index % p.itemCount
  {
    LiveWindow(p, s, a);
    LiveWindow(p, s, b);
    var i, j := s.agents[a].index, s.agents[b].index;
    assert Owns(s.agents, a, s.agents[a].role, i) && Owns(s.agents, b, s.agents[b].role, j);
    assert i != j;
    if i < j {
      DistinctSlots(i, j, p.itemCount);
    } else {
      DistinctSlots(j, i, p.itemCount);
    }
  }

  /** Live guards stay inside one window of itemCount indices, split at the send count. */
  lemma LiveWindow(p: Params, s: State, a: AgentId)
    requires Inv(p, s) && IsLive(s, a)
    ensures match s.agents[a].role
            case Send => s.Done(Send) <= s.agents[a].index < s.Done(Recv) + p.itemCount
            case Recv => s.Done(Recv) <= s.agents[a].index < s.Done(Send)
  {
    IndexBounds(p, s, a);
  }

  function Owners(agents: Agents, role: Role): set<AgentId> {
    set a | a in agents && agents[a].role == role
  }

  /** The claimed and unfinished indices of a role number exactly its agents. */
  lemma {:induction false} OwnershipExact(agents: Agents, role: Role, done: int, next: int)
    requires done <= next
    requires InRange(agents, role, done, next) && Distinct(agents, role) && Covered(agents, role, done, next)
    ensures |Owners(agents, role)| == next - done
    decreases next - done
  {
    var owners := Owners(agents, role);
    if done == next {
      forall a | a in owners
        ensures false
      {
        assert Owns(agents, a, role, agents[a].index);
      }
      assert owners == {};
    } else {
      assert HasOwner(agents, role, next - 1);
      var top: AgentId :| Owns(agents, top, role, next - 1);
      var others := agents - {top};
      assert forall b: AgentId, i: int :: Owns(others, b, role, i) ==> b != top && Owns(agents, b, role, i);
      OthersStayCovered(agents, top, role, done, next - 1);
      OwnershipExact(others, role, done, next - 1);
      assert owners == Owners(others, role) + {top};
    }
  }
}
