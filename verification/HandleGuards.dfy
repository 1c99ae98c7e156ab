/**
  Passing handles on Windows: a handle is duplicated into the receiving process while the
  message is serialised.  A guard keeps the duplicates in a thread-local sender, takes them as
  delivered when it commits, and closes them when it is dropped without a commit.  Scopes nest,
  because serialising a message may itself serialise one for another channel.
 */
module HandleGuards {
  import opened Wrappers

  type Handle = nat

  /** Where duplicates go; a pipe may not be configured to send handles at all. */
  datatype Target = NoTarget | CurrentProcess | RemoteProcess(id: nat)

  /** What happens under a guard: handles are sent, or a whole inner scope runs. */
  datatype Action =
    | Send(dup: Option<Handle>)  // what duplicating the handle comes to
    | Inner(scope: Scope, passesFailure: bool)

  /** One serialisation: its actions, and whether it fails after them for a reason of its own. */
  datatype Scope = Scope(target: Target, actions: seq<Action>, fails: bool)

  /** What became of the duplicates made: left to the receiver, or closed again, in order. */
  datatype Outcome = Outcome(ok: bool, delivered: seq<Handle>, closed: seq<Handle>)

  // ---------- the specification ----------

  /** HandleSender::send. */
  function Duplicate(target: Target, dup: Option<Handle>): Option<Handle> {
    if target == NoTarget then None else dup
  }

  /** Everything the actions do until the first failure, on top of the handles held so far. */
  function Acts(target: Target, actions: seq<Action>, held: seq<Handle>): (bool, seq<Handle>, Outcome)
    decreases actions
  {
    if actions == [] then (true, held, Outcome(true, [], []))
    else
      match actions[0]
      case Send(dup) =>
        (match Duplicate(target, dup)
         case None => (false, held, Outcome(true, [], []))
         case Some(handle) => Acts(target, actions[1..], held + [handle]))
      case Inner(scope, passesFailure) =>
        assert scope < actions[0];
        var inner := RunScope(scope);
        if !inner.ok && passesFailure then (false, held, inner)
        else
          var (ok, after, rest) := Acts(target, actions[1..], held);
          (ok, after, Outcome(true, inner.delivered + rest.delivered, inner.closed + rest.closed))
  }

  function RunScope(scope: Scope): Outcome
    decreases scope, 0
  {
    var (ok, held, below) := Acts(scope.target, scope.actions, []);
    if ok && !scope.fails then Outcome(true, below.delivered + held, below.closed)
    else Outcome(false, below.delivered, below.closed + Closing(scope.target, held))
  }

  /** What dropping a sender closes. */
  function Closing(target: Target, held: seq<Handle>): seq<Handle> {
    if target == NoTarget then [] else held
  }

  // ---------- the code ----------

  class HandleSender {
    const target: Target
    var handles: seq<Handle>

    constructor (target: Target)
      ensures this.target == target && handles == []
    {
      this.target := target;
      handles := [];
    }
  }

  /** A thread: the sender its serialisers use now, and a record of the handles it closed. */
  class Thread {
    var current: HandleSender?
    var closed: seq<Handle>

    /** before_serialize: installs a fresh sender and returns the guard, which keeps the old one. */
    method BeforeSerialize(target: Target) returns (saved: HandleSender?)
      modifies this
      ensures saved == old(current)
      ensures current != null && fresh(current) && current.target == target && current.handles == []
      ensures closed == old(closed)
    {
      saved := current;
      current := new HandleSender(target);
    }

    method Send(dup: Option<Handle>) returns (ok: bool)
      requires current != null
      modifies current
      ensures ok <==> current.target != NoTarget && dup.Some?
      ensures current.handles == old(current.handles) + if ok then [dup.value] else []
    {
      if current.target == NoTarget || dup.None? {
        return false;
      }
      current.handles := current.handles + [dup.value];
      return true;
    }

    /** Dropping a sender closes what it still holds. */
    method DropSender(sender: HandleSender)
      modifies this`closed
      ensures closed == old(closed) + if sender.target == NoTarget then [] else sender.handles
    {
      if sender.target != NoTarget {
        var i := 0;
        while i < |sender.handles|
          invariant 0 <= i <= |sender.handles|
          invariant closed == old(closed) + sender.handles[..i]
        {
          closed := closed + [sender.handles[i]];
          i := i + 1;
        }
        assert sender.handles[..i] == sender.handles;
      }
    }

    /** Dropping the guard puts the saved sender back, and so drops the one in use. */
    method DropGuard(saved: HandleSender?)
      requires current != null
      modifies this
      ensures current == saved
      ensures closed == old(closed) + if old(current).target == NoTarget then [] else old(current.handles)
    {
      var dropped := current;
      current := saved;
      DropSender(dropped);
    }

    /** commit consumes the guard: it forgets the handles, and then the guard is dropped. */
    method Commit(saved: HandleSender?)
      requires current != null
      modifies this, current
      ensures current == saved
      ensures closed == old(closed)
    {
      current.handles := [];
      DropGuard(saved);
      assert Closing(old(current).target, []) == [];
    }

    /** One serialisation from its guard's creation to its end. */
    method Serialize(scope: Scope) returns (ok: bool, ghost delivered: seq<Handle>)
      modifies this
      ensures current == old(current)
      ensures old(closed) <= closed
      ensures Outcome(ok, delivered, closed[|old(closed)|..]) == RunScope(scope)
      decreases scope, 0
    {
      var saved := BeforeSerialize(scope.target);
      ghost var below;
      ok, below := Perform(scope.actions);
      ghost var held := current.handles;
      if ok && !scope.fails {
        Commit(saved);
        delivered := below + held;
      } else {
        DropGuard(saved);
        ok, delivered := false, below;
      }
    }

    /** What the serialiser does under the guard, up to the first failure. */
    method Perform(actions: seq<Action>) returns (ok: bool, ghost delivered: seq<Handle>)
      requires current != null
      modifies this, current
      ensures current == old(current) && old(closed) <= closed
      ensures (ok, current.handles, Outcome(true, delivered, closed[|old(closed)|..])) ==
              var (ok', held, below) := Acts(current.target, actions, old(current.handles));
              (ok', held, below.(ok := true))
      decreases actions
    {
      if actions == [] {
        assert closed[|old(closed)|..] == [];
        return true, [];
      }
      match actions[0] {
        case Send(dup) =>
          var sent := Send(dup);
          if !sent {
            assert closed[|old(closed)|..] == [] && current.handles == old(current.handles);
            return false, [];
          }
          ok, delivered := Perform(actions[1..]);
        case Inner(scope, passesFailure) =>
          var innerOk;
          ghost var inner;
          assert scope < actions[0];
          innerOk, inner := Serialize(scope);
          ghost var middle := closed;
          if !innerOk && passesFailure {
            return false, inner;
          }
          ghost var rest;
          ok, rest := Perform(actions[1..]);
          delivered := inner + rest;
          assert closed[|old(closed)|..] == middle[|old(closed)|..] + closed[|middle|..];
      }
    }
  }

  // ---------- conservation ----------

  /** The handles duplicated by the actions up to the first failure, including inner scopes. */
  function MadeBy(target: Target, actions: seq<Action>): multiset<Handle>
    decreases actions
  {
    if actions == [] then multiset{}
    else
      match actions[0]
      case Send(dup) =>
        (match Duplicate(target, dup)
         case None => multiset{}
         case Some(handle) => multiset{handle} + MadeBy(target, actions[1..]))
      case Inner(scope, passesFailure) =>
        assert scope < actions[0];
        Made(scope) + if !RunScope(scope).ok && passesFailure then multiset{} else MadeBy(target, actions[1..])
  }

  function Made(scope: Scope): multiset<Handle>
    decreases scope, 0
  {
    MadeBy(scope.target, scope.actions)
  }

  /** The handles accounted for by an outcome. */
  function Settled(outcome: Outcome): multiset<Handle> {
    multiset(outcome.delivered) + multiset(outcome.closed)
  }

  /** Every duplicate ever made is either delivered or closed, exactly once. */
  lemma {:induction false} HandlesConserved(scope: Scope)
    ensures Made(scope) == Settled(RunScope(scope))
    decreases scope, 0
  {
    ActsConserve(scope.target, scope.actions, []);
    if scope.target == NoTarget {
      NothingHeldWithoutTarget(scope.target, scope.actions, []);
    }
    var (ok, held, below) := Acts(scope.target, scope.actions, []);
    assert multiset(below.delivered + held) == multiset(below.delivered) + multiset(held);
    assert multiset(below.closed + held) == multiset(below.closed) + multiset(held);
    var none: seq<Handle> := [];
    assert multiset(none) == multiset{};
    assert Made(scope) == multiset(held) + Settled(below);
    var outcome := RunScope(scope);
    if outcome.ok {
      assert outcome.delivered == below.delivered + held && outcome.closed == below.closed;
    } else {
      assert outcome.delivered == below.delivered && outcome.closed == below.closed + held;
    }
  }

  lemma {:induction false} ActsConserve(target: Target, actions: seq<Action>, held: seq<Handle>)
    ensures multiset(held) + MadeBy(target, actions) ==
            multiset(Acts(target, actions, held).1) + Settled(Acts(target, actions, held).2)
    decreases actions
  {
    if actions == [] {
      NothingSettled(Acts(target, actions, held).2);
    } else {
      match actions[0]
      case Send(dup) =>
        if Duplicate(target, dup).None? {
          NothingSettled(Acts(target, actions, held).2);
        } else {
          ActsConserve(target, actions[1..], held + [dup.value]);
          assert multiset(held + [dup.value]) == multiset(held) + multiset{dup.value};
        }
      case Inner(scope, passesFailure) =>
        assert scope < actions[0];
        HandlesConserved(scope);
        if RunScope(scope).ok || !passesFailure {
          ActsConserve(target, actions[1..], held);
        }
        InnerConserves(target, actions, held);
    }
  }

  lemma InnerConserves(target: Target, actions: seq<Action>, held: seq<Handle>)
    requires actions != [] && actions[0].Inner?
    requires Made(actions[0].scope) == Settled(RunScope(actions[0].scope))
    requires RunScope(actions[0].scope).ok || !actions[0].passesFailure ==>
               multiset(held) + MadeBy(target, actions[1..]) ==
               multiset(Acts(target, actions[1..], held).1) + Settled(Acts(target, actions[1..], held).2)
    ensures multiset(held) + MadeBy(target, actions) ==
            multiset(Acts(target, actions, held).1) + Settled(Acts(target, actions, held).2)
  {
    var inner := RunScope(actions[0].scope);
    if inner.ok || !actions[0].passesFailure {
      var (ok, after, rest) := Acts(target, actions[1..], held);
      SettledTogether(inner, rest);
      Regroup(multiset(held), MadeBy(target, actions[1..]), multiset(after), Settled(rest), Settled(inner));
    }
  }

  lemma Regroup(a: multiset<Handle>, b: multiset<Handle>, c: multiset<Handle>, d: multiset<Handle>, e: multiset<Handle>)
    requires a + b == c + d
    ensures a + (e + b) == c + (e + d)
  {
    assert a + (e + b) == (a + b) + e;
  }

  lemma NothingSettled(outcome: Outcome)
    requires outcome.delivered == [] && outcome.closed == []
    ensures Settled(outcome) == multiset{}
  {
  }

  lemma SettledTogether(first: Outcome, second: Outcome)
    ensures Settled(Outcome(true, first.delivered + second.delivered, first.closed + second.closed)) ==
            Settled(first) + Settled(second)
  {
  }

  lemma {:induction false} NothingHeldWithoutTarget(target: Target, actions: seq<Action>, held: seq<Handle>)
    requires target == NoTarget
    ensures Acts(target, actions, held).1 == held
    decreases actions
  {
    if actions != [] && actions[0].Inner? {
      NothingHeldWithoutTarget(target, actions[1..], held);
    }
  }

  // ---------- who closes what ----------

  /** Whether a scope commits, read off its actions: nothing it depends on fails. */
  predicate Commits(scope: Scope)
    decreases scope, 0
  {
    !scope.fails && AllPass(scope.target, scope.actions)
  }

  /** The action lets its scope go on. */
  predicate Passes(target: Target, action: Action)
    decreases action, 1
  {
    match action
    case Send(dup) => target != NoTarget && dup.Some?
    case Inner(scope, passesFailure) => !passesFailure || Commits(scope)
  }

  predicate AllPass(target: Target, actions: seq<Action>)
    decreases actions
  {
    actions == [] || (Passes(target, actions[0]) && AllPass(target, actions[1..]))
  }

  /** The actions that take place: those before the first that does not pass, and that one. */
  function Performed(target: Target, actions: seq<Action>): seq<Action> {
    if actions == [] then []
    else if Passes(target, actions[0]) then [actions[0]] + Performed(target, actions[1..])
    else [actions[0]]
  }

  function OwnOf(target: Target, action: Action): seq<Handle> {
    if action.Send? && target != NoTarget && action.dup.Some? then [action.dup.value] else []
  }

  /** The handles duplicated by the actions themselves, not by scopes inside. */
  function OwnHandles(target: Target, performed: seq<Action>): seq<Handle> {
    if performed == [] then [] else OwnOf(target, performed[0]) + OwnHandles(target, performed[1..])
  }

  function DeliveredBy(action: Action): seq<Handle> {
    if action.Inner? then RunScope(action.scope).delivered else []
  }

  function ClosedBy(action: Action): seq<Handle> {
    if action.Inner? then RunScope(action.scope).closed else []
  }

  /** What became of the handles of the scopes inside, one scope after the other. */
  function DeliveredInside(performed: seq<Action>): seq<Handle> {
    if performed == [] then [] else DeliveredBy(performed[0]) + DeliveredInside(performed[1..])
  }

  function ClosedInside(performed: seq<Action>): seq<Handle> {
    if performed == [] then [] else ClosedBy(performed[0]) + ClosedInside(performed[1..])
  }

  lemma NothingBefore(handles: seq<Handle>)
    ensures [] + handles == handles
  {
  }

  lemma NothingAfter(handles: seq<Handle>)
    ensures handles + [] == handles
  {
  }

  /**
    A scope commits iff nothing it depends on fails.  A commit delivers all of its own handles
    and closes none, a failure does the reverse, and the handles of the scopes inside are not
    touched again.
   */
  lemma {:induction false} GuardOutcome(scope: Scope)
    ensures var done := Performed(scope.target, scope.actions);
            var own := OwnHandles(scope.target, done);
            RunScope(scope) ==
            Outcome(Commits(scope),
                    DeliveredInside(done) + (if Commits(scope) then own else []),
                    ClosedInside(done) + (if Commits(scope) then [] else own))
    decreases scope, 0
  {
    ActsPerform(scope.target, scope.actions, []);
    NothingBefore(OwnHandles(scope.target, Performed(scope.target, scope.actions)));
    if scope.target == NoTarget {
      NothingHeldWithoutTarget(scope.target, scope.actions, []);
    }
    var (ok, held, below) := Acts(scope.target, scope.actions, []);
    assert Closing(scope.target, held) == held == OwnHandles(scope.target, Performed(scope.target, scope.actions));
    assert (ok && !scope.fails) == Commits(scope);
    NothingAfter(below.delivered);
    NothingAfter(below.closed);
  }

  /** The actions before one, or only it, according to whether it passes. */
  lemma PerformedFirst(target: Target, actions: seq<Action>)
    requires actions != []
    ensures var done := Performed(target, actions);
            var rest := if Passes(target, actions[0]) then Performed(target, actions[1..]) else [];
            && OwnHandles(target, done) == OwnOf(target, actions[0]) + OwnHandles(target, rest)
            && DeliveredInside(done) == DeliveredBy(actions[0]) + DeliveredInside(rest)
            && ClosedInside(done) == ClosedBy(actions[0]) + ClosedInside(rest)
  {
    var rest := if Passes(target, actions[0]) then Performed(target, actions[1..]) else [];
    assert Performed(target, actions) == [actions[0]] + rest;
    assert ([actions[0]] + rest)[1..] == rest;
  }

  /** The specification of the actions agrees with what is read off the list. */
  predicate Agrees(target: Target, actions: seq<Action>, held: seq<Handle>) {
    var done := Performed(target, actions);
    var (ok, after, inside) := Acts(target, actions, held);
    && ok == AllPass(target, actions)
    && after == held + OwnHandles(target, done)
    && inside.delivered == DeliveredInside(done)
    && inside.closed == ClosedInside(done)
  }

  lemma SendActs(target: Target, actions: seq<Action>, held: seq<Handle>)
    requires actions != [] && actions[0].Send? && Passes(target, actions[0])
    ensures Acts(target, actions, held) == Acts(target, actions[1..], held + [actions[0].dup.value])
  {
  }

  lemma OneMore(held: seq<Handle>, handle: Handle, own: seq<Handle>)
    ensures held + [handle] + own == held + ([handle] + own)
  {
  }

  lemma SendFirst(target: Target, actions: seq<Action>)
    requires actions != [] && actions[0].Send? && Passes(target, actions[0])
    ensures var done, rest := Performed(target, actions), Performed(target, actions[1..]);
            && OwnHandles(target, done) == [actions[0].dup.value] + OwnHandles(target, rest)
            && DeliveredInside(done) == DeliveredInside(rest)
            && ClosedInside(done) == ClosedInside(rest)
    ensures AllPass(target, actions) == AllPass(target, actions[1..])
  {
    PerformedFirst(target, actions);
    assert DeliveredBy(actions[0]) == [] && ClosedBy(actions[0]) == [];
    NothingBefore(DeliveredInside(Performed(target, actions[1..])));
    NothingBefore(ClosedInside(Performed(target, actions[1..])));
  }

  lemma SendPassed(target: Target, actions: seq<Action>, held: seq<Handle>)
    requires actions != [] && actions[0].Send? && Passes(target, actions[0])
    requires Agrees(target, actions[1..], held + [actions[0].dup.value])
    ensures Agrees(target, actions, held)
  {
    SendFirst(target, actions);
    SendActs(target, actions, held);
    OneMore(held, actions[0].dup.value, OwnHandles(target, Performed(target, actions[1..])));
    var rest := Acts(target, actions[1..], held + [actions[0].dup.value]);
    assert Acts(target, actions, held) == (rest.0, rest.1, rest.2);
    assert rest.1 == held + OwnHandles(target, Performed(target, actions));
  }

  lemma SendFailed(target: Target, actions: seq<Action>, held: seq<Handle>)
    requires actions != [] && actions[0].Send? && !Passes(target, actions[0])
    ensures Agrees(target, actions, held)
  {
    assert Performed(target, actions) == [actions[0]];
    assert Acts(target, actions, held) == (false, held, Outcome(true, [], []));
  }

  lemma InnerPassed(target: Target, actions: seq<Action>, held: seq<Handle>)
    requires actions != [] && actions[0].Inner? && Passes(target, actions[0])
    requires RunScope(actions[0].scope).ok == Commits(actions[0].scope)
    requires Agrees(target, actions[1..], held)
    ensures Agrees(target, actions, held)
  {
    PerformedFirst(target, actions);
    var inner := RunScope(actions[0].scope);
    var rest := Acts(target, actions[1..], held);
    assert Acts(target, actions, held) ==
           (rest.0, rest.1, Outcome(true, inner.delivered + rest.2.delivered, inner.closed + rest.2.closed));
    var own := OwnHandles(target, Performed(target, actions[1..]));
    assert [] + own == own;
  }

  lemma InnerFailed(target: Target, actions: seq<Action>, held: seq<Handle>)
    requires actions != [] && actions[0].Inner? && !Passes(target, actions[0])
    requires RunScope(actions[0].scope).ok == Commits(actions[0].scope)
    ensures Agrees(target, actions, held)
  {
    var inner := RunScope(actions[0].scope);
    assert Performed(target, actions) == [actions[0]];
    assert Acts(target, actions, held) == (false, held, inner);
  }

  lemma {:induction false} ActsPerform(target: Target, actions: seq<Action>, held: seq<Handle>)
    ensures Agrees(target, actions, held)
    decreases actions
  {
    if actions != [] {
      match actions[0]
      case Send(dup) =>
        if Passes(target, actions[0]) {
          ActsPerform(target, actions[1..], held + [dup.value]);
          SendPassed(target, actions, held);
        } else {
          SendFailed(target, actions, held);
        }
      case Inner(scope, passesFailure) =>
        assert scope < actions[0];
        GuardOutcome(scope);
        if Passes(target, actions[0]) {
          ActsPerform(target, actions[1..], held);
          InnerPassed(target, actions, held);
        } else {
          InnerFailed(target, actions, held);
        }
    }
  }

  /** If every scope in a tree commits, nothing is closed. */
  lemma {:induction false} AllCommittedClosesNothing(scope: Scope)
    requires AllCommit(scope)
    ensures RunScope(scope).ok && RunScope(scope).closed == []
    ensures Made(scope) == multiset(RunScope(scope).delivered)
    decreases scope, 0
  {
    CommittedActs(scope.target, scope.actions, []);
    HandlesConserved(scope);
  }

  predicate AllCommit(scope: Scope)
    decreases scope, 0
  {
    !scope.fails && AllSucceed(scope.target, scope.actions)
  }

  predicate AllSucceed(target: Target, actions: seq<Action>)
    decreases actions
  {
    actions == [] ||
    (AllSucceed(target, actions[1..]) &&
     match actions[0]
     case Send(dup) => Duplicate(target, dup).Some?
     case Inner(scope, _) => assert scope < actions[0]; AllCommit(scope))
  }

  lemma {:induction false} CommittedActs(target: Target, actions: seq<Action>, held: seq<Handle>)
    requires AllSucceed(target, actions)
    ensures Acts(target, actions, held).0 && Acts(target, actions, held).2.closed == []
    decreases actions
  {
    if actions != [] {
      match actions[0]
      case Send(dup) => CommittedActs(target, actions[1..], held + [dup.value]);
      case Inner(scope, _) =>
        assert scope < actions[0];
        AllCommittedClosesNothing(scope);
        CommittedActs(target, actions[1..], held);
    }
  }
}
