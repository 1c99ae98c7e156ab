/**
  The queue as the code has it: a class over the bytes of a shared mapping, used by one thread
  that may keep several guards.  The model state of the transition system is a function of the
  fields.  The contract of each method gives the model state it leads to, and GrantIsRun,
  RefusedIsRun, WriteIsRun and DropIsRun show that steps of the system lead there too, so all
  that holds of its states and runs holds here; a read changes no state of the system.
 */
module QueueMemory {
  import opened Words
  import opened Wrappers
  import opened SharedQueue
  import opened SharedQueueInvariant
  import opened SharedQueueRuns
  import L = Layout
  import P = SharedQueueProgress

  // ---------- one call with nobody else running ----------

  /** A fresh claim is on top, and is cleared exactly when its index is below the limit. */
  lemma ClaimAlone(p: Params, s: State, me: AgentId, role: Role)
    requires Inv(p, s) && Enabled(p, s, Claim(me, role))
    ensures var t := Apply(p, s, Claim(me, role));
            && Inv(p, t)
            && t.agents == s.agents[me := Agent(role, s.At(role).next, Checking)]
            && t.At(role).next == s.At(role).next + 1
            && (IsClear(p, t, me) <==> s.At(role).next < Limit(p, s, role))
  {
    var t := Apply(p, s, Claim(me, role));
    StepKeepsInv(p, s, Claim(me, role));
    TestsExact(p, t, me);
    assert t.Done(Send) == s.Done(Send) && t.Done(Recv) == s.Done(Recv);
  }

  /** The steps of a call that ends with a guard. */
  function GrantSteps(me: AgentId, role: Role): seq<Event> {
    if role == Send then [Claim(me, Send), Check(me)] else [Claim(me, Recv), Check(me), LoadPoison(me)]
  }

  /** The state after a call that ends with a guard. */
  function AfterGrant(p: Params, s: State, me: AgentId, role: Role): State
    requires Inv(p, s) && Enabled(p, s, Claim(me, role))
  {
    Apply(p, s, Claim(me, role)).Move(me, Holding)
  }

  /** A grant keeps the invariant and leaves what is pending as it was. */
  lemma GrantAlone(p: Params, s: State, me: AgentId, role: Role)
    requires Inv(p, s) && Enabled(p, s, Claim(me, role)) && s.At(role).next < Limit(p, s, role)
    ensures Inv(p, AfterGrant(p, s, me, role))
    ensures Pending(AfterGrant(p, s, me, role)) == Pending(s)
  {
    ClaimAlone(p, s, me, role);
    var t := Apply(p, s, Claim(me, role));
    MoveKeepsInv(p, t, me, Holding);
    var u := AfterGrant(p, s, me, role);
    assert u.Done(Send) == s.Done(Send) && u.Done(Recv) == s.Done(Recv) && u.slots == s.slots;
  }

  /** The state after a grant is the one those steps of the transition system lead to. */
  lemma GrantIsRun(p: Params, s: State, me: AgentId, role: Role)
    requires Inv(p, s) && Enabled(p, s, Claim(me, role)) && s.At(role).next < Limit(p, s, role)
    ensures Exec(p, s, GrantSteps(me, role)) == Some(AfterGrant(p, s, me, role))
  {
    ClaimAlone(p, s, me, role);
    var t := Apply(p, s, Claim(me, role));
    CheckGrants(p, t, me);
    ExecPair(p, s, Claim(me, role), Check(me));
    if role == Recv {
      assert GrantSteps(me, Recv)[..2] == [Claim(me, Recv), Check(me)];
    }
  }

  lemma CheckGrants(p: Params, t: State, me: AgentId)
    requires Inv(p, t) && Enabled(p, t, Check(me)) && IsClear(p, t, me)
    ensures var u := Apply(p, t, Check(me));
            && WellSized(p, u)
            && if t.agents[me].role == Send then u == t.Move(me, Holding)
               else Enabled(p, u, LoadPoison(me)) && Apply(p, u, LoadPoison(me)) == t.Move(me, Holding)
  {
    var u := Apply(p, t, Check(me));
    if t.agents[me].role == Recv {
      assert Apply(p, u, LoadPoison(me)).agents == t.Move(me, Holding).agents;
    }
  }

  lemma ExecPair(p: Params, s: State, e: Event, f: Event)
    requires ValidParams(p) && WellSized(p, s) && Enabled(p, s, e)
    requires WellSized(p, Apply(p, s, e)) && Enabled(p, Apply(p, s, e), f)
    ensures Exec(p, s, [e, f]) == Some(Apply(p, Apply(p, s, e), f))
  {
    assert [e, f][..1] == [e] && [e][..0] == [];
    assert Exec(p, s, [e][..0]) == Some(s);
  }

  /** The steps of a call that is refused after this many give-backs that fail spuriously. */
  function RefusalSteps(me: AgentId, role: Role, failures: nat): seq<Event> {
    [Claim(me, role), Check(me)] + P.Spin(me, failures) + [GiveBack(me, false)]
  }

  /** A refused call leads back to the state it began in. */
  lemma RefusedIsRun(p: Params, s: State, me: AgentId, role: Role, failures: nat)
    requires Inv(p, s) && Enabled(p, s, Claim(me, role)) && s.At(role).next >= Limit(p, s, role)
    ensures Exec(p, s, RefusalSteps(me, role, failures)) == Some(s)
  {
    var u := Apply(p, s, Claim(me, role)).Move(me, Blocked);
    RefusalBegins(p, s, me, role);
    P.SpuriousFailuresSpin(p, u, me, failures);
    ExecConcat(p, s, [Claim(me, role), Check(me)], u, P.Spin(me, failures));
    RefusalEnds(p, s, me, role);
    ExecOnto(p, s, [Claim(me, role), Check(me)] + P.Spin(me, failures), GiveBack(me, false));
  }

  /** The first look finds the index blocked. */
  lemma RefusalBegins(p: Params, s: State, me: AgentId, role: Role)
    requires Inv(p, s) && Enabled(p, s, Claim(me, role)) && s.At(role).next >= Limit(p, s, role)
    ensures var u := Apply(p, s, Claim(me, role)).Move(me, Blocked);
            && Inv(p, u) && !IsClear(p, u, me)
            && Exec(p, s, [Claim(me, role), Check(me)]) == Some(u)
  {
    ClaimAlone(p, s, me, role);
    var t := Apply(p, s, Claim(me, role));
    MoveKeepsInv(p, t, me, Blocked);
    assert Apply(p, t, Check(me)) == t.Move(me, Blocked);
    assert t.Move(me, Blocked).At(Opposite(role)) == t.At(Opposite(role));
    ExecPair(p, s, Claim(me, role), Check(me));
  }

  /** With nobody above, the index is given back, and nothing is left of the call. */
  lemma RefusalEnds(p: Params, s: State, me: AgentId, role: Role)
    requires Inv(p, s) && Enabled(p, s, Claim(me, role))
    ensures var u := Apply(p, s, Claim(me, role)).Move(me, Blocked);
            WellSized(p, u) && Enabled(p, u, GiveBack(me, false)) && Apply(p, u, GiveBack(me, false)) == s
  {
    var u := Apply(p, s, Claim(me, role)).Move(me, Blocked);
    assert Apply(p, u, GiveBack(me, false)).agents == s.agents;
  }

  /** The steps of dropping a guard whose turn it is, after this many commits that fail spuriously. */
  function DropSteps(me: AgentId, panicking: bool, failures: nat): seq<Event> {
    (if panicking then [Drop(me, true), StorePoison(me)] else [Drop(me, false)])
    + P.Attempts(me, true, failures) + [Commit(me, false)]
  }

  /** The state in which only the commit of a dropped guard is left to do. */
  function AboutToCommit(s: State, me: AgentId, panicking: bool): State
    requires me in s.agents
  {
    s.(poison := s.poison || panicking).Move(me, Committing)
  }

  function AfterDrop(p: Params, s: State, me: AgentId, panicking: bool): State
    requires Inv(p, s) && IsLive(s, me)
  {
    Apply(p, AboutToCommit(s, me, panicking), Commit(me, false))
  }

  /** Up to its commit, a drop keeps the invariant and what is pending. */
  lemma AboutToCommitKeeps(p: Params, s: State, me: AgentId, panicking: bool)
    requires Inv(p, s) && IsLive(s, me)
    ensures Inv(p, AboutToCommit(s, me, panicking))
    ensures Pending(AboutToCommit(s, me, panicking)) == Pending(s)
  {
    IndexBounds(p, s, me);
    MoveKeepsInv(p, s, me, Committing);
    var t := AboutToCommit(s, me, panicking);
    SameClaimsInv(p, s.Move(me, Committing), t);
    assert t.Done(Send) == s.Done(Send) && t.Done(Recv) == s.Done(Recv);
  }

  /** Dropping the oldest guard of its role enqueues or dequeues exactly its slot. */
  lemma DropAlone(p: Params, s: State, me: AgentId, panicking: bool)
    requires Inv(p, s) && IsLive(s, me) && s.agents[me].index == s.Done(s.agents[me].role)
    ensures IsTurn(s, me)
    ensures Inv(p, AfterDrop(p, s, me, panicking))
    ensures if s.agents[me].role == Send
            then Pending(AfterDrop(p, s, me, panicking)) == Pending(s) + [s.Slot(s.agents[me].index)]
            else Pending(s) == [s.Slot(s.agents[me].index)] + Pending(AfterDrop(p, s, me, panicking))
  {
    AboutToCommitKeeps(p, s, me, panicking);
    TestsExact(p, s, me);
    var t := AboutToCommit(s, me, panicking);
    assert Finishes(t, Commit(me, false), s.agents[me].role);
    StepRefinesFifo(p, t, Commit(me, false));
  }

  lemma AfterDropIs(p: Params, s: State, me: AgentId, panicking: bool)
    requires Inv(p, s) && IsLive(s, me) && IsTurn(s, me)
    ensures var Agent(role, index, _) := s.agents[me];
            AfterDrop(p, s, me, panicking) ==
            State(if role == Send then Side(s.send.next, index) else s.send,
                  if role == Recv then Side(s.recv.next, index) else s.recv,
                  s.poison || panicking, s.slots, s.agents - {me})
  {
    var t := AboutToCommit(s, me, panicking);
    assert IsTurn(t, me) && t.agents - {me} == s.agents - {me};
  }

  lemma DropIsRun(p: Params, s: State, me: AgentId, panicking: bool, failures: nat)
    requires Inv(p, s) && me in s.agents && s.agents[me].stage == Holding
    ensures Exec(p, s, DropSteps(me, panicking, failures)) == Some(AfterDrop(p, s, me, panicking))
  {
    var t := AboutToCommit(s, me, panicking);
    var first := if panicking then [Drop(me, true), StorePoison(me)] else [Drop(me, false)];
    DropBegins(p, s, me, panicking);
    P.OutOfTurnSpins(p, t, me, true, failures);
    ExecConcat(p, s, first, t, P.Attempts(me, true, failures));
    assert Exec(p, s, first + P.Attempts(me, true, failures)) == Some(t);
    ExecOnto(p, s, first + P.Attempts(me, true, failures), Commit(me, false));
    assert DropSteps(me, panicking, failures) == first + P.Attempts(me, true, failures) + [Commit(me, false)];
    assert Enabled(p, t, Commit(me, false));
  }

  lemma DropBegins(p: Params, s: State, me: AgentId, panicking: bool)
    requires Inv(p, s) && me in s.agents && s.agents[me].stage == Holding
    ensures Exec(p, s, if panicking then [Drop(me, true), StorePoison(me)] else [Drop(me, false)]) ==
            Some(AboutToCommit(s, me, panicking))
  {
    var t := Apply(p, s, Drop(me, panicking));
    if panicking {
      ExecPair(p, s, Drop(me, true), StorePoison(me));
      assert Apply(p, t, StorePoison(me)).agents == AboutToCommit(s, me, true).agents;
    } else {
      P.ExecOne(p, s, Drop(me, false));
    }
  }

  // ---------- partial writes and reads of one slot ----------

  function Min(a: nat, b: nat): (m: nat)
    ensures m <= a && m <= b && (m == a || m == b)
  {
    if a < b then a else b
  }

  /** item with bytes written over it from offset start on. */
  function Overwrite(item: Item, start: nat, bytes: seq<Byte>): (r: Item)
    requires start + |bytes| <= |item|
    ensures |r| == |item|
  {
    item[..start] + bytes + item[start + |bytes|..]
  }

  /** The steps of writing bytes into a slot from an offset on. */
  function WriteSteps(me: AgentId, offset: nat, bytes: seq<Byte>): seq<Event> {
    if bytes == [] then []
    else
      var n := |bytes| - 1;
      WriteSteps(me, offset, bytes[..n]) + [WriteByte(me, offset + n, bytes[n])]
  }

  /** The state after a guard wrote bytes into its slot; all other slots are as before. */
  function AfterWrite(p: Params, s: State, me: AgentId, offset: nat, bytes: seq<Byte>): State
    requires Inv(p, s) && me in s.agents && offset + |bytes| <= p.itemSize
  {
    var k := s.agents[me].index % p.itemCount;
    s.(slots := s.slots[k := Overwrite(s.slots[k], offset, bytes)])
  }

  /** Byte by byte, a write leads to that state. */
  lemma {:induction false} WriteIsRun(p: Params, s: State, me: AgentId, offset: nat, bytes: seq<Byte>)
    requires Inv(p, s) && me in s.agents && s.agents[me] == Agent(Send, s.agents[me].index, Holding)
    requires offset + |bytes| <= p.itemSize
    ensures Exec(p, s, WriteSteps(me, offset, bytes)) == Some(AfterWrite(p, s, me, offset, bytes))
    decreases |bytes|
  {
    var k := s.agents[me].index % p.itemCount;
    if bytes == [] {
      assert Overwrite(s.slots[k], offset, []) == s.slots[k];
      assert s.slots[k := s.slots[k]] == s.slots;
    } else {
      var n := |bytes| - 1;
      WriteIsRun(p, s, me, offset, bytes[..n]);
      ExecOnto(p, s, WriteSteps(me, offset, bytes[..n]), WriteByte(me, offset + n, bytes[n]));
      OverwriteNext(s.slots[k], offset, bytes);
      var t := AfterWrite(p, s, me, offset, bytes[..n]);
      assert t.slots[k] == Overwrite(s.slots[k], offset, bytes[..n]);
      assert Apply(p, t, WriteByte(me, offset + n, bytes[n])).slots == AfterWrite(p, s, me, offset, bytes).slots;
    }
  }

  /** A write keeps the invariant and what is pending. */
  lemma WriteKeeps(p: Params, s: State, me: AgentId, offset: nat, bytes: seq<Byte>)
    requires Inv(p, s) && IsLive(s, me) && s.agents[me].role == Send && offset + |bytes| <= p.itemSize
    ensures Inv(p, AfterWrite(p, s, me, offset, bytes))
    ensures Pending(AfterWrite(p, s, me, offset, bytes)) == Pending(s)
  {
    var t := AfterWrite(p, s, me, offset, bytes);
    HeldSlotNotPending(p, s, me, t.slots[s.agents[me].index % p.itemCount]);
    SameClaimsInv(p, s, t);
  }

  lemma OverwriteNext(item: Item, start: nat, bytes: seq<Byte>)
    requires bytes != [] && start + |bytes| <= |item|
    ensures var n := |bytes| - 1;
            Overwrite(item, start, bytes[..n])[start + n := bytes[n]] == Overwrite(item, start, bytes)
  {
  }

  function Concat(chunks: seq<seq<Byte>>): seq<Byte> {
    if chunks == [] then [] else chunks[0] + Concat(chunks[1..])
  }

  /** The slot after a sequence of writes, each taking up where the last one ended. */
  function WriteChunks(item: Item, start: nat, chunks: seq<seq<Byte>>): Item
    requires start <= |item|
    decreases |chunks|
  {
    if chunks == [] then item
    else
      var part := Cut(chunks[0], |item| - start);
      WriteChunks(Overwrite(item, start, part), start + |part|, chunks[1..])
  }

  /** What a sequence of reads into buffers of the given sizes returns of the bytes that are left. */
  function ReadChunks(left: seq<Byte>, sizes: seq<nat>): seq<seq<Byte>>
    decreases |sizes|
  {
    if sizes == [] then []
    else
      var part := Cut(left, sizes[0]);
      [part] + ReadChunks(left[|part|..], sizes[1..])
  }

  function Total(sizes: seq<nat>): nat {
    if sizes == [] then 0 else sizes[0] + Total(sizes[1..])
  }

  /** Filling a limited room from two pieces is filling it from their concatenation. */
  lemma CutConcat(first: seq<Byte>, second: seq<Byte>, room: nat)
    ensures Cut(first + second, room) == Cut(first, room) + Cut(second, room - |Cut(first, room)|)
  {
  }

  /** Taking some bytes and then more is taking them at once. */
  lemma CutTwice(bytes: seq<Byte>, first: nat, second: nat)
    ensures Cut(bytes, first + second) == Cut(bytes, first) + Cut(bytes[|Cut(bytes, first)|..], second)
  {
  }

  lemma OverwriteTwice(item: Item, start: nat, middle: nat, first: seq<Byte>, second: seq<Byte>, both: seq<Byte>)
    requires middle == start + |first| && both == first + second && middle + |second| <= |item|
    ensures Overwrite(Overwrite(item, start, first), middle, second) == Overwrite(item, start, both)
  {
  }

  lemma OverwriteNothing(item: Item, start: nat)
    requires start <= |item|
    ensures Overwrite(item, start, []) == item
  {
  }

  /** However it is cut up, what is written is the prefix of the byte stream that fits. */
  lemma {:induction false} WritesAreStream(item: Item, start: nat, chunks: seq<seq<Byte>>)
    requires start <= |item|
    ensures WriteChunks(item, start, chunks) == Overwrite(item, start, Cut(Concat(chunks), |item| - start))
    decreases |chunks|
  {
    if chunks == [] {
      OverwriteNothing(item, start);
    } else {
      var room := |item| - start;
      var part := Cut(chunks[0], room);
      var rest := Concat(chunks[1..]);
      assert Concat(chunks) == chunks[0] + rest;
      WritesAreStream(Overwrite(item, start, part), start + |part|, chunks[1..]);
      CutConcat(chunks[0], rest, room);
      OverwriteTwice(item, start, start + |part|, part, Cut(rest, room - |part|), Cut(Concat(chunks), room));
    }
  }

  /** However the buffers are sized, what is read is a prefix of what is left, in order. */
  lemma {:induction false} ReadsAreStream(left: seq<Byte>, sizes: seq<nat>)
    ensures Concat(ReadChunks(left, sizes)) == Cut(left, Total(sizes))
    decreases |sizes|
  {
    if sizes != [] {
      var part := Cut(left, sizes[0]);
      var rest := ReadChunks(left[|part|..], sizes[1..]);
      ReadsAreStream(left[|part|..], sizes[1..]);
      assert ([part] + rest)[1..] == rest;
      CutTwice(left, sizes[0], Total(sizes[1..]));
    }
  }

  /** Partial writes then partial reads give back the written stream, as far as the slot goes. */
  lemma StreamRoundTrip(item: Item, chunks: seq<seq<Byte>>, sizes: seq<nat>)
    requires Total(sizes) <= |item| && Total(sizes) <= |Concat(chunks)|
    ensures |WriteChunks(item, 0, chunks)| == |item|
    ensures Concat(ReadChunks(WriteChunks(item, 0, chunks), sizes)) == Concat(chunks)[..Total(sizes)]
  {
    WritesAreStream(item, 0, chunks);
    OverwriteStarts(item, Cut(Concat(chunks), |item|), Total(sizes));
    ReadsAreStream(WriteChunks(item, 0, chunks), sizes);
  }

  lemma OverwriteStarts(item: Item, bytes: seq<Byte>, n: nat)
    requires n <= |bytes| <= |item|
    ensures |Overwrite(item, 0, bytes)| == |item|
    ensures Overwrite(item, 0, bytes)[..n] == bytes[..n]
  {
  }

  /** With no guard alive a push finds room iff fewer than itemCount items wait, a pop iff any does. */
  lemma NoGuardsAlive(p: Params, s: State)
    requires Inv(p, s) && s.agents == map[]
    ensures s.send.next < Limit(p, s, Send) <==> |Pending(s)| < p.itemCount
    ensures s.recv.next < Limit(p, s, Recv) <==> |Pending(s)| > 0
  {
    assert !HasOwner(s.agents, Send, s.Done(Send)) && !HasOwner(s.agents, Recv, s.Done(Recv));
    assert s.send.next == s.Done(Send) && s.recv.next == s.Done(Recv);
  }

  // ---------- the classes ----------

  datatype CreateError = InsufficientSpace | Misaligned

  class Queue {
    const itemSize: Word
    const itemCount: Word
    const itemOffset: nat
    const base: nat  // where the queue starts in the mapping
    const mem: array<Byte>
    var nextSend: Word
    var lastSent: Word
    var nextRecv: Word
    var lastRecvd: Word
    var poison: bool

    ghost const maxAgents: nat
    ghost var guards: Agents  // the live guards, each under the name it was given

    ghost predicate InMemory() {
      && 0 < itemSize <= itemOffset
      && 0 < itemCount
      && base + L.Scale(itemCount, itemOffset) <= mem.Length
    }

    ghost function Parameters(): Params {
      Params(itemSize, itemCount, maxAgents)
    }

    ghost function SlotBytes(k: nat): (item: Item)
      requires InMemory() && k < itemCount
      reads mem
      ensures |item| == itemSize
    {
      L.Stride(k, itemCount, itemOffset);
      var at := base + L.Scale(k, itemOffset);
      mem[at..at + itemSize]
    }

    ghost function Slots(): (slots: seq<Item>)
      requires InMemory()
      reads mem
      ensures |slots| == itemCount
      ensures forall k :: 0 <= k < itemCount ==> slots[k] == SlotBytes(k) && |slots[k]| == itemSize
    {
      seq(itemCount, k requires 0 <= k < itemCount reads mem => SlotBytes(k))
    }

    ghost function Model(): State
      requires InMemory()
      reads this, mem
    {
      State(Side(nextSend, lastSent), Side(nextRecv, lastRecvd), poison, Slots(), guards)
    }

    ghost predicate Valid()
      reads this, mem
    {
      && InMemory()
      && itemOffset == L.ItemOffset(itemSize)
      && Inv(Parameters(), Model())
      && forall a :: a in guards ==> guards[a].stage == Holding
    }

    /** What is committed and not consumed, oldest first. */
    ghost function Contents(): seq<Item>
      requires Valid()
      reads this, mem
    {
      Pending(Model())
    }

    /** Slot k lies k times the rounded item size from the start of the queue. */
    lemma SlotPlace(k: nat, at: nat)
      requires Valid() && k < itemCount && at == base + k * L.ItemOffset(itemSize)
      ensures at + itemSize <= mem.Length
      ensures SlotBytes(k) == mem[at..at + itemSize]
    {
      L.Stride(k, itemCount, itemOffset);
      L.ScaleIsProduct(k, itemOffset);
    }

    constructor Place(itemSize: Word, itemCount: Word, memory: array<Byte>, offset: nat, ghost maxAgents: nat)
      requires L.RequiredSize(itemSize, itemCount).Some?
      requires offset + L.RequiredSize(itemSize, itemCount).value <= memory.Length
      requires itemCount + maxAgents < HALF
      ensures Valid() && mem == memory && base == offset && this.maxAgents == maxAgents
      ensures this.itemSize == itemSize && this.itemCount == itemCount
      ensures Initial(Parameters(), Model())
    {
      this.itemSize, this.itemCount, this.itemOffset := itemSize, itemCount, L.ItemOffset(itemSize);
      this.base, this.mem, this.maxAgents := offset, memory, maxAgents;
      nextSend, lastSent, nextRecv, lastRecvd, poison := 0, MAX_WORD, 0, MAX_WORD, false;
      guards := map[];
      new;
      L.SizesFit(itemSize, itemCount);
      assert InMemory();
      InitialInv(Parameters(), Model());
    }

    static method NewWithMemory(itemSize: Word, itemCount: Word, memory: array<Byte>, pointer: nat, offset: nat,
                                ghost maxAgents: nat)
      returns (r: Result<Queue, CreateError>)
      requires L.RequiredSize(itemSize, itemCount).Some?
      requires itemCount + maxAgents < HALF
      ensures r.Ok? <==> offset + L.RequiredSize(itemSize, itemCount).value <= memory.Length
                         && (pointer + offset) % L.USIZE_SIZE == 0
      ensures r.Err? ==> (r.error == InsufficientSpace <==>
                          memory.Length < offset + L.RequiredSize(itemSize, itemCount).value)
      ensures r.Ok? ==> r.value.base == offset && r.value.itemSize == itemSize && r.value.itemCount == itemCount
      ensures r.Ok? ==> fresh(r.value) && r.value.Valid() && r.value.mem == memory
                        && r.value.maxAgents == maxAgents && Initial(r.value.Parameters(), r.value.Model())
    {
      var size := L.RequiredSize(itemSize, itemCount).value;
      if memory.Length < offset + size {
        return Err(InsufficientSpace);
      }
      if (pointer + offset) % L.USIZE_SIZE != 0 {
        return Err(Misaligned);
      }
      var queue := new Queue.Place(itemSize, itemCount, memory, offset, maxAgents);
      return Ok(queue);
    }

    /**
      The claiming loop of try_push.  failures says how many compare-exchanges fail although
      the value matched; with nobody else running, the value always matches.
     */
    method ClaimSend(failures: nat) returns (sendIndex: Word, cleared: bool)
      requires nextSend != MAX_WORD
      modifies `nextSend
      ensures sendIndex == old(nextSend)
      ensures cleared == SendClear(itemCount, sendIndex, lastRecvd)
      ensures nextSend == if cleared then sendIndex + 1 else sendIndex
    {
      sendIndex := nextSend;
      nextSend := Wrap(sendIndex + 1);
      var left := failures;
      while true
        invariant nextSend == sendIndex + 1
        decreases left
      {
        var loaded := lastRecvd;
        if SendClear(itemCount, sendIndex, loaded) {
          return sendIndex, true;
        }
        if left == 0 && nextSend == Wrap(sendIndex + 1) {
          nextSend := sendIndex;
          return sendIndex, false;
        }
        left := left - 1;
      }
    }

    method TryPush(ghost me: AgentId, failures: nat) returns (guard: PushGuard?)
      requires Valid()
      requires nextSend != MAX_WORD
      requires me !in guards && |guards| < maxAgents
      modifies this
      ensures Valid()
      ensures guard != null <==> old(nextSend < Limit(Parameters(), Model(), Send))
      ensures Model() == if guard == null then old(Model()) else AfterGrant(Parameters(), old(Model()), me, Send)
      ensures guard != null ==> fresh(guard) && guard.IsNew(this, old(nextSend), me)
      ensures Contents() == old(Contents())
      ensures old(guards) == map[] ==> (guard != null <==> |old(Contents())| < itemCount)
    {
      ghost var p, before := Parameters(), Model();
      if guards == map[] {
        NoGuardsAlive(p, before);
      }
      ClaimAlone(p, before, me, Send);
      var sendIndex, cleared := ClaimSend(failures);
      if !cleared {
        assert Model() == before;
        return null;
      }
      GrantAlone(p, before, me, Send);
      guards := guards[me := Agent(Send, sendIndex, Holding)];
      assert guards == AfterGrant(p, before, me, Send).agents;
      assert Model() == AfterGrant(p, before, me, Send);
      guard := new PushGuard(this, sendIndex, me);
    }

    /** The loop with which a dropped PushGuard moves last_sent_index. */
    method CommitSend(sendIndex: Word, failures: nat)
      requires lastSent == Wrap(sendIndex - 1)
      modifies `lastSent
      ensures lastSent == sendIndex
    {
      var left := failures;
      while true
        invariant lastSent == Wrap(sendIndex - 1)
        decreases left
      {
        if left == 0 && lastSent == Wrap(sendIndex - 1) {
          lastSent := sendIndex;
          return;
        }
        left := left - 1;
      }
    }

    /** The loop with which a dropped PopGuard moves last_recvd_index. */
    method CommitRecv(recvIndex: Word, failures: nat)
      requires lastRecvd == Wrap(recvIndex - 1)
      modifies `lastRecvd
      ensures lastRecvd == recvIndex
    {
      var left := failures;
      while true
        invariant lastRecvd == Wrap(recvIndex - 1)
        decreases left
      {
        if left == 0 && lastRecvd == Wrap(recvIndex - 1) {
          lastRecvd := recvIndex;
          return;
        }
        left := left - 1;
      }
    }

    /** The position of slot k in the mapping. */
    method SlotAt(k: nat) returns (at: nat)
      ensures at == base + L.Scale(k, itemOffset)
    {
      L.ScaleIsProduct(k, itemOffset);
      at := base + k * itemOffset;
    }

    /** Different slots lie one after the other, inside the mapping. */
    lemma SlotsApart(k: nat, l: nat)
      requires InMemory() && k < itemCount && l < itemCount && k != l
      ensures L.Scale(k, itemOffset) + itemSize <= L.Scale(l, itemOffset)
              || L.Scale(l, itemOffset) + itemSize <= L.Scale(k, itemOffset)
      ensures base + L.Scale(l, itemOffset) + itemSize <= mem.Length
    {
      L.Stride(l, itemCount, itemOffset);
      if k < l {
        L.Stride(k, l, itemOffset);
      } else {
        L.Stride(l, k, itemOffset);
      }
    }

    /** Copies bytes into a slot, as the slice copy of Write does. */
    method CopyIn(k: nat, start: nat, bytes: seq<Byte>)
      requires InMemory() && k < itemCount && start + |bytes| <= itemSize
      modifies mem
      ensures Slots() == old(Slots()[k := Overwrite(Slots()[k], start, bytes)])
    {
      L.Stride(k, itemCount, itemOffset);
      var at := SlotAt(k);
      at := at + start;
      forall i | 0 <= i < |bytes| {
        mem[at + i] := bytes[i];
      }
      forall l: nat | l < itemCount && l != k
        ensures SlotBytes(l) == old(SlotBytes(l))
      {
        SlotsApart(k, l);
      }
      assert SlotBytes(k) == Overwrite(old(SlotBytes(k)), start, bytes);
      ghost var after := old(Slots())[k := Overwrite(old(Slots())[k], start, bytes)];
      assert forall l: nat :: l < itemCount ==> Slots()[l] == after[l];
    }

    /** Copies bytes out of a slot, as the slice copy of Read does. */
    method CopyOut(k: nat, start: nat, count: nat, buffer: array<Byte>)
      requires InMemory() && k < itemCount && start + count <= itemSize
      requires buffer != mem && count <= buffer.Length
      modifies buffer
      ensures buffer[..] == Slots()[k][start..start + count] + old(buffer[count..])
    {
      L.Stride(k, itemCount, itemOffset);
      var at := SlotAt(k);
      at := at + start;
      forall i | 0 <= i < count {
        buffer[i] := mem[at + i];
      }
      forall i | 0 <= i < count
        ensures buffer[i] == SlotBytes(k)[start + i]
      {
        assert SlotBytes(k)[start + i] == mem[at + i];
      }
      assert buffer[..count] == Slots()[k][start..start + count];
      assert buffer[count..] == old(buffer[count..]);
    }

    /** The claiming loop of try_pop. */
    method ClaimRecv(failures: nat) returns (recvIndex: Word, cleared: bool)
      requires nextRecv != MAX_WORD
      modifies `nextRecv
      ensures recvIndex == old(nextRecv)
      ensures cleared == RecvClear(recvIndex, lastSent)
      ensures nextRecv == if cleared then recvIndex + 1 else recvIndex
    {
      recvIndex := nextRecv;
      nextRecv := Wrap(recvIndex + 1);
      var left := failures;
      while true
        invariant nextRecv == recvIndex + 1
        decreases left
      {
        var loaded := lastSent;
        if RecvClear(recvIndex, loaded) {
          return recvIndex, true;
        }
        if left == 0 && nextRecv == Wrap(recvIndex + 1) {
          nextRecv := recvIndex;
          return recvIndex, false;
        }
        left := left - 1;
      }
    }

    /** The second result is the poison verdict that comes with a guard. */
    method TryPop(ghost me: AgentId, failures: nat) returns (guard: PopGuard?, poisoned: bool)
      requires Valid()
      requires nextRecv != MAX_WORD
      requires me !in guards && |guards| < maxAgents
      modifies this
      ensures Valid()
      ensures guard != null <==> old(nextRecv < Limit(Parameters(), Model(), Recv))
      ensures Model() == if guard == null then old(Model()) else AfterGrant(Parameters(), old(Model()), me, Recv)
      ensures guard != null ==> fresh(guard) && guard.IsNew(this, old(nextRecv), me)
      ensures poisoned <==> guard != null && poison
      ensures Contents() == old(Contents())
      ensures old(guards) == map[] ==> (guard != null <==> |old(Contents())| > 0)
    {
      ghost var p, before := Parameters(), Model();
      if guards == map[] {
        NoGuardsAlive(p, before);
      }
      ClaimAlone(p, before, me, Recv);
      var recvIndex, cleared := ClaimRecv(failures);
      if !cleared {
        assert Model() == before;
        return null, false;
      }
      GrantAlone(p, before, me, Recv);
      guards := guards[me := Agent(Recv, recvIndex, Holding)];
      assert guards == AfterGrant(p, before, me, Recv).agents;
      assert Model() == AfterGrant(p, before, me, Recv);
      poisoned := poison;
      guard := new PopGuard(this, recvIndex, me);
    }
  }

  class PushGuard {
    const queue: Queue
    const sendIndex: Word
    var writeOffset: nat
    ghost const me: AgentId

    ghost predicate Valid()
      reads this, queue, queue.mem
    {
      && queue.Valid()
      && me in queue.guards
      && queue.guards[me] == Agent(Send, sendIndex, Holding)
      && writeOffset <= queue.itemSize
    }

    /** A guard as try_push returns it. */
    ghost predicate IsNew(queue: Queue, sendIndex: Word, me: AgentId)
      reads this
    {
      this.queue == queue && this.sendIndex == sendIndex && this.me == me && writeOffset == 0
    }

    constructor (queue: Queue, sendIndex: Word, ghost me: AgentId)
      ensures IsNew(queue, sendIndex, me)
    {
      this.queue, this.sendIndex, this.me := queue, sendIndex, me;
      writeOffset := 0;
    }

    ghost function Slot(): Item
      requires queue.InMemory()
      reads this, queue, queue.mem
    {
      queue.Slots()[sendIndex % queue.itemCount]
    }

    /** Fills the slot from where the last write ended, as far as the slot goes. */
    method Write(bytes: seq<Byte>) returns (written: nat)
      requires Valid()
      modifies `writeOffset, queue.mem
      ensures Valid()
      ensures written <= |bytes| && (written == |bytes| || writeOffset == queue.itemSize)
      ensures writeOffset == old(writeOffset) + written
      ensures Slot() == Overwrite(old(Slot()), old(writeOffset), bytes[..written])
      ensures queue.Slots() == old(queue.Slots())[sendIndex % queue.itemCount := Slot()]
      ensures queue.Model() ==
              AfterWrite(queue.Parameters(), old(queue.Model()), me, old(writeOffset), bytes[..written])
      ensures queue.Contents() == old(queue.Contents())
    {
      ghost var p, before := queue.Parameters(), queue.Model();
      written := Min(queue.itemSize - writeOffset, |bytes|);
      queue.CopyIn(sendIndex % queue.itemCount, writeOffset, bytes[..written]);
      writeOffset := writeOffset + written;
      WriteKeeps(p, before, me, old(writeOffset), bytes[..written]);
      assert queue.Model() == AfterWrite(p, before, me, old(writeOffset), bytes[..written]);
    }

    /**
      Dropping the guard commits the slot.  Guards must go in the order of their indices: with
      nobody else running, the loop would never end for one whose turn has not come.
     */
    method Drop(panicking: bool, failures: nat)
      requires Valid() && sendIndex == queue.Model().Done(Send)
      modifies queue
      ensures queue.Valid()
      ensures queue.Model() == AfterDrop(queue.Parameters(), old(queue.Model()), me, panicking)
      ensures queue.Contents() == old(queue.Contents()) + [old(Slot())]
      ensures queue.poison == (old(queue.poison) || panicking)
    {
      ghost var p, before := queue.Parameters(), queue.Model();
      DropAlone(p, before, me, panicking);
      AfterDropIs(p, before, me, panicking);
      if panicking {
        queue.poison := true;
      }
      queue.CommitSend(sendIndex, failures);
      queue.guards := queue.guards - {me};
      assert queue.Model() == AfterDrop(p, before, me, panicking);
    }
  }

  class PopGuard {
    const queue: Queue
    const recvIndex: Word
    var readOffset: nat
    ghost const me: AgentId

    ghost predicate Valid()
      reads this, queue, queue.mem
    {
      && queue.Valid()
      && me in queue.guards
      && queue.guards[me] == Agent(Recv, recvIndex, Holding)
      && readOffset <= queue.itemSize
    }

    /** A guard as try_pop returns it. */
    ghost predicate IsNew(queue: Queue, recvIndex: Word, me: AgentId)
      reads this
    {
      this.queue == queue && this.recvIndex == recvIndex && this.me == me && readOffset == 0
    }

    constructor (queue: Queue, recvIndex: Word, ghost me: AgentId)
      ensures IsNew(queue, recvIndex, me)
    {
      this.queue, this.recvIndex, this.me := queue, recvIndex, me;
      readOffset := 0;
    }

    ghost function Slot(): Item
      requires queue.InMemory()
      reads this, queue, queue.mem
    {
      queue.Slots()[recvIndex % queue.itemCount]
    }

    /** Copies out from where the last read ended, as far as the slot goes. */
    method Read(buffer: array<Byte>) returns (count: nat)
      requires Valid() && buffer != queue.mem
      modifies `readOffset, buffer
      ensures Valid()
      ensures count <= buffer.Length && (count == buffer.Length || readOffset == queue.itemSize)
      ensures readOffset == old(readOffset) + count
      ensures buffer[..] == Slot()[old(readOffset)..readOffset] + old(buffer[count..])
      ensures queue.Contents() == old(queue.Contents())
    {
      count := Min(queue.itemSize - readOffset, buffer.Length);
      queue.CopyOut(recvIndex % queue.itemCount, readOffset, count, buffer);
      readOffset := readOffset + count;
    }

    /** Dropping the guard takes the oldest item off the queue. */
    method Drop(panicking: bool, failures: nat)
      requires Valid() && recvIndex == queue.Model().Done(Recv)
      modifies queue
      ensures queue.Valid()
      ensures queue.Model() == AfterDrop(queue.Parameters(), old(queue.Model()), me, panicking)
      ensures old(queue.Contents()) == [old(Slot())] + queue.Contents()
      ensures queue.poison == (old(queue.poison) || panicking)
    {
      ghost var p, before := queue.Parameters(), queue.Model();
      DropAlone(p, before, me, panicking);
      AfterDropIs(p, before, me, panicking);
      if panicking {
        queue.poison := true;
      }
      queue.CommitRecv(recvIndex, failures);
      queue.guards := queue.guards - {me};
      assert queue.Model() == AfterDrop(p, before, me, panicking);
    }
  }
}
