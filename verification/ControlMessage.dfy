/**
  The control message that carries a table of descriptors on Unix.  One control message serves
  a channel for both directions, so a read between preparing a message and writing it matters.
 */
module ControlMessage {
  import opened Words
  import L = Layout
  import H = HandleTable
  import opened Wrappers

  const HEADER_SIZE := 16  // of cmsghdr
  const INT_SIZE := 4

  function CmsgAlign(length: Word): nat {
    L.MaskUp(length, L.USIZE_SIZE)
  }

  function CmsgLen(length: Word): nat {
    CmsgAlign(HEADER_SIZE) + length
  }

  function CmsgSpace(length: Word): nat {
    CmsgAlign(length) + CmsgAlign(HEADER_SIZE)
  }

  /** The header is aligned as it is, and a payload is padded to the next word boundary. */
  lemma CmsgSizes(length: Word)
    requires length + (L.USIZE_SIZE - 1) < WORD
    ensures CmsgAlign(HEADER_SIZE) == HEADER_SIZE
    ensures CmsgLen(length) == HEADER_SIZE + length
    ensures CmsgLen(length) <= CmsgSpace(length) < CmsgLen(length) + L.USIZE_SIZE
    ensures CmsgSpace(length) % 8 == 0
  {
    L.AlignToWord(HEADER_SIZE);
    L.AlignToWord(length);
    SumAligned(CmsgAlign(length), CmsgAlign(HEADER_SIZE));
  }

  /** The lengths that the code stores are those of CMSG_LEN for the payload. */
  lemma FdsLenIsCmsgLen(count: nat)
    requires INT_SIZE * count + (L.USIZE_SIZE - 1) < WORD
    ensures FdsLen(count) == CmsgLen(INT_SIZE * count)
  {
    CmsgSizes(INT_SIZE * count);
  }

  lemma SumAligned(a: nat, b: nat)
    requires a % 8 == 0 && b % 8 == 0
    ensures (a + b) % 8 == 0
  {
    var q, r := a / 8, b / 8;
    assert a == 8 * q && b == 8 * r;
    L.QuotientUnique(a + b, 8, q + r, 0);
  }

  /** The parts of the control message: payload words, cmsg_len and msg_controllen. */
  datatype Control = Control(words: seq<int>, cmsgLen: nat, controlLen: nat) {

    /** current_fd_count. */
    function Count(): nat {
      if cmsgLen < HEADER_SIZE then 0 else (cmsgLen - HEADER_SIZE) / INT_SIZE
    }

    /** The header does not claim more words than the buffer has. */
    predicate Valid() {
      Count() <= |words|
    }

    /** The table that before_deserialize copies. */
    function Fds(): seq<int>
      requires Valid()
    {
      words[..Count()]
    }

    /** The table that sendmsg transmits: none if the control length leaves the header out. */
    function Transmitted(): seq<int>
      requires Valid()
    {
      if controlLen < cmsgLen then [] else Fds()
    }
  }

  function FdsLen(count: nat): nat {
    HEADER_SIZE + INT_SIZE * count
  }

  function WithFds(c: Control, fds: seq<int>): Control
    requires |fds| <= |c.words|
  {
    Control(fds + c.words[|fds|..], FdsLen(|fds|), FdsLen(|fds|))
  }

  function ResetCount(c: Control): Control {
    Control(c.words, FdsLen(|c.words|), FdsLen(|c.words|))
  }

  /** How a read ends: before recvmsg, in its failure, or with a message. */
  datatype ReadOutcome = NotReadable | RecvFailed | Received(fds: seq<int>)

  /** What a read does to the shared control message; recvmsg itself is taken as given. */
  function AfterRead(c: Control, outcome: ReadOutcome): Control
    requires outcome.Received? ==> |outcome.fds| <= |c.words|
  {
    match outcome
    case NotReadable => c
    case RecvFailed => ResetCount(c)
    case Received(fds) =>
      if fds == [] then ResetCount(c).(controlLen := 0) else WithFds(c, fds)
  }

  class Cmsg {
    const words: array<int>
    var cmsgLen: nat
    var controlLen: nat

    ghost function View(): Control
      reads this, words
    {
      Control(words[..], cmsgLen, controlLen)
    }

    constructor (fdCount: nat)
      requires INT_SIZE * fdCount + HEADER_SIZE < WORD
      ensures words.Length == fdCount && fresh(words)
      ensures View().Valid() && View().Count() == fdCount
      ensures cmsgLen == controlLen == 16 + 4 * fdCount
      ensures forall i :: 0 <= i < fdCount ==> words[i] == 0
    {
      words := new int[fdCount](_ => 0);
      cmsgLen := FdsLen(fdCount);
      controlLen := FdsLen(fdCount);
    }

    /** The code stops if the table is too long. */
    method SetFds(fds: seq<int>)
      requires |fds| <= words.Length
      modifies this, words
      ensures View() == WithFds(old(View()), fds)
      ensures words[..|fds|] == fds && words[|fds|..] == old(words[|fds|..])
      ensures cmsgLen == controlLen == 16 + 4 * |fds|
    {
      cmsgLen := FdsLen(|fds|);
      controlLen := cmsgLen;
      forall i | 0 <= i < |fds| {
        words[i] := fds[i];
      }
      assert words[..] == fds + old(words[..])[|fds|..];
    }

    method ResetFdCount()
      modifies this
      ensures View() == ResetCount(old(View()))
      ensures View().Valid() && View().Count() == words.Length
      ensures words[..] == old(words[..]) && cmsgLen == controlLen == 16 + 4 * words.Length
    {
      cmsgLen := FdsLen(words.Length);
      controlLen := cmsgLen;
    }

    method CurrentFds() returns (fds: seq<int>)
      requires View().Valid() && cmsgLen >= HEADER_SIZE
      ensures fds == View().Fds()
      ensures fds == words[..|fds|] && 4 * |fds| <= cmsgLen - 16 < 4 * |fds| + 4
    {
      var count := (cmsgLen - HEADER_SIZE) / INT_SIZE;
      fds := words[..count];
    }
  }

  /** Committing a table and reading the current one back gives the committed table. */
  lemma CommitThenRead(c: Control, fds: seq<int>)
    requires |fds| <= |c.words|
    ensures WithFds(c, fds).Valid()
    ensures WithFds(c, fds).Count() == |fds|
    ensures WithFds(c, fds).Fds() == fds
    ensures WithFds(c, fds).Transmitted() == fds
    ensures |WithFds(c, fds).words| == |c.words|
  {
  }

  // ---------- from one end of a channel to the other ----------

  /**
    The table that the sender commits reaches the receiver under numbers of its own.  If a
    duplicate stands for the same file as its original, and each number that arrives for the
    file that was sent in its place, then a message that can be read back has at every position
    a descriptor for the file that the sender put there.
   */
  lemma DescriptorsArrive(m: H.Message, dups: nat -> H.Dup, sender: Control, receiver: Control,
                          arriving: seq<int>, found: int -> H.Found, theirs: int -> int, ours: int -> int)
    requires |sender.words| == |receiver.words| == H.MAX_MSG_FDS
    requires H.Serialized([], m, dups).Ok?
    requires var sent := WithFds(sender, TableOf(m, dups)).Transmitted();
             |arriving| == |sent| && forall i :: 0 <= i < |sent| ==> ours(arriving[i]) == theirs(sent[i])
    requires forall i: nat :: i < H.Leaves(m) && dups(i).Dup? ==> theirs(dups(i).fd) == theirs(H.Descriptors(m)[i])
    ensures |arriving| == H.Leaves(m)
    ensures var r := H.Deserialized(AfterRead(receiver, Received(arriving)).Fds(), WireOf(m, dups), found);
            && (r.Ok? <==> H.AllUsable(arriving, 0, H.Leaves(m), found))
            && (r.Ok? ==> H.Descriptors(r.value) == arriving && H.Referents(r.value, ours) == H.Referents(m, theirs))
  {
    var final := AfterRead(receiver, Received(arriving)).Fds();
    CommitThenRead(sender, TableOf(m, dups));
    ArrivedFirst(receiver, arriving);
    UsableArrived(arriving, final, found);
    H.SerializesIff([], m, dups);
    H.MessageRoundTrip(m, dups, final, found);
    FilesArrive(m, dups, arriving, final, theirs, ours);
    H.PlacedMeansSame(m, final, 0, theirs, ours);
  }

  lemma FilesArrive(m: H.Message, dups: nat -> H.Dup, arriving: seq<int>, final: seq<int>,
                    theirs: int -> int, ours: int -> int)
    requires H.Serialized([], m, dups).Ok? && |arriving| == H.Leaves(m) && arriving <= final
    requires forall i :: 0 <= i < |arriving| ==> ours(arriving[i]) == theirs(TableOf(m, dups)[i])
    requires forall i: nat :: i < H.Leaves(m) && dups(i).Dup? ==> theirs(dups(i).fd) == theirs(H.Descriptors(m)[i])
    ensures H.SameFiles(final, 0, H.Descriptors(m), theirs, ours)
  {
    H.TableIsDuplicates([], m, dups);
    forall n: nat | n < H.Leaves(m)
      ensures ours(final[0 + n]) == theirs(H.Descriptors(m)[n])
    {
      assert final[n] == arriving[n] && TableOf(m, dups)[n] == dups(n).fd;
    }
  }

  lemma ArrivedFirst(c: Control, arriving: seq<int>)
    requires |arriving| <= |c.words|
    ensures AfterRead(c, Received(arriving)).Valid()
    ensures arriving <= AfterRead(c, Received(arriving)).Fds()
  {
    CommitThenRead(c, arriving);
  }

  lemma UsableArrived(arriving: seq<int>, final: seq<int>, found: int -> H.Found)
    requires arriving <= final
    ensures H.AllUsable(final, 0, |arriving|, found) <==> H.AllUsable(arriving, 0, |arriving|, found)
  {
    assert forall i: nat :: i < |arriving| ==> H.UsableAt(final, i, found) == H.UsableAt(arriving, i, found);
  }

  function TableOf(m: H.Message, dups: nat -> H.Dup): (table: seq<int>)
    requires H.Serialized([], m, dups).Ok?
    ensures |table| == H.Leaves(m) <= H.MAX_MSG_FDS
  {
    H.SerializesIff([], m, dups);
    H.Serialized([], m, dups).value.0
  }

  function WireOf(m: H.Message, dups: nat -> H.Dup): H.Wire
    requires H.Serialized([], m, dups).Ok?
  {
    H.Serialized([], m, dups).value.1
  }

  /**
    A read finds the descriptors that came with the message if and only if there were any: without
    them cmsg_len stays as it was reset, and claims every word that earlier messages left behind.
   */
  lemma ReadFindsArrived(c: Control, fds: seq<int>)
    requires |fds| <= |c.words|
    ensures AfterRead(c, Received(fds)).Valid()
    ensures AfterRead(c, Received(fds)).Fds() == fds <==> fds != [] || c.words == []
  {
    CommitThenRead(c, fds);
    assert fds == [] ==> AfterRead(c, Received(fds)).Fds() == c.words;
  }

  /** So an index is refused iff it is beyond what came, except after a message that brought none. */
  lemma RefusalExactIff(c: Control, fds: seq<int>, index: nat, found: int -> H.Found)
    requires |fds| <= |c.words|
    ensures AfterRead(c, Received(fds)).Valid()
    ensures (H.Received(AfterRead(c, Received(fds)).Fds(), index, found) == Err(H.OutOfRange) <==> index >= |fds|)
            <==> fds != [] || index >= |c.words|
  {
    CommitThenRead(c, fds);
  }

  /** For instance, a message without descriptors can name one that an earlier message brought. */
  lemma StaleDescriptorFound(c: Control, fd: int, found: int -> H.Found)
    requires |c.words| == 32 && found(fd) == H.Usable
    ensures var after := AfterReads(c, [Received([fd]), Received([])]);
            after.Valid() && H.Received(after.Fds(), 0, found) == Ok(fd)
  {
    var first := AfterRead(c, Received([fd]));
    AfterReadsAppend(c, [Received([fd])], Received([]));
    AfterReadsAppend(c, [], Received([fd]));
    assert [] + [Received([fd])] == [Received([fd])];
    assert [Received([fd])] + [Received([])] == [Received([fd]), Received([])];
    assert first.words[0] == fd;
  }

  // ---------- reads between preparing a message and writing it ----------

  predicate AllFit(outcomes: seq<ReadOutcome>, size: nat) {
    forall i :: 0 <= i < |outcomes| && outcomes[i].Received? ==> |outcomes[i].fds| <= size
  }

  /** The control message after a sequence of reads. */
  function AfterReads(c: Control, outcomes: seq<ReadOutcome>): (r: Control)
    requires AllFit(outcomes, |c.words|)
    ensures |r.words| == |c.words|
    decreases |outcomes|
  {
    if outcomes == [] then c
    else AfterRead(AfterReads(c, outcomes[..|outcomes| - 1]), outcomes[|outcomes| - 1])
  }

  lemma AfterReadsAppend(c: Control, outcomes: seq<ReadOutcome>, outcome: ReadOutcome)
    requires AllFit(outcomes + [outcome], |c.words|) && AllFit(outcomes, |c.words|)
    requires outcome.Received? ==> |outcome.fds| <= |c.words|
    ensures AfterReads(c, outcomes + [outcome]) == AfterRead(AfterReads(c, outcomes), outcome)
  {
    assert (outcomes + [outcome])[..|outcomes|] == outcomes;
  }

  /** The last read that got as far as recvmsg; NotReadable if none did. */
  function LastRead(outcomes: seq<ReadOutcome>): ReadOutcome {
    if outcomes == [] then NotReadable
    else
      var n := |outcomes| - 1;
      if outcomes[n].NotReadable? then LastRead(outcomes[..n]) else outcomes[n]
  }

  /** The payload words once the tables received were copied over them. */
  function Payload(words: seq<int>, outcomes: seq<ReadOutcome>): (r: seq<int>)
    requires AllFit(outcomes, |words|)
    ensures |r| == |words|
    decreases |outcomes|
  {
    if outcomes == [] then words
    else
      var n := |outcomes| - 1;
      var before := Payload(words, outcomes[..n]);
      if outcomes[n].Received? then outcomes[n].fds + before[|outcomes[n].fds|..] else before
  }

  /** What a sequence of reads makes the next write transmit depends on the last of them and the payload. */
  lemma {:induction false} TransmittedAfterReads(c: Control, table: seq<int>, outcomes: seq<ReadOutcome>)
    requires |table| <= |c.words| && AllFit(outcomes, |c.words|)
    ensures var r := AfterReads(WithFds(c, table), outcomes);
            && r.words == Payload(WithFds(c, table).words, outcomes)
            && r.Valid()
            && r.Transmitted() ==
               match LastRead(outcomes)
               case NotReadable => table
               case RecvFailed => r.words
               case Received(fds) => fds
    decreases |outcomes|
  {
    CommitThenRead(c, table);
    if outcomes != [] {
      var n := |outcomes| - 1;
      TransmittedAfterReads(c, table, outcomes[..n]);
      var before := AfterReads(WithFds(c, table), outcomes[..n]);
      if outcomes[n].Received? {
        CommitThenRead(before, outcomes[n].fds);
      }
    }
  }

  /**
    The write transmits the committed table, whatever reads fall in between, if and only if none
    of them got as far as recvmsg, or the last that did brought this very table, or it failed and
    the whole payload happens to be the table.
   */
  lemma WriteAfterReads(c: Control, table: seq<int>, outcomes: seq<ReadOutcome>)
    requires |table| <= |c.words| && AllFit(outcomes, |c.words|)
    ensures AfterReads(WithFds(c, table), outcomes).Valid()
    ensures AfterReads(WithFds(c, table), outcomes).Transmitted() == table <==>
            match LastRead(outcomes)
            case NotReadable => true
            case RecvFailed => Payload(WithFds(c, table).words, outcomes) == table
            case Received(fds) => fds == table
  {
    TransmittedAfterReads(c, table, outcomes);
  }

  /** For instance, after one failed read a message without descriptors goes out with 32. */
  lemma FailedReadSendsStale(c: Control)
    requires |c.words| == 32
    ensures AfterReads(WithFds(c, []), [RecvFailed]).Valid()
    ensures |AfterReads(WithFds(c, []), [RecvFailed]).Transmitted()| == 32
  {
    TransmittedAfterReads(c, [], [RecvFailed]);
    assert [RecvFailed][0] == RecvFailed;
  }
}
