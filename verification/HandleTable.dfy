/**
  Passing file descriptors on Unix: while a message is serialised its descriptors go into a
  table of limited size, and the message carries their positions instead; the table travels
  in a control message.
 */
module HandleTable {
  import opened Wrappers

  const MAX_MSG_FDS := 32

  datatype Error = TooMany | DupFailed | CloexecFailed | OutOfRange | InvalidFd

  /** What duplicating a descriptor comes to. */
  datatype Dup = NoDup | Dup(fd: int, cloexec: bool)

  /** What the receiver finds under a number: nothing open, a flag it cannot set, or a descriptor. */
  datatype Found = NotOpen | NoCloexec | Usable

  /** A message, with descriptors and plain data at its leaves. */
  datatype Message = Fd(fd: int) | Data(value: int) | Node(children: seq<Message>)

  /** The same message as it is encoded, with positions for descriptors. */
  datatype Wire = Index(index: nat) | Datum(value: int) | Branch(children: seq<Wire>)

  // ---------- the sender's table ----------

  /** HandleSender::send: the table and the position the descriptor is sent as. */
  function Sent(table: seq<int>, dup: Dup): Result<(seq<int>, nat), Error> {
    if |table| >= MAX_MSG_FDS then Err(TooMany)
    else if dup.NoDup? || dup.fd < 0 then Err(DupFailed)
    else if !dup.cloexec then Err(CloexecFailed)
    else Ok((table + [dup.fd], |table|))
  }

  class HandleSender {
    const fds: array<int>
    var index: nat

    ghost predicate Valid()
      reads this
    {
      fds.Length == MAX_MSG_FDS && index <= MAX_MSG_FDS
    }

    ghost function Table(): seq<int>
      requires Valid()
      reads this, fds
    {
      fds[..index]
    }

    constructor ()
      ensures Valid() && Table() == [] && fresh(fds)
    {
      fds := new int[32](_ => 0);
      index := 0;
    }

    /** dup tells what the duplication of the descriptor comes to. */
    method Send(fd: int, dup: Dup) returns (r: Result<nat, Error>)
      requires Valid()
      modifies this, fds
      ensures Valid()
      ensures match Sent(old(Table()), dup)
              case Err(error) => r == Err(error) && Table() == old(Table())
              case Ok((table, position)) => r == Ok(position) && Table() == table
      ensures r == Err(TooMany) <==> |old(Table())| == 32
      ensures r == Err(DupFailed) <==> |old(Table())| < 32 && (dup.NoDup? || dup.fd < 0)
      ensures r == Err(CloexecFailed) <==> |old(Table())| < 32 && dup.Dup? && dup.fd >= 0 && !dup.cloexec
      ensures if r.Ok? then r.value == |old(Table())| && Table() == old(Table()) + [dup.fd]
              else Table() == old(Table())
    {
      var at := index;
      if at >= fds.Length {
        return Err(TooMany);
      }
      if dup.NoDup? || dup.fd < 0 {
        return Err(DupFailed);
      }
      if !dup.cloexec {
        return Err(CloexecFailed);
      }
      fds[at] := dup.fd;
      index := index + 1;
      return Ok(at);
    }

    /**
      Serialising a message visits its leaves in order.  dups gives what duplicating the
      descriptor at a position of the table comes to.
     */
    method Serialize(m: Message, dups: nat -> Dup) returns (r: Result<Wire, Error>)
      requires Valid()
      modifies this, fds
      ensures Valid()
      ensures match Serialized(old(Table()), m, dups)
              case Err(error) => r == Err(error)
              case Ok((table, wire)) => r == Ok(wire) && Table() == table
      decreases m, 0
    {
      match m {
        case Fd(fd) =>
          var sent := Send(fd, dups(index));
          match sent {
            case Err(error) => return Err(error);
            case Ok(position) => return Ok(Index(position));
          }
        case Data(value) => return Ok(Datum(value));
        case Node(children) =>
          var all := SerializeAll(children, dups);
          match all {
            case Err(error) => return Err(error);
            case Ok(wires) => return Ok(Branch(wires));
          }
      }
    }

    method SerializeAll(ms: seq<Message>, dups: nat -> Dup) returns (r: Result<seq<Wire>, Error>)
      requires Valid()
      modifies this, fds
      ensures Valid()
      ensures match SerializedAll(old(Table()), ms, dups)
              case Err(error) => r == Err(error)
              case Ok((table, wires)) => r == Ok(wires) && Table() == table
      decreases ms
    {
      if ms == [] {
        return Ok([]);
      }
      var first := Serialize(ms[0], dups);
      match first {
        case Err(error) => return Err(error);
        case Ok(wire) =>
          var rest := SerializeAll(ms[1..], dups);
          match rest {
            case Err(error) => return Err(error);
            case Ok(wires) => return Ok([wire] + wires);
          }
      }
    }
  }

  /** The table and the encoded message after serialising on top of a table. */
  function Serialized(table: seq<int>, m: Message, dups: nat -> Dup): Result<(seq<int>, Wire), Error>
    decreases m, 0
  {
    match m
    case Fd(_) =>
      (match Sent(table, dups(|table|))
       case Err(error) => Err(error)
       case Ok((after, position)) => Ok((after, Index(position))))
    case Data(value) => Ok((table, Datum(value)))
    case Node(children) =>
      match SerializedAll(table, children, dups)
      case Err(error) => Err(error)
      case Ok((after, wires)) => Ok((after, Branch(wires)))
  }

  function SerializedAll(table: seq<int>, ms: seq<Message>, dups: nat -> Dup): Result<(seq<int>, seq<Wire>), Error>
    decreases ms
  {
    if ms == [] then Ok((table, []))
    else
      match Serialized(table, ms[0], dups)
      case Err(error) => Err(error)
      case Ok((middle, wire)) =>
        match SerializedAll(middle, ms[1..], dups)
        case Err(error) => Err(error)
        case Ok((after, wires)) => Ok((after, [wire] + wires))
  }

  // ---------- the receiver's table ----------

  /** HandleReceiver::recv; found tells what is under each number in the receiving process. */
  function Received(table: seq<int>, index: nat, found: int -> Found): (r: Result<int, Error>)
    ensures r == Err(OutOfRange) <==> index >= |table|
    ensures r == Err(InvalidFd) <==> index < |table| && found(table[index]) == NotOpen
    ensures r.Ok? ==> r.value in table && found(r.value) == Usable
  {
    if index >= |table| then Err(OutOfRange)
    else
      match found(table[index])
      case NotOpen => Err(InvalidFd)
      case NoCloexec => Err(CloexecFailed)
      case Usable => Ok(table[index])
  }

  function Deserialized(table: seq<int>, w: Wire, found: int -> Found): Result<Message, Error>
    decreases w, 0
  {
    match w
    case Index(index) =>
      (match Received(table, index, found)
       case Err(error) => Err(error)
       case Ok(fd) => Ok(Fd(fd)))
    case Datum(value) => Ok(Data(value))
    case Branch(children) =>
      match DeserializedAll(table, children, found)
      case Err(error) => Err(error)
      case Ok(messages) => Ok(Node(messages))
  }

  function DeserializedAll(table: seq<int>, ws: seq<Wire>, found: int -> Found): Result<seq<Message>, Error>
    decreases ws
  {
    if ws == [] then Ok([])
    else
      match Deserialized(table, ws[0], found)
      case Err(error) => Err(error)
      case Ok(message) =>
        match DeserializedAll(table, ws[1..], found)
        case Err(error) => Err(error)
        case Ok(messages) => Ok([message] + messages)
  }

  // ---------- round trip ----------

  /** The number of descriptors in a message. */
  function Leaves(m: Message): nat
    decreases m, 0
  {
    match m
    case Fd(_) => 1
    case Data(_) => 0
    case Node(children) => LeavesAll(children)
  }

  function LeavesAll(ms: seq<Message>): nat
    decreases ms
  {
    if ms == [] then 0 else Leaves(ms[0]) + LeavesAll(ms[1..])
  }

  /** The descriptors of a message in the order of their visit. */
  function Descriptors(m: Message): (fds: seq<int>)
    ensures |fds| == Leaves(m)
    decreases m, 0
  {
    match m
    case Fd(fd) => [fd]
    case Data(_) => []
    case Node(children) => DescriptorsAll(children)
  }

  function DescriptorsAll(ms: seq<Message>): (fds: seq<int>)
    ensures |fds| == LeavesAll(ms)
    decreases ms
  {
    if ms == [] then [] else Descriptors(ms[0]) + DescriptorsAll(ms[1..])
  }

  /** The message with fds[from + n] in place of its n-th descriptor. */
  function Placed(m: Message, fds: seq<int>, from: nat): Message
    requires from + Leaves(m) <= |fds|
    decreases m, 0
  {
    match m
    case Fd(_) => Fd(fds[from])
    case Data(_) => m
    case Node(children) => Node(PlacedAll(children, fds, from))
  }

  function PlacedAll(ms: seq<Message>, fds: seq<int>, from: nat): seq<Message>
    requires from + LeavesAll(ms) <= |fds|
    decreases ms
  {
    if ms == [] then []
    else [Placed(ms[0], fds, from)] + PlacedAll(ms[1..], fds, from + Leaves(ms[0]))
  }

  /** The message with the open file in place of each descriptor, as one process has them. */
  function Referents(m: Message, file: int -> int): Message
    decreases m, 0
  {
    match m
    case Fd(fd) => Fd(file(fd))
    case Data(_) => m
    case Node(children) => Node(ReferentsAll(children, file))
  }

  function ReferentsAll(ms: seq<Message>, file: int -> int): seq<Message>
    decreases ms
  {
    if ms == [] then [] else [Referents(ms[0], file)] + ReferentsAll(ms[1..], file)
  }

  predicate Duplicable(dup: Dup) {
    dup.Dup? && dup.fd >= 0 && dup.cloexec
  }

  /** All duplications for the positions in [lo, hi) succeed. */
  predicate AllDuplicable(dups: nat -> Dup, lo: nat, hi: nat) {
    forall i: nat :: lo <= i < hi ==> Duplicable(dups(i))
  }

  predicate UsableAt(table: seq<int>, i: nat, found: int -> Found) {
    i < |table| && found(table[i]) == Usable
  }

  /** The table has a usable descriptor at each position in [lo, hi). */
  predicate AllUsable(table: seq<int>, lo: nat, hi: nat, found: int -> Found) {
    forall i: nat :: lo <= i < hi ==> UsableAt(table, i, found)
  }

  /** Serialising works exactly when the descriptors fit the table and can be duplicated. */
  lemma {:induction false} SerializesIff(table: seq<int>, m: Message, dups: nat -> Dup)
    ensures Serialized(table, m, dups).Ok? <==>
            (Leaves(m) == 0 || |table| + Leaves(m) <= MAX_MSG_FDS) && AllDuplicable(dups, |table|, |table| + Leaves(m))
    ensures Serialized(table, m, dups).Ok? ==>
              |Serialized(table, m, dups).value.0| == |table| + Leaves(m)
    decreases m, 0
  {
    match m
    case Fd(_) =>
      assert AllDuplicable(dups, |table|, |table| + 1) <==> Duplicable(dups(|table|));
    case Data(_) =>
    case Node(children) => SerializesAllIff(table, children, dups);
  }

  lemma {:induction false} SerializesAllIff(table: seq<int>, ms: seq<Message>, dups: nat -> Dup)
    ensures SerializedAll(table, ms, dups).Ok? <==>
            (LeavesAll(ms) == 0 || |table| + LeavesAll(ms) <= MAX_MSG_FDS)
            && AllDuplicable(dups, |table|, |table| + LeavesAll(ms))
    ensures SerializedAll(table, ms, dups).Ok? ==>
              |SerializedAll(table, ms, dups).value.0| == |table| + LeavesAll(ms)
    decreases ms
  {
    if ms != [] {
      SerializesIff(table, ms[0], dups);
      if Serialized(table, ms[0], dups).Ok? {
        SerializesAllIff(Serialized(table, ms[0], dups).value.0, ms[1..], dups);
      }
    }
  }

  /** Reading the encoded message back works iff the table has usable descriptors for its positions. */
  lemma {:induction false} DeserializesIff(table: seq<int>, m: Message, dups: nat -> Dup,
                                           final: seq<int>, found: int -> Found)
    requires Serialized(table, m, dups).Ok?
    ensures Deserialized(final, Serialized(table, m, dups).value.1, found).Ok? <==>
            AllUsable(final, |table|, |table| + Leaves(m), found)
    decreases m, 0
  {
    match m
    case Fd(_) =>
      assert AllUsable(final, |table|, |table| + 1, found) <==> UsableAt(final, |table|, found);
    case Data(_) =>
    case Node(children) => DeserializesAllIff(table, children, dups, final, found);
  }

  lemma {:induction false} DeserializesAllIff(table: seq<int>, ms: seq<Message>, dups: nat -> Dup,
                                              final: seq<int>, found: int -> Found)
    requires SerializedAll(table, ms, dups).Ok?
    ensures DeserializedAll(final, SerializedAll(table, ms, dups).value.1, found).Ok? <==>
            AllUsable(final, |table|, |table| + LeavesAll(ms), found)
    decreases ms
  {
    if ms != [] {
      var (middle, wire) := Serialized(table, ms[0], dups).value;
      var wires := SerializedAll(middle, ms[1..], dups).value.1;
      SerializesIff(table, ms[0], dups);
      DeserializesIff(table, ms[0], dups, final, found);
      DeserializesAllIff(middle, ms[1..], dups, final, found);
      assert ([wire] + wires)[1..] == wires;
      UsableSplit(final, |table|, |middle|, |table| + LeavesAll(ms), found);
    }
  }

  lemma UsableSplit(table: seq<int>, lo: nat, mid: nat, hi: nat, found: int -> Found)
    requires lo <= mid <= hi
    ensures AllUsable(table, lo, hi, found) <==> AllUsable(table, lo, mid, found) && AllUsable(table, mid, hi, found)
  {
  }

  /** What is read back has the descriptors of the receiver's table in place, position by position. */
  lemma {:induction false} RoundTrip(table: seq<int>, m: Message, dups: nat -> Dup,
                                     final: seq<int>, found: int -> Found)
    requires Serialized(table, m, dups).Ok? && |table| + Leaves(m) <= |final|
    requires AllUsable(final, |table|, |table| + Leaves(m), found)
    ensures Deserialized(final, Serialized(table, m, dups).value.1, found) == Ok(Placed(m, final, |table|))
    decreases m, 0
  {
    match m
    case Fd(_) =>
      assert UsableAt(final, |table|, found);
    case Data(_) =>
    case Node(children) => RoundTripAll(table, children, dups, final, found);
  }

  lemma {:induction false} RoundTripAll(table: seq<int>, ms: seq<Message>, dups: nat -> Dup,
                                        final: seq<int>, found: int -> Found)
    requires SerializedAll(table, ms, dups).Ok? && |table| + LeavesAll(ms) <= |final|
    requires AllUsable(final, |table|, |table| + LeavesAll(ms), found)
    ensures DeserializedAll(final, SerializedAll(table, ms, dups).value.1, found) == Ok(PlacedAll(ms, final, |table|))
    decreases ms
  {
    if ms != [] {
      var (middle, wire) := Serialized(table, ms[0], dups).value;
      var wires := SerializedAll(middle, ms[1..], dups).value.1;
      SerializesIff(table, ms[0], dups);
      UsableSplit(final, |table|, |middle|, |table| + LeavesAll(ms), found);
      RoundTrip(table, ms[0], dups, final, found);
      RoundTripAll(middle, ms[1..], dups, final, found);
      assert ([wire] + wires)[1..] == wires;
    }
  }

  /** From a position on, our numbers stand for the files that their numbers stand for. */
  predicate SameFiles(fds: seq<int>, from: nat, originals: seq<int>, theirs: int -> int, ours: int -> int)
    requires from + |originals| <= |fds|
  {
    forall n: nat :: n < |originals| ==> ours(fds[from + n]) == theirs(originals[n])
  }

  lemma SameFilesSplit(fds: seq<int>, from: nat, first: seq<int>, second: seq<int>,
                       theirs: int -> int, ours: int -> int)
    requires from + |first| + |second| <= |fds| && SameFiles(fds, from, first + second, theirs, ours)
    ensures SameFiles(fds, from, first, theirs, ours)
    ensures SameFiles(fds, from + |first|, second, theirs, ours)
  {
    var both := first + second;
    assert forall n: nat :: n < |first| ==> first[n] == both[n];
    forall n: nat | n < |second|
      ensures ours(fds[from + |first| + n]) == theirs(second[n])
    {
      assert ours(fds[from + (|first| + n)]) == theirs(both[|first| + n]);
    }
  }

  /** Descriptors that stand for the same files, placed in order, leave the message's meaning as it was. */
  lemma {:induction false} PlacedMeansSame(m: Message, fds: seq<int>, from: nat, theirs: int -> int, ours: int -> int)
    requires from + Leaves(m) <= |fds| && SameFiles(fds, from, Descriptors(m), theirs, ours)
    ensures Referents(Placed(m, fds, from), ours) == Referents(m, theirs)
    decreases m, 0
  {
    match m
    case Fd(fd) =>
      assert ours(fds[from + 0]) == theirs(Descriptors(m)[0]);
    case Data(_) =>
    case Node(children) =>
      assert Descriptors(m) == DescriptorsAll(children);
      PlacedAllMeansSame(children, fds, from, theirs, ours);
  }

  lemma {:induction false} PlacedAllMeansSame(ms: seq<Message>, fds: seq<int>, from: nat,
                                              theirs: int -> int, ours: int -> int)
    requires from + LeavesAll(ms) <= |fds| && SameFiles(fds, from, DescriptorsAll(ms), theirs, ours)
    ensures ReferentsAll(PlacedAll(ms, fds, from), ours) == ReferentsAll(ms, theirs)
    decreases ms
  {
    if ms != [] {
      SameFilesSplit(fds, from, Descriptors(ms[0]), DescriptorsAll(ms[1..]), theirs, ours);
      PlacedMeansSame(ms[0], fds, from, theirs, ours);
      PlacedAllMeansSame(ms[1..], fds, from + Leaves(ms[0]), theirs, ours);
      var placed := PlacedAll(ms, fds, from);
      assert placed[0] == Placed(ms[0], fds, from);
      assert placed[1..] == PlacedAll(ms[1..], fds, from + Leaves(ms[0]));
    }
  }

  /** Placing descriptors puts them there in order. */
  lemma {:induction false} DescriptorsPlaced(m: Message, fds: seq<int>, from: nat)
    requires from + Leaves(m) <= |fds|
    ensures Descriptors(Placed(m, fds, from)) == fds[from..from + Leaves(m)]
    decreases m, 0
  {
    match m
    case Fd(_) =>
    case Data(_) =>
    case Node(children) => DescriptorsPlacedAll(children, fds, from);
  }

  lemma {:induction false} DescriptorsPlacedAll(ms: seq<Message>, fds: seq<int>, from: nat)
    requires from + LeavesAll(ms) <= |fds|
    ensures DescriptorsAll(PlacedAll(ms, fds, from)) == fds[from..from + LeavesAll(ms)]
    decreases ms
  {
    if ms != [] {
      var middle := from + Leaves(ms[0]);
      DescriptorsPlaced(ms[0], fds, from);
      DescriptorsPlacedAll(ms[1..], fds, middle);
      var placed := PlacedAll(ms, fds, from);
      assert placed[0] == Placed(ms[0], fds, from) && placed[1..] == PlacedAll(ms[1..], fds, middle);
    }
  }

  /** The table holds the duplicates, position by position. */
  lemma {:induction false} TableIsDuplicates(table: seq<int>, m: Message, dups: nat -> Dup)
    requires Serialized(table, m, dups).Ok?
    ensures var after := Serialized(table, m, dups).value.0;
            && table <= after
            && forall i: nat :: |table| <= i < |after| ==> dups(i).Dup? && after[i] == dups(i).fd
    decreases m, 0
  {
    match m
    case Fd(_) =>
    case Data(_) =>
    case Node(children) => TableIsDuplicatesAll(table, children, dups);
  }

  lemma {:induction false} TableIsDuplicatesAll(table: seq<int>, ms: seq<Message>, dups: nat -> Dup)
    requires SerializedAll(table, ms, dups).Ok?
    ensures var after := SerializedAll(table, ms, dups).value.0;
            && table <= after
            && forall i: nat :: |table| <= i < |after| ==> dups(i).Dup? && after[i] == dups(i).fd
    decreases ms
  {
    if ms != [] {
      var middle := Serialized(table, ms[0], dups).value.0;
      TableIsDuplicates(table, ms[0], dups);
      TableIsDuplicatesAll(middle, ms[1..], dups);
    }
  }

  /**
    A message of its own: 32 descriptors go through and a 33rd is refused; what went through is
    read back iff the receiver's table has usable descriptors for it, and then they are in order.
   */
  lemma MessageRoundTrip(m: Message, dups: nat -> Dup, final: seq<int>, found: int -> Found)
    requires AllDuplicable(dups, 0, Leaves(m))
    ensures Serialized([], m, dups).Ok? <==> Leaves(m) <= MAX_MSG_FDS
    ensures Leaves(m) <= MAX_MSG_FDS ==>
              var (table, wire) := Serialized([], m, dups).value;
              var r := Deserialized(final, wire, found);
              && |table| == Leaves(m)
              && (r.Ok? <==> AllUsable(final, 0, Leaves(m), found))
              && (r.Ok? ==> Leaves(m) <= |final| && r.value == Placed(m, final, 0)
                            && Descriptors(r.value) == final[..Leaves(m)])
  {
    SerializesIff([], m, dups);
    if Leaves(m) <= MAX_MSG_FDS {
      DeserializesIff([], m, dups, final, found);
      if AllUsable(final, 0, Leaves(m), found) {
        assert Leaves(m) > 0 ==> UsableAt(final, Leaves(m) - 1, found);
        RoundTrip([], m, dups, final, found);
        DescriptorsPlaced(m, final, 0);
      }
    }
  }

  /** The positions in an encoded message, in the order of their visit. */
  function Indices(w: Wire): seq<nat>
    decreases w, 0
  {
    match w
    case Index(index) => [index]
    case Datum(_) => []
    case Branch(children) => IndicesAll(children)
  }

  function IndicesAll(ws: seq<Wire>): seq<nat>
    decreases ws
  {
    if ws == [] then [] else Indices(ws[0]) + IndicesAll(ws[1..])
  }

  function Range(lo: nat, hi: nat): seq<nat>
    requires lo <= hi
  {
    seq(hi - lo, i requires 0 <= i => lo + i)
  }

  lemma RangeConcat(lo: nat, middle: nat, hi: nat)
    requires lo <= middle <= hi
    ensures Range(lo, middle) + Range(middle, hi) == Range(lo, hi)
  {
  }

  /** Positions are given out one after the other in the order of the visit. */
  lemma {:induction false} PositionsInOrder(table: seq<int>, m: Message, dups: nat -> Dup)
    requires Serialized(table, m, dups).Ok?
    ensures Indices(Serialized(table, m, dups).value.1) == Range(|table|, |table| + Leaves(m))
    decreases m, 0
  {
    match m
    case Fd(_) =>
    case Data(_) =>
    case Node(children) => PositionsInOrderAll(table, children, dups);
  }

  lemma {:induction false} PositionsInOrderAll(table: seq<int>, ms: seq<Message>, dups: nat -> Dup)
    requires SerializedAll(table, ms, dups).Ok?
    ensures IndicesAll(SerializedAll(table, ms, dups).value.1) == Range(|table|, |table| + LeavesAll(ms))
    decreases ms
  {
    if ms != [] {
      var (middle, wire) := Serialized(table, ms[0], dups).value;
      var wires := SerializedAll(middle, ms[1..], dups).value.1;
      SerializesIff(table, ms[0], dups);
      PositionsInOrder(table, ms[0], dups);
      PositionsInOrderAll(middle, ms[1..], dups);
      assert ([wire] + wires)[0] == wire && ([wire] + wires)[1..] == wires;
      RangeConcat(|table|, |middle|, |table| + LeavesAll(ms));
    }
  }

  /** A message without descriptors goes through whatever the tables are. */
  lemma {:induction false} PlainRoundTrip(table: seq<int>, m: Message, dups: nat -> Dup,
                                          final: seq<int>, found: int -> Found)
    requires Leaves(m) == 0
    ensures Serialized(table, m, dups).Ok? && Serialized(table, m, dups).value.0 == table
    ensures Deserialized(final, Serialized(table, m, dups).value.1, found) == Ok(m)
    decreases m, 0
  {
    match m
    case Data(_) =>
    case Node(children) => PlainRoundTripAll(table, children, dups, final, found);
  }

  lemma {:induction false} PlainRoundTripAll(table: seq<int>, ms: seq<Message>, dups: nat -> Dup,
                                             final: seq<int>, found: int -> Found)
    requires LeavesAll(ms) == 0
    ensures SerializedAll(table, ms, dups).Ok? && SerializedAll(table, ms, dups).value.0 == table
    ensures DeserializedAll(final, SerializedAll(table, ms, dups).value.1, found) == Ok(ms)
    decreases ms
  {
    if ms != [] {
      assert ms == [ms[0]] + ms[1..];
      PlainRoundTrip(table, ms[0], dups, final, found);
      PlainRoundTripAll(table, ms[1..], dups, final, found);
      var wire, wires := Serialized(table, ms[0], dups).value.1, SerializedAll(table, ms[1..], dups).value.1;
      assert ([wire] + wires)[0] == wire && ([wire] + wires)[1..] == wires;
    }
  }
}
