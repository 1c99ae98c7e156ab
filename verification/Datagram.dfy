/**
  The bincode datagram sink and stream: one message at most is buffered for sending, and a
  transport that is not ready is asked again later.

  Encoding and decoding are parameters, and so are the answers of the transport.  The class
  works on buffers as the code does; each method is proved against a function on the buffered
  message, and what holds over whole runs is proved about those functions.
 */
module Datagram {
  import opened Words
  import opened Wrappers

  type Bytes = seq<Byte>

  /** What serialising into the buffer comes to: the message, or an error after a partial write. */
  datatype Encoding = Encoded(bytes: Bytes) | Refused(partial: Bytes)

  /** Serialising into a buffer of limited size fails for a message that does not fit. */
  function Limited(encoding: Encoding, size: nat): (r: Encoding)
    ensures r.Encoded? <==> encoding.Encoded? && |encoding.bytes| <= size
    ensures r.Encoded? ==> r == encoding
    ensures |Written(r)| <= size
  {
    match encoding
    case Encoded(bytes) => if |bytes| <= size then encoding else Refused(bytes[..size])
    case Refused(partial) => Refused(Cut(partial, size))
  }

  /** What a serialisation leaves in the buffer. */
  function Written(encoding: Encoding): Bytes {
    match encoding
    case Encoded(bytes) => bytes
    case Refused(partial) => partial
  }

  /** What the transport answers to a write. */
  datatype WriteAnswer = NotReady | Wrote(count: nat) | WriteFailed

  datatype SendError = EncodeError | IoError | WriteZero

  datatype CompleteResult = Done | Pending | CompleteFailed(error: SendError)

  datatype StartResult<+T> = Accepted | Returned(item: T) | StartFailed(error: SendError)

  // ---------- the specification of one call ----------

  /** poll_complete: the message still buffered, the result, and the datagrams sent. */
  function Complete(buffered: Option<Bytes>, answer: WriteAnswer): (Option<Bytes>, CompleteResult, seq<Bytes>)
    requires Fits(buffered, answer)
  {
    match buffered
    case None => (None, Done, [])
    case Some(bytes) =>
      match answer
      case NotReady => (buffered, Pending, [])
      case WriteFailed => (buffered, CompleteFailed(IoError), [])
      case Wrote(n) =>
        if n == |bytes| then (None, Done, [bytes])
        else (buffered, CompleteFailed(WriteZero), [bytes[..n]])
  }

  /** A transport never claims to have written more than it was given. */
  predicate Fits(buffered: Option<Bytes>, answer: WriteAnswer) {
    buffered.Some? && answer.Wrote? ==> answer.count <= |buffered.value|
  }

  /** start_send: it first completes a buffered message, then buffers the new one. */
  function Start<T>(buffered: Option<Bytes>, item: T, encoding: Encoding, answer: WriteAnswer)
    : (Option<Bytes>, StartResult<T>, seq<Bytes>)
    requires Fits(buffered, answer)
  {
    var (rest, result, sent) := Complete(buffered, answer);
    match result
    case Pending => (rest, Returned(item), sent)
    case CompleteFailed(error) => (rest, StartFailed(error), sent)
    case Done =>
      match encoding
      case Encoded(bytes) => (Some(bytes), Accepted, sent)
      case Refused(_) => (None, StartFailed(EncodeError), sent)
  }

  /** What the transport answers to a read; a datagram longer than the buffer is cut off. */
  datatype ReadAnswer = NothingYet | Got(datagram: Bytes) | ReadFailed

  datatype PollResult<+R> = PollPending | EndOfStream | Message(message: R) | PollFailed

  function Receive<R>(size: nat, decode: Bytes -> Option<R>, answer: ReadAnswer): PollResult<R> {
    match answer
    case NothingYet => PollPending
    case ReadFailed => PollFailed
    case Got(datagram) =>
      var bytes := Cut(datagram, size);
      if bytes == [] then EndOfStream
      else
        match decode(bytes)
        case None => PollFailed
        case Some(message) => Message(message)
  }

  function InBuffer(buffered: Option<Bytes>): seq<Bytes> {
    if buffered.None? then [] else [buffered.value]
  }

  // ---------- the class ----------

  class BincodeDatagram<T, R> {
    const encode: T -> Encoding
    const decode: Bytes -> Option<R>
    const rxBuffer: array<Byte>
    const txBuffer: array<Byte>
    var bufferedSend: Option<nat>

    ghost predicate Valid()
      reads this
    {
      && rxBuffer != txBuffer
      && (bufferedSend.Some? ==> bufferedSend.value <= txBuffer.Length)
    }

    ghost function Buffered(): Option<Bytes>
      requires bufferedSend.Some? ==> bufferedSend.value <= txBuffer.Length
      reads this, txBuffer
    {
      if bufferedSend.None? then None else Some(txBuffer[..bufferedSend.value])
    }

    constructor Wrap(encode: T -> Encoding, decode: Bytes -> Option<R>, bufferSize: nat)
      ensures Valid() && Buffered() == None
      ensures this.encode == encode && this.decode == decode
      ensures rxBuffer.Length == txBuffer.Length == bufferSize && fresh(rxBuffer) && fresh(txBuffer)
    {
      this.encode, this.decode := encode, decode;
      rxBuffer := new Byte[bufferSize](_ => 0);
      txBuffer := new Byte[bufferSize](_ => 0);
      bufferedSend := None;
    }

    method PollComplete(answer: WriteAnswer) returns (result: CompleteResult, sent: seq<Bytes>)
      requires Valid() && Fits(Buffered(), answer)
      modifies `bufferedSend
      ensures Valid()
      ensures (Buffered(), result, sent) == Complete(old(Buffered()), answer)
      ensures result == Done <==> Buffered() == None
      ensures old(Buffered()).None? ==> result == Done && sent == []
      ensures old(Buffered()).Some? && !answer.Wrote? ==>
                && Buffered() == old(Buffered()) && sent == []
                && result == if answer == NotReady then Pending else CompleteFailed(IoError)
      ensures old(Buffered()).Some? && answer.Wrote? ==>
                && sent == [old(Buffered()).value[..answer.count]]
                && if answer.count == |old(Buffered()).value| then result == Done
                   else result == CompleteFailed(WriteZero) && Buffered() == old(Buffered())
    {
      if bufferedSend.None? {
        return Done, [];
      }
      var messageLength := bufferedSend.value;
      match answer {
        case NotReady => return Pending, [];
        case WriteFailed => return CompleteFailed(IoError), [];
        case Wrote(count) =>
          sent := [txBuffer[..count]];
          assert txBuffer[..messageLength][..count] == txBuffer[..count];
          if count != messageLength {
            return CompleteFailed(WriteZero), sent;
          }
          bufferedSend := None;
          return Done, sent;
      }
    }

    method StartSend(item: T, answer: WriteAnswer) returns (result: StartResult<T>, sent: seq<Bytes>)
      requires Valid() && Fits(Buffered(), answer)
      modifies `bufferedSend, txBuffer
      ensures Valid()
      ensures (Buffered(), result, sent) == Start(old(Buffered()), item, Limited(encode(item), txBuffer.Length), answer)
      // a message that could not be written yet, or not whole, keeps the new one out
      ensures old(Buffered()).Some? && answer == NotReady ==>
                result == Returned(item) && Buffered() == old(Buffered()) && sent == []
      ensures old(Buffered()).Some? && answer == WriteFailed ==>
                result == StartFailed(IoError) && Buffered() == old(Buffered()) && sent == []
      ensures old(Buffered()).Some? && answer.Wrote? && answer.count < |old(Buffered()).value| ==>
                && result == StartFailed(WriteZero) && Buffered() == old(Buffered())
                && sent == [old(Buffered()).value[..answer.count]]
      // otherwise the new one is taken iff it can be encoded in the buffer
      ensures old(Buffered()).None? || answer == Wrote(|old(Buffered()).value|) ==>
                && sent == InBuffer(old(Buffered()))
                && if encode(item).Encoded? && |encode(item).bytes| <= txBuffer.Length
                   then result == Accepted && Buffered() == Some(encode(item).bytes)
                   else result == StartFailed(EncodeError) && Buffered() == None
    {
      sent := [];
      if bufferedSend.Some? {
        var completed;
        completed, sent := PollComplete(answer);
        match completed {
          case Done =>
          case Pending => return Returned(item), sent;
          case CompleteFailed(error) => return StartFailed(error), sent;
        }
      }
      var encoding := Limited(encode(item), txBuffer.Length);
      var bytes := Written(encoding);
      forall i | 0 <= i < |bytes| {
        txBuffer[i] := bytes[i];
      }
      if encoding.Refused? {
        return StartFailed(EncodeError), sent;
      }
      bufferedSend := Some(|bytes|);
      assert txBuffer[..|bytes|] == bytes;
      return Accepted, sent;
    }

    method Poll(answer: ReadAnswer) returns (result: PollResult<R>)
      requires Valid()
      modifies rxBuffer
      ensures Valid()
      ensures Buffered() == old(Buffered())
      ensures result == Receive(rxBuffer.Length, decode, answer)
      ensures result == PollPending <==> answer == NothingYet
      ensures answer == ReadFailed ==> result == PollFailed
      ensures answer.Got? && |answer.datagram| <= rxBuffer.Length ==>
                if answer.datagram == [] then result == EndOfStream
                else if decode(answer.datagram).None? then result == PollFailed
                else result == Message(decode(answer.datagram).value)
    {
      match answer {
        case NothingYet => return PollPending;
        case ReadFailed => return PollFailed;
        case Got(datagram) =>
          var size := if |datagram| <= rxBuffer.Length then |datagram| else rxBuffer.Length;
          forall i | 0 <= i < size {
            rxBuffer[i] := datagram[i];
          }
          assert rxBuffer[..size] == Cut(datagram, rxBuffer.Length);
          if size == 0 {
            return EndOfStream;
          }
          match decode(rxBuffer[..size]) {
            case None => return PollFailed;
            case Some(message) => return Message(message);
          }
      }
    }
  }

  // ---------- whole runs ----------

  /** The two ends of a channel: how messages are encoded and decoded, and the sizes of the buffers. */
  datatype Link<!T> = Link(encode: T -> Encoding, decode: Bytes -> Option<T>, sendSize: nat, receiveSize: nat) {

    /** What serialising a message into the send buffer comes to. */
    function Encode(item: T): Encoding {
      Limited(encode(item), sendSize)
    }
  }

  datatype Op<T> =
    | DoStart(item: T, startAnswer: WriteAnswer)
    | DoComplete(completeAnswer: WriteAnswer)
    | DoPoll(readable: bool)

  /** Sender, the datagrams under way, and receiver; accepted and wire are histories. */
  datatype System<T> = System(
    buffered: Option<Bytes>, transit: seq<Bytes>, ended: bool, received: seq<T>, failed: bool,
    accepted: seq<T>, wire: seq<Bytes>)

  function Fresh<T>(): System<T> {
    System(None, [], false, [], false, [], [])
  }

  function AnswerOf<T>(op: Op<T>): WriteAnswer {
    match op
    case DoStart(_, answer) => answer
    case DoComplete(answer) => answer
    case DoPoll(_) => NotReady
  }

  predicate Possible<T>(s: System<T>, op: Op<T>) {
    Fits(s.buffered, AnswerOf(op))
  }

  function Step<T>(s: System<T>, op: Op<T>, link: Link<T>): System<T>
    requires Possible(s, op)
  {
    match op
    case DoStart(item, answer) =>
      var (buffered, result, sent) := Start(s.buffered, item, link.Encode(item), answer);
      s.(buffered := buffered, transit := s.transit + sent, wire := s.wire + sent,
         accepted := s.accepted + if result.Accepted? then [item] else [])
    case DoComplete(answer) =>
      var (buffered, _, sent) := Complete(s.buffered, answer);
      s.(buffered := buffered, transit := s.transit + sent, wire := s.wire + sent)
    case DoPoll(readable) =>
      if s.ended then s
      else if !readable || s.transit == [] then Polled(s, Receive(link.receiveSize, link.decode, NothingYet))
      else Polled(s.(transit := s.transit[1..]), Receive(link.receiveSize, link.decode, Got(s.transit[0])))
  }

  /** The receiver's record after a poll. */
  function Polled<T>(s: System<T>, result: PollResult<T>): System<T> {
    match result
    case PollPending => s
    case Message(message) => s.(received := s.received + [message])
    case EndOfStream => s.(ended := true)
    case PollFailed => s.(failed := true)
  }

  function Run<T>(ops: seq<Op<T>>, link: Link<T>): Option<System<T>> {
    if ops == [] then Some(Fresh())
    else
      var n := |ops| - 1;
      match Run(ops[..n], link)
      case None => None
      case Some(s) => if Possible(s, ops[n]) then Some(Step(s, ops[n], link)) else None
  }

  /** The op is a write of a buffered message that the transport takes only in part. */
  predicate IsShort<T>(s: System<T>, op: Op<T>) {
    s.buffered.Some? && AnswerOf(op).Wrote? && AnswerOf(op).count != |s.buffered.value|
  }

  function ShortWrites<T>(ops: seq<Op<T>>, link: Link<T>): nat
    requires Run(ops, link).Some?
  {
    if ops == [] then 0
    else
      var n := |ops| - 1;
      ShortWrites(ops[..n], link)
      + if IsShort(Run(ops[..n], link).value, ops[n]) then 1 else 0
  }

  function EncodeAll<T>(items: seq<T>, link: Link<T>): seq<Bytes> {
    seq(|items|, i requires 0 <= i < |items| => Written(link.Encode(items[i])))
  }

  lemma EncodeAllAppend<T>(items: seq<T>, item: T, link: Link<T>)
    ensures EncodeAll(items + [item], link) == EncodeAll(items, link) + [Written(link.Encode(item))]
  {
  }

  /** One call moves the buffered message out, whole, before it takes another one in. */
  lemma StepConserves<T>(s: System<T>, op: Op<T>, link: Link<T>)
    requires Possible(s, op) && !IsShort(s, op)
    requires EncodeAll(s.accepted, link) == s.wire + InBuffer(s.buffered)
    ensures var t := Step(s, op, link);
            EncodeAll(t.accepted, link) == t.wire + InBuffer(t.buffered)
  {
    if op.DoStart? {
      EncodeAllAppend(s.accepted, op.item, link);
    }
    var t := Step(s, op, link);
    assert s.accepted + [] == s.accepted && s.wire + [] == s.wire;
  }

  /**
    Exactly once and in order: on a transport that takes messages whole, however often it is
    not ready or fails, the messages accepted are the datagrams sent and then the buffered one.
   */
  lemma {:induction false} AcceptedAreSent<T>(ops: seq<Op<T>>, link: Link<T>)
    requires Run(ops, link).Some? && ShortWrites(ops, link) == 0
    ensures var s := Run(ops, link).value;
            EncodeAll(s.accepted, link) == s.wire + InBuffer(s.buffered)
    decreases |ops|
  {
    if ops != [] {
      var n := |ops| - 1;
      AcceptedAreSent(ops[..n], link);
      StepConserves(Run(ops[..n], link).value, ops[n], link);
    }
  }

  /** Every short write puts one datagram too many on the wire. */
  lemma {:induction false} ShortWritesCount<T>(ops: seq<Op<T>>, link: Link<T>)
    requires Run(ops, link).Some?
    ensures var s := Run(ops, link).value;
            |s.wire| + |InBuffer(s.buffered)| == |s.accepted| + ShortWrites(ops, link)
    decreases |ops|
  {
    if ops != [] {
      var n := |ops| - 1;
      ShortWritesCount(ops[..n], link);
      StepCounts(Run(ops[..n], link).value, ops[n], link);
    }
  }

  lemma StepCounts<T>(s: System<T>, op: Op<T>, link: Link<T>)
    requires Possible(s, op)
    ensures var t := Step(s, op, link);
            |t.wire| + |InBuffer(t.buffered)| - |t.accepted| ==
            |s.wire| + |InBuffer(s.buffered)| - |s.accepted| + if IsShort(s, op) then 1 else 0
  {
  }

  /** So sending is exact if and only if the transport never takes a message in part. */
  lemma SendingExactIff<T>(ops: seq<Op<T>>, link: Link<T>)
    requires Run(ops, link).Some?
    ensures var s := Run(ops, link).value;
            EncodeAll(s.accepted, link) == s.wire + InBuffer(s.buffered) <==>
            ShortWrites(ops, link) == 0
  {
    ShortWritesCount(ops, link);
    if ShortWrites(ops, link) == 0 {
      AcceptedAreSent(ops, link);
    }
  }

  /**
    For instance, a transport takes one byte of a message of two and then, when it is asked
    again, both: one message accepted, two datagrams sent.
   */
  lemma ShortWriteSendsTwice<T>(item: T, link: Link<T>, a: Byte, b: Byte)
    requires link.encode(item) == Encoded([a, b]) && link.sendSize >= 2
    ensures var ops := [DoStart(item, NotReady), DoComplete(Wrote(1)), DoComplete(Wrote(2))];
            && Run(ops, link).Some?
            && var s := Run(ops, link).value;
               s.accepted == [item] && s.wire == [[a], [a, b]] && s.buffered == None
  {
    var o0, o1, o2 := DoStart(item, NotReady), DoComplete(Wrote(1)), DoComplete(Wrote(2));
    var bytes := [a, b];
    assert bytes[..1] == [a] && bytes[..2] == bytes;
    RunAppend([], o0, link);
    RunAppend([o0], o1, link);
    RunAppend([o0, o1], o2, link);
    assert [] + [o0] == [o0] && [o0] + [o1] == [o0, o1] && [o0, o1] + [o2] == [o0, o1, o2];
  }

  lemma RunAppend<T>(ops: seq<Op<T>>, op: Op<T>, link: Link<T>)
    requires Run(ops, link).Some? && Possible(Run(ops, link).value, op)
    ensures Run(ops + [op], link) == Some(Step(Run(ops, link).value, op, link))
  {
    assert (ops + [op])[..|ops|] == ops;
  }

  // ---------- receiving ----------

  /** What start_send takes is encoded whole and fits the send buffer. */
  lemma {:induction false} AcceptedFit<T>(ops: seq<Op<T>>, link: Link<T>)
    requires Run(ops, link).Some?
    ensures forall item :: item in Run(ops, link).value.accepted ==>
              link.encode(item).Encoded? && |link.encode(item).bytes| <= link.sendSize
    decreases |ops|
  {
    if ops != [] {
      AcceptedFit(ops[..|ops| - 1], link);
    }
  }

  /** A message whose datagram the receiver reads whole and decodes. */
  ghost predicate Deliverable<T>(item: T, link: Link<T>) {
    var bytes := Written(link.Encode(item));
    0 < |bytes| <= link.receiveSize && link.decode(bytes) == Some(item)
  }

  /** A datagram that fits is delivered as the message it encodes iff it is not empty. */
  lemma DeliveredIffNonEmpty<T>(item: T, link: Link<T>)
    requires link.encode(item).Encoded? && |link.encode(item).bytes| <= link.receiveSize
    requires link.decode(link.encode(item).bytes) == Some(item)
    ensures var bytes := link.encode(item).bytes;
            && (Receive(link.receiveSize, link.decode, Got(bytes)) == Message(item) <==> bytes != [])
            && (bytes == [] <==> Receive(link.receiveSize, link.decode, Got(bytes)) == EndOfStream)
  {
  }

  /** With buffers of one size, all that is accepted and can be decoded is delivered unless it is empty. */
  lemma AcceptedDeliverable<T>(ops: seq<Op<T>>, link: Link<T>)
    requires Run(ops, link).Some? && link.sendSize <= link.receiveSize
    requires forall item :: link.encode(item).Encoded? ==> link.decode(link.encode(item).bytes) == Some(item)
    ensures forall item :: item in Run(ops, link).value.accepted ==>
              (Deliverable(item, link) <==> Written(link.encode(item)) != [])
  {
    AcceptedFit(ops, link);
  }

  ghost predicate AllDeliverable<T>(items: seq<T>, link: Link<T>) {
    forall i :: 0 <= i < |items| ==> Deliverable(items[i], link)
  }

  ghost predicate InFlight<T>(s: System<T>, link: Link<T>) {
    && !s.ended && !s.failed
    && |s.received| + |s.transit| == |s.wire| <= |s.accepted|
    && (forall i :: 0 <= i < |s.received| ==> s.received[i] == s.accepted[i])
    && (forall i :: 0 <= i < |s.transit| ==> s.transit[i] == Written(link.Encode(s.accepted[|s.received| + i])))
  }

  /** A poll delivers the next accepted message. */
  lemma PollDelivers<T>(s: System<T>, readable: bool, link: Link<T>)
    requires InFlight(s, link) && AllDeliverable(s.accepted, link)
    ensures InFlight(Step(s, DoPoll(readable), link), link)
    ensures readable && s.transit != [] ==>
              Step(s, DoPoll(readable), link).received == s.received + [s.accepted[|s.received|]]
  {
    if readable && s.transit != [] {
      var item := s.accepted[|s.received|];
      assert Deliverable(item, link);
      assert s.transit[0] == Written(link.Encode(item));
      var t := Step(s, DoPoll(readable), link);
      assert t.received == s.received + [item];
    }
  }

  /**
    End to end: what the receiver has got is a prefix of what the sender accepted, nothing is
    reported as the end or as an error, and what is missing is under way or buffered.
   */
  lemma {:induction false} ReceivedIsPrefix<T>(ops: seq<Op<T>>, link: Link<T>)
    requires Run(ops, link).Some? && ShortWrites(ops, link) == 0
    requires AllDeliverable(Run(ops, link).value.accepted, link)
    ensures InFlight(Run(ops, link).value, link)
    ensures Run(ops, link).value.received <= Run(ops, link).value.accepted
    decreases |ops|
  {
    if ops != [] {
      var n := |ops| - 1;
      var s := Run(ops[..n], link).value;
      var t := Run(ops, link).value;
      assert s.accepted == t.accepted[..|s.accepted|];
      ReceivedIsPrefix(ops[..n], link);
      if ops[n].DoPoll? {
        PollDelivers(s, ops[n].readable, link);
      } else {
        AcceptedAreSent(ops[..n], link);
        SendExtends(s, ops[n], link);
      }
    }
  }

  predicate SameReceiver<T(==)>(s: System<T>, t: System<T>) {
    t.received == s.received && t.ended == s.ended && t.failed == s.failed
  }

  lemma NothingSent<T>(s: System<T>, t: System<T>, link: Link<T>)
    requires InFlight(s, link) && SameReceiver(s, t) && s.accepted <= t.accepted
    requires t.wire == s.wire && t.transit == s.transit
    ensures InFlight(t, link)
  {
    assert forall i :: 0 <= i < |s.accepted| ==> t.accepted[i] == s.accepted[i];
  }

  lemma OneSent<T>(s: System<T>, t: System<T>, sent: Bytes, link: Link<T>)
    requires InFlight(s, link) && SameReceiver(s, t) && s.accepted <= t.accepted
    requires t.wire == s.wire + [sent] && t.transit == s.transit + [sent]
    requires |s.wire| < |s.accepted| && sent == Written(link.Encode(s.accepted[|s.wire|]))
    ensures InFlight(t, link)
  {
    assert forall i :: 0 <= i < |s.accepted| ==> t.accepted[i] == s.accepted[i];
  }

  lemma SendExtends<T>(s: System<T>, op: Op<T>, link: Link<T>)
    requires Possible(s, op) && !IsShort(s, op) && !op.DoPoll?
    requires InFlight(s, link) && EncodeAll(s.accepted, link) == s.wire + InBuffer(s.buffered)
    ensures InFlight(Step(s, op, link), link)
  {
    var t := Step(s, op, link);
    if s.buffered.Some? && AnswerOf(op).Wrote? {
      var sent := s.buffered.value;
      assert EncodeAll(s.accepted, link)[|s.wire|] == sent;
      OneSent(s, t, sent, link);
    } else {
      NothingSent(s, t, link);
    }
  }
}
