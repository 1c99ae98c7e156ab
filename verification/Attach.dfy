/**
  Attaching to an object that another process placed in shared memory: a handle carries the
  offset of the object in the memory, and the receiver has a mapping of its own.
 */
module Attach {
  import opened Wrappers
  import L = Layout

  /** A mapping of len bytes of the memory with this token, from offset on, at an address. */
  datatype Mapping = Mapping(token: nat, offset: nat, len: nat, pointer: nat, readWrite: bool)

  datatype Error = WrongMemory | NotContained | OutOfRange | Misaligned | ReadOnly

  /** The object of this size at raw offset lies in the mapping. */
  predicate Contains(m: Mapping, rawOffset: nat, size: nat) {
    m.offset <= rawOffset && rawOffset + size <= m.offset + m.len
  }

  // ---------- the mutex ----------

  /** with_inner: where in the mapping the mutex lies; its poison flag follows the inner mutex. */
  function WithInner(m: Mapping, offset: nat, innerSize: nat): Result<nat, Error> {
    if m.len < offset + (innerSize + L.USIZE_SIZE) then Err(OutOfRange)
    else if (m.pointer + offset) % L.USIZE_SIZE != 0 then Err(Misaligned)
    else if !m.readWrite then Err(ReadOnly)
    else Ok(offset)
  }

  /** from_handle of the mutex, for a handle with this token and raw offset. */
  function MutexFromHandle(token: nat, rawOffset: nat, m: Mapping, innerSize: nat): Result<nat, Error> {
    if m.token != token then Err(WrongMemory)
    else if rawOffset < m.offset then Err(NotContained)
    else if m.len < (rawOffset - m.offset) + (innerSize + L.USIZE_SIZE) then Err(NotContained)
    else WithInner(m, rawOffset - m.offset, innerSize)
  }

  /**
    A mutex made in one mapping can be attached in another exactly when that one maps all of
    it, aligned and writable, and then both refer to the same bytes of the shared memory.
   */
  lemma MutexAttaches(home: Mapping, offset: nat, m: Mapping, innerSize: nat)
    requires WithInner(home, offset, innerSize).Ok?
    ensures var raw := home.offset + offset;
            var attached := MutexFromHandle(home.token, raw, m, innerSize);
            && (attached.Ok? <==>
                m.token == home.token && Contains(m, raw, innerSize + L.USIZE_SIZE)
                && (m.pointer + raw - m.offset) % L.USIZE_SIZE == 0 && m.readWrite)
            && (attached.Ok? ==> m.offset + attached.value == home.offset + offset)
            && (attached == Err(WrongMemory) <==> m.token != home.token)
            && (attached == Err(NotContained) <==>
                m.token == home.token && !Contains(m, raw, innerSize + L.USIZE_SIZE))
            && (attached == Err(Misaligned) <==>
                m.token == home.token && Contains(m, raw, innerSize + L.USIZE_SIZE)
                && (m.pointer + raw - m.offset) % L.USIZE_SIZE != 0)
            && attached != Err(OutOfRange)
  {
  }

  // ---------- the queue ----------

  /** from_handle of the queue; a negative position stands for an unsigned underflow. */
  function QueueFromHandle(token: nat, rawOffset: nat, size: nat, m: Mapping): Result<int, Error> {
    if token != m.token then Err(WrongMemory)
    else if !(rawOffset <= m.offset && rawOffset + size <= m.offset + m.len) then Err(NotContained)
    else Ok(rawOffset - m.offset)
  }

  /** A queue of other memory is always refused, and only with this error. */
  lemma QueueOfOtherMemory(token: nat, rawOffset: nat, size: nat, m: Mapping)
    ensures QueueFromHandle(token, rawOffset, size, m) == Err(WrongMemory) <==> token != m.token
  {
  }

  /**
    The containment test compares the start the wrong way round.  It agrees with containment
    if and only if the mapping starts where the queue does, or ends before the queue ends.
   */
  lemma QueueTestRightIff(token: nat, rawOffset: nat, size: nat, m: Mapping)
    ensures (QueueFromHandle(token, rawOffset, size, m).Ok? <==> token == m.token && Contains(m, rawOffset, size)) <==>
            (token != m.token || rawOffset == m.offset || m.offset + m.len < rawOffset + size)
  {
  }

  /** So an accepted queue has a position in the mapping only if the two start together. */
  lemma QueueAttaches(token: nat, rawOffset: nat, size: nat, m: Mapping)
    requires QueueFromHandle(token, rawOffset, size, m).Ok?
    ensures var position := QueueFromHandle(token, rawOffset, size, m).value;
            m.offset + position == rawOffset && (0 <= position <==> rawOffset == m.offset)
  {
  }

  lemma TwelveSlots()
    ensures L.RequiredSize(64, 12) == Some(1032)
  {
    L.ItemOffsetFits(64);
    L.Pow2Word();
    L.AlignIsLeast(64, 6, 64);
  }

  /**
    Two queues of 12 slots of 64 bytes, one after the other: a mapping of both refuses the second,
    and a mapping that starts inside the first, as Windows can map it, accepts that one.
   */
  lemma QueueTestWrong()
    ensures L.RequiredSize(64, 12).Some?
    ensures var size := L.RequiredSize(64, 12).value;
            var both, late := Mapping(1, 0, 4096, 0x10000, true), Mapping(1, 512, 4096, 0x10200, true);
            && Contains(both, size, size)
            && QueueFromHandle(1, size, size, both) == Err(NotContained)
            && !Contains(late, 0, size)
            && QueueFromHandle(1, 0, size, late) == Ok(-512)
  {
    TwelveSlots();
  }
}
