/**
  Serialising a message on Unix from the guard's creation to its end: the thread-local sender
  is swapped in, the message is serialised through it, and a commit moves its table into the
  control message of the channel.
 */
module UnixGuards {
  import opened Wrappers
  import H = HandleTable
  import C = ControlMessage

  class Thread {
    var sender: H.HandleSender?

    /** before_serialize: installs a fresh sender and returns the one it replaces. */
    method BeforeSerialize() returns (saved: H.HandleSender?)
      modifies this
      ensures saved == old(sender)
      ensures sender != null && fresh(sender) && fresh(sender.fds)
      ensures sender.Valid() && sender.Table() == []
    {
      saved := sender;
      sender := new H.HandleSender();
    }

    /** commit copies the table into the control message; then the guard is dropped. */
    method Commit(saved: H.HandleSender?, cmsg: C.Cmsg)
      requires sender != null && sender.Valid() && sender.index <= cmsg.words.Length
      modifies this, cmsg, cmsg.words
      ensures sender == saved
      ensures cmsg.View() == C.WithFds(old(cmsg.View()), old(sender.Table()))
    {
      cmsg.SetFds(sender.fds[..sender.index]);
      DropGuard(saved);
    }

    method DropGuard(saved: H.HandleSender?)
      modifies this
      ensures sender == saved
    {
      sender := saved;
    }

    /**
      A message whose serialisation fails leaves the control message alone; one that succeeds
      leaves its table there.  Either way the thread-local is back at its prior value.
     */
    method SerializeMessage(m: H.Message, dups: nat -> H.Dup, cmsg: C.Cmsg) returns (r: Result<H.Wire, H.Error>)
      requires cmsg.words.Length == H.MAX_MSG_FDS
      modifies this, cmsg, cmsg.words
      ensures sender == old(sender)
      ensures match H.Serialized([], m, dups)
              case Err(error) => r == Err(error) && cmsg.View() == old(cmsg.View())
              case Ok((table, wire)) => r == Ok(wire) && |table| <= H.MAX_MSG_FDS
                                        && cmsg.View() == C.WithFds(old(cmsg.View()), table)
    {
      var saved := BeforeSerialize();
      ghost var before := cmsg.View();
      r := sender.Serialize(m, dups);
      assert cmsg.View() == before;
      if r.Err? {
        DropGuard(saved);
      } else {
        Commit(saved, cmsg);
      }
    }
  }
}
