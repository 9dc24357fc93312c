/** The event handed from module to module, and the copy a policy works on. */
module Event {
  import opened Bytes

  const CONNECTION_DOWN: int := 1
  const CONNECTION_UP: int := 2
  const WRITE: int := 3

  class EventInfo {
    var kind: int
    var msglen: nat
    var msg: array<byte>

    constructor (kind: int, msglen: nat, msg: array<byte>)
      ensures this.kind == kind && this.msglen == msglen && this.msg == msg
    {
      this.kind, this.msglen, this.msg := kind, msglen, msg;
    }

    /** The message lies inside its buffer. */
    predicate Valid()
      reads this
    {
      msglen <= msg.Length
    }

    function Contents(): bytes
      requires Valid()
      reads this, msg
    {
      msg[..msglen]
    }

    /** nla_event_info_clone: same kind, same octets, a buffer of its own. */
    method Clone() returns (dup: EventInfo)
      requires Valid()
      ensures fresh(dup) && fresh(dup.msg) && dup.Valid()
      ensures dup.kind == kind && dup.Contents() == Contents() && dup.msg.Length == msglen
    {
      var buffer := new byte[msglen];
      for i := 0 to msglen
        invariant buffer[..i] == msg[..i]
      {
        buffer[i] := msg[i];
        assert buffer[..i + 1] == buffer[..i] + [buffer[i]];
      }
      dup := new EventInfo(kind, msglen, buffer);
    }
  }
}
