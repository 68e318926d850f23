/** One socket's queue of data to send. */
module RawServers {
  import opened Basics

  ghost function Concat(chunks: seq<Bytes>): Bytes {
    if chunks == [] then [] else chunks[0] + Concat(chunks[1..])
  }

  lemma {:induction false} ConcatAppend(chunks: seq<Bytes>, s: Bytes)
    ensures Concat(chunks + [s]) == Concat(chunks) + s
  {
    if chunks == [] {
      assert [s][1..] == [] && s + [] == s;
    } else {
      ConcatAppend(chunks[1..], s);
      assert (chunks + [s])[1..] == chunks[1..] + [s];
    }
  }

  /** What the operating system makes of a send: it takes some of the bytes, would block, or fails. */
  datatype Sending = Took(amount: nat) | WouldBlock | Failed

  class SingleSocket {
    var connected: bool
    var buffer: seq<Bytes>
    /** False once closed. */
    var open: bool
    /** Whether the socket is also polled for being writable, and whether sending failed. */
    var pollsWrites: bool
    var dead: bool
    /** The bytes the operating system took, and all bytes that were to be written. */
    var sent: Bytes
    ghost var accepted: Bytes
    /** Whether the last send was not taken completely. */
    ghost var refused: bool

    /** While the socket is open, what was sent and what is queued is what was written, in order; nothing else is
        ever sent. */
    ghost predicate Valid()
      reads this
    {
      sent <= accepted && (open ==> sent + Concat(buffer) == accepted)
    }

    constructor (connected: bool)
      ensures Valid() && open && accepted == sent == [] && buffer == [] && this.connected == connected
    {
      this.connected, buffer, open, pollsWrites, dead, sent, accepted := connected, [], true, false, false, [], [];
      refused := false;
    }

    predicate IsFlushed()
      reads this
    {
      |buffer| == 0
    }

    lemma Flushed()
      requires Valid() && open && IsFlushed()
      ensures sent == accepted
    {
    }

    method Close()
      requires Valid() && open
      modifies this`open, this`buffer
      ensures Valid() && !open && buffer == []
    {
      open, buffer := false, [];
    }

    method Write(s: Bytes)
      requires Valid() && open
      modifies this
      ensures Valid() && open && accepted == old(accepted) + s && connected == old(connected)
      ensures old(buffer) != [] || !connected ==> sent == old(sent) && buffer == old(buffer) + [s]
    {
      ConcatAppend(buffer, s);
      assert sent + (Concat(buffer) + s) == sent + Concat(buffer) + s;
      buffer := buffer + [s];
      accepted := accepted + s;
      if |buffer| == 1 {
        TryWrite();
      }
    }

    method TryWrite()
      requires Valid() && open
      modifies this`buffer, this`sent, this`pollsWrites, this`dead, this`refused
      ensures Valid() && (!connected ==> buffer == old(buffer) && sent == old(sent))
      ensures connected && !dead && buffer != [] ==> refused
      ensures |buffer| <= |old(buffer)| && old(sent) <= sent
      ensures !dead ==> pollsWrites == (buffer != [])
    {
      if connected {
        while buffer != []
          invariant Valid() && old(sent) <= sent && |buffer| <= |old(buffer)| && dead == old(dead)
          decreases |buffer|
        {
          var r := Send(buffer[0]);
          match r {
            case Failed =>
              dead := true;
              return;
            case WouldBlock =>
              break;
            case Took(amount) =>
              if amount != |buffer[0]| {
                if amount != 0 {
                  buffer := buffer[0 := buffer[0][amount..]];
                }
                break;
              }
              buffer := buffer[1..];
          }
        }
      }
      pollsWrites := buffer != [];
    }

    /** socket.send: any of its outcomes. */
    method Send(s: Bytes) returns (r: Sending)
      modifies this`sent, this`refused
      ensures refused <==> r != Took(|s|)
      ensures r.Took? ==> r.amount <= |s| && sent == old(sent) + s[..r.amount]
      ensures !r.Took? ==> sent == old(sent)
    {
      if
      case true =>
        var amount: nat :| amount <= |s|;
        sent := sent + s[..amount];
        r := Took(amount);
        refused := amount != |s|;
      case true => r, refused := WouldBlock, true;
      case true => r, refused := Failed, true;
    }
  }
}
