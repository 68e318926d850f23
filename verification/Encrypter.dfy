/** Connections to peers: what comes in is cut into fields, and fields are acted on. */
module Encrypters {
  import opened Basics
  import opened RawServers
  import opened Framing

  class Encoder {
    const myId: Bytes
    const maxLen: nat
    const downloadId: Bytes
    /** What the connecter does, depending on what it was told before. */
    const react: seq<Event> -> Reaction
    var everinc: bool
    var connections: set<Connection>

    constructor (myId: Bytes, maxLen: nat, downloadId: Bytes, react: seq<Event> -> Reaction)
      ensures connections == {} && !everinc
      ensures this.myId == myId && this.maxLen == maxLen && this.downloadId == downloadId && this.react == react
    {
      this.myId, this.maxLen, this.downloadId, this.react := myId, maxLen, downloadId, react;
      everinc, connections := false, {};
    }

    method ExternalConnectionMade(socket: SingleSocket) returns (c: Connection)
      requires socket.Valid() && socket.open && socket.accepted == []
      modifies this`connections, socket
      ensures fresh(c) && c.Valid() && connections == old(connections) + {c} && c.encoder == this
      ensures c.connection == socket
      ensures c.State() == Opened(c.Around(), [], false)
    {
      c := new Connection(this, socket, [], false);
      connections := connections + {c};
    }
  }

  class Connection {
    const encoder: Encoder
    const connection: SingleSocket
    const local: bool
    var id: Bytes
    var complete: bool
    var closed: bool
    var buffer: Bytes
    var nextLen: nat
    var nextFunc: State
    /** What the connecter was told. */
    var log: seq<Event>

    ghost predicate Valid()
      reads this, connection, encoder
    {
      && WF(State())
      && connection.Valid()
      && (!closed ==> connection.open && this in encoder.connections)
    }

    ghost function State(): Conn
      reads this, connection
    {
      Conn(id, local, complete, closed, buffer, nextLen, nextFunc, log, connection.accepted)
    }

    ghost function Around(): Env
      reads encoder, encoder.connections
    {
      Env(encoder.myId, encoder.downloadId, encoder.maxLen,
          set v | v in encoder.connections && v != this :: v.id, encoder.react)
    }

    /** Nothing about the other connections changed. */
    twostate lemma SameAround()
      requires encoder.connections - {this} == old(encoder.connections) - {this}
      requires forall v | v in old(encoder.connections) && v != this :: v.id == old(v.id)
      ensures Around() == old(Around())
    {
      forall v | v in encoder.connections && v != this ensures v in old(encoder.connections) {
        assert v in encoder.connections - {this};
      }
      forall v | v in old(encoder.connections) && v != this ensures v in encoder.connections {
        assert v in old(encoder.connections) - {this};
      }
      assert Around().taken == old(Around()).taken;
    }

    constructor (encoder: Encoder, connection: SingleSocket, id: Bytes, local: bool)
      requires connection.Valid() && connection.open && connection.accepted == []
      modifies connection
      ensures this.encoder == encoder && this.connection == connection
      ensures State() == Opened(Around(), id, local) && WF(State()) && connection.Valid() && connection.open
    {
      this.encoder, this.connection, this.id, this.local := encoder, connection, id, local;
      complete, closed, buffer, nextLen, nextFunc, log := false, false, [], 1, HeaderLen, [];
      new;
      if local {
        connection.Write(Hello(encoder.downloadId));
        if id != [] {
          connection.Write(encoder.myId);
        }
      }
    }

    /** `close` and `sever`. */
    method Close()
      requires connection.Valid() && (!closed ==> connection.open)
      modifies this`closed, this`log, connection, encoder`connections
      ensures connection.Valid() && State() == Framing.Close(old(State())) && closed && Around() == old(Around())
      ensures encoder.connections == if old(closed) then old(encoder.connections) else old(encoder.connections) - {this}
    {
      if !closed {
        connection.Close();
        closed := true;
        encoder.connections := encoder.connections - {this};
        log := log + if complete then [Lost] else [];
        SameAround();
      }
    }

    /** Tells the connecter something. */
    method Notify(e: Event) returns (raised: bool)
      requires connection.Valid() && !closed && connection.open
      modifies this`closed, this`log, connection, encoder`connections
      ensures connection.Valid() && (!closed ==> connection.open) && Around() == old(Around())
      ensures (State(), raised) == Framing.Notify(Around(), old(State()), e)
      ensures encoder.connections == if closed then old(encoder.connections) - {this} else old(encoder.connections)
    {
      log := log + [e];
      var r := encoder.react(log);
      if r.closes {
        Close();
      }
      raised := r.raises;
    }

    /** Is this the id of another connection? */
    method Taken(m: Bytes) returns (r: bool)
      requires id == []
      ensures r == (m != [] && m in Around().taken)
    {
      var rest := encoder.connections;
      r := false;
      while rest != {} && !r
        invariant rest <= encoder.connections
        invariant r ==> m != [] && m in Around().taken
        invariant !r ==> forall v | v in encoder.connections - rest :: m == [] || v.id != m
        decreases |rest|
      {
        var v :| v in rest;
        rest := rest - {v};
        r := m != [] && v.id == m;
      }
    }

    method ReadPeerId(m: Bytes) returns (o: Outcome)
      requires connection.Valid() && !closed && connection.open
      modifies this`id, this`complete, this`closed, this`log, connection, encoder`connections, encoder`everinc
      ensures connection.Valid() && (!closed ==> connection.open) && Around() == old(Around())
      ensures (State(), o) == Framing.ReadPeerId(old(Around()), old(State()), m)
      ensures encoder.connections == if closed then old(encoder.connections) - {this} else old(encoder.connections)
    {
      if id == [] {
        if m == encoder.myId {
          return Refuse;
        }
        var taken := Taken(m);
        if taken {
          return Refuse;
        }
        id := m;
        if local {
          connection.Write(encoder.myId);
        } else {
          encoder.everinc := true;
          log := log + [Incoming];
        }
      } else if m != id {
        return Refuse;
      }
      complete := true;
      SameAround();
      var raised := Notify(Made);
      o := if raised then Raise else Next(4, Len);
    }

    /** The call of `next_func`: one of the other `read_...` methods. */
    method Call(m: Bytes) returns (o: Outcome)
      requires connection.Valid() && !closed && connection.open
      modifies this`id, this`complete, this`closed, this`log, connection, encoder`connections, encoder`everinc
      ensures connection.Valid() && (!closed ==> connection.open) && Around() == old(Around())
      ensures (State(), o) == Framing.Call(old(Around()), old(State()), m)
      ensures encoder.connections == if closed then old(encoder.connections) - {this} else old(encoder.connections)
    {
      match nextFunc {
        case HeaderLen => o := if m != [19] then Refuse else Next(19, Header);
        case Header => o := if m != PROTOCOL then Refuse else Next(8, Reserved);
        case Reserved => o := Next(20, DownloadId);
        case DownloadId =>
          if m != encoder.downloadId {
            return Refuse;
          }
          if !local {
            assert connection.accepted + Hello(encoder.downloadId) + encoder.myId
                == connection.accepted + (Hello(encoder.downloadId) + encoder.myId);
            connection.Write(Hello(encoder.downloadId) + encoder.myId);
          }
          o := Next(20, PeerId);
        case PeerId => o := ReadPeerId(m);
        case Len => o := if ToInt(m) > encoder.maxLen then Refuse else Next(ToInt(m), Message);
        case Message =>
          var raised := false;
          if m != [] {
            raised := Notify(Got(m));
          }
          o := if raised then Raise else Next(4, Len);
        case Dead => o := Refuse;
      }
    }

    method SendMessage(message: Bytes)
      requires Valid() && !closed && |message| < 0x1_0000_0000
      modifies connection
      ensures Valid() && State() == old(State()).(written := old(connection.accepted) + Frame(message))
    {
      connection.Write(ToBinary(|message|) + message);
    }

    /** A message is sent. Then the socket may find itself writable any number of times. */
    method SendOne(m: Bytes)
      requires Valid() && !closed && |m| < 0x1_0000_0000
      modifies connection
      ensures Valid() && State() == old(State()).(written := old(connection.accepted) + Frame(m))
    {
      hide Frame, SingleSocket.Valid;
      SendMessage(m);
      var times: nat :| true;
      for k := 0 to times
        invariant Valid() && State() == old(State()).(written := old(connection.accepted) + Frame(m))
      {
        connection.TryWrite();
      }
    }

    /** Messages are sent one after the other. */
    method SendAll(ms: seq<Bytes>)
      requires Valid() && !closed && forall m | m in ms :: |m| < 0x1_0000_0000
      modifies connection
      ensures Valid() && State() == old(State()).(written := old(connection.accepted) + Stream(ms))
    {
      hide Stream, Frame, SingleSocket.Valid, Connection.Valid;
      StreamNone();
      assert ms[..0] == [] && connection.accepted + [] == connection.accepted;
      ghost var before := connection.accepted;
      for n := 0 to |ms|
        invariant Valid() && (forall m | m in ms[..n] :: |m| < 0x1_0000_0000)
        invariant State() == old(State()).(written := before + Stream(ms[..n]))
      {
        assert ms[n] in ms && ms[..n + 1] == ms[..n] + [ms[n]];
        StreamAppend(ms[..n], ms[n]);
        assert before + Stream(ms[..n]) + Frame(ms[n]) == before + (Stream(ms[..n]) + Frame(ms[n]));
        SendOne(ms[n]);
      }
      assert ms[..|ms|] == ms;
    }

    /** From one end to the other: after the handshake, messages are sent to a peer whose connection, of either kind,
        finds `other` around it. However much of that was sent by now, and in whatever chunks it arrives there, the
        beginning of the messages was delivered; and all of them once nothing is queued any more. */
    method SendToPeer(ms: seq<Bytes>, ghost other: Env, ghost id: Bytes, ghost isLocal: bool)
      requires Valid() && !closed && connection.accepted == Hello(encoder.downloadId) + encoder.myId
      requires other.downloadId == encoder.downloadId && Welcome(other, id, isLocal, encoder.myId)
      requires Quiet(other) && Sendable(ms, other.maxLen)
      modifies connection
      ensures Valid() && !closed
      ensures forall chunks | Concat(chunks) == connection.sent ::
        && Messages(FeedAll(other, Opened(other, id, isLocal), chunks).log) <= NonEmpty(ms)
        && (connection.IsFlushed() ==> Messages(FeedAll(other, Opened(other, id, isLocal), chunks).log) == NonEmpty(ms))
    {
      hide Stream, Hello, Messages, FeedAll, NonEmpty, Feed;
      SendAll(ms);
      if connection.IsFlushed() { connection.Flushed(); }
      forall chunks | Concat(chunks) == connection.sent
        ensures Messages(FeedAll(other, Opened(other, id, isLocal), chunks).log) <= NonEmpty(ms)
        ensures connection.IsFlushed() ==>
          Messages(FeedAll(other, Opened(other, id, isLocal), chunks).log) == NonEmpty(ms)
      {
        EndToEnd(other, id, isLocal, encoder.myId, ms, connection.sent, chunks);
      }
    }

    /** A field has come in completely, and is no longer in the buffer. */
    method Handle(m: Bytes) returns (raised: bool)
      requires Valid() && !closed && buffer == []
      modifies this, connection, encoder`connections, encoder`everinc
      ensures Valid() && Around() == old(Around())
      ensures (State(), raised) == Framing.Handle(old(Around()), old(State()), m)
      ensures encoder.connections == if closed then old(encoder.connections) - {this} else old(encoder.connections)
    {
      hide Framing.Call, SingleSocket.Valid, Connection.Around, ToInt;
      HandleWF(Around(), State(), m);
      raised := false;
      var o := Call(m);
      match o {
        case Raise =>
          nextLen, nextFunc, raised := 1, Dead, true;
        case Refuse =>
          Close();
        case Next(len, state) =>
          nextLen, nextFunc := len, state;
      }
      SameAround();
    }

    /** A chunk of data has come in. Fields that it completes are handled in turn, until an exception is raised. */
    method DataCameIn(s: Bytes) returns (raised: bool)
      requires Valid()
      modifies this, connection, encoder`connections, encoder`everinc
      ensures Valid() && State() == Feed(old(Around()), old(State()), s)
      ensures raised <==> nextFunc == Dead && old(nextFunc) != Dead
      ensures encoder.connections ==
        if closed && !old(closed) then old(encoder.connections) - {this} else old(encoder.connections)
    {
      hide Framing.Handle, SingleSocket.Valid, Connection.Around, ToInt;
      ghost var env := Around();
      var rest := s;
      while !closed && nextLen - |buffer| <= |rest|
        invariant Valid() && Around() == env && Feed(env, State(), rest) == Feed(env, old(State()), s)
        invariant (nextFunc == Dead <==> old(nextFunc) == Dead) && (old(closed) ==> closed)
        invariant encoder.connections ==
          if closed && !old(closed) then old(encoder.connections) - {this} else old(encoder.connections)
        decreases |rest|, if nextLen == 0 then 1 else 0
      {
        ghost var c := State();
        var i := nextLen - |buffer|;
        var m := buffer + rest[..i];
        rest := rest[i..];
        HandleWF(env, c, m);
        SameHandle(env, c, [], m);
        label L:
        buffer := [];
        SameAround@L();
        raised := Handle(m);
        if raised {
          return;
        }
      }
      if !closed {
        buffer := buffer + rest;
      }
      raised := false;
    }
  }
}
