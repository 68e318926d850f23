/** The wire: a handshake followed by length-prefixed messages, cut into chunks in any way. */
module Framing {
  import opened Basics
  import opened RawServers

  // ---- Four-byte lengths ----

  function ToBinary(i: nat): (s: Bytes)
    requires i < 0x1_0000_0000
    ensures |s| == 4
  {
    [(i / 0x100_0000) as byte, (i / 0x1_0000 % 0x100) as byte, (i / 0x100 % 0x100) as byte, (i % 0x100) as byte]
  }

  function ToInt(s: Bytes): nat {
    if s == [] then 0 else ToInt(s[..|s| - 1]) * 0x100 + s[|s| - 1] as nat
  }

  lemma FourBytes(s: Bytes)
    requires |s| == 4
    ensures ToInt(s) == s[0] as nat * 0x100_0000 + s[1] as nat * 0x1_0000 + s[2] as nat * 0x100 + s[3] as nat
  {
    assert s[..3][..2] == s[..2] && s[..2][..1] == s[..1] && s[..1][..0] == [];
    assert ToInt(s[..1]) == s[0] as nat;
    assert ToInt(s[..2]) == ToInt(s[..1]) * 0x100 + s[1] as nat;
    assert ToInt(s[..3]) == ToInt(s[..2]) * 0x100 + s[2] as nat;
  }

  /** `toint` and `tobinary` undo each other. */
  lemma LengthRoundTrip(i: nat, s: Bytes)
    requires i < 0x1_0000_0000 && |s| == 4
    ensures ToInt(ToBinary(i)) == i
    ensures ToInt(s) < 0x1_0000_0000 && ToBinary(ToInt(s)) == s
  {
    FourBytes(ToBinary(i));
    FourBytes(s);
    Digits(s[0] as nat, s[1] as nat, s[2] as nat, s[3] as nat);
    DigitsOf(i);
    hide ToInt;
    var t := ToBinary(ToInt(s));
    assert forall k | 0 <= k < 4 :: t[k] == s[k];
  }

  /** The number in the four bytes from position `k` on, the highest byte first. */
  function Word(m: seq<byte>, k: nat): nat
    requires k + 4 <= |m|
  {
    m[k] as nat * 0x100_0000 + m[k + 1] as nat * 0x1_0000 + m[k + 2] as nat * 0x100 + m[k + 3] as nat
  }

  lemma WordIs(s: Bytes)
    requires |s| == 4
    ensures Word(s, 0) == ToInt(s) < 0x1_0000_0000 && ToBinary(Word(s, 0)) == s
  {
    FourBytes(s);
    LengthRoundTrip(0, s);
  }

  lemma Digits(a: nat, b: nat, c: nat, d: nat)
    requires a < 0x100 && b < 0x100 && c < 0x100 && d < 0x100
    ensures var i := a * 0x100_0000 + b * 0x1_0000 + c * 0x100 + d;
      && i < 0x1_0000_0000
      && i / 0x100_0000 == a && i / 0x1_0000 % 0x100 == b && i / 0x100 % 0x100 == c && i % 0x100 == d
  {
    var i := a * 0x100_0000 + b * 0x1_0000 + c * 0x100 + d;
    assert i / 0x100 == a * 0x1_0000 + b * 0x100 + c;
    assert i / 0x1_0000 == a * 0x100 + b;
  }

  lemma DigitsOf(i: nat)
    ensures i == i / 0x100_0000 * 0x100_0000 + i / 0x1_0000 % 0x100 * 0x1_0000 + i / 0x100 % 0x100 * 0x100 + i % 0x100
  {
    assert i / 0x1_0000 == i / 0x100 / 0x100 && i / 0x100_0000 == i / 0x1_0000 / 0x100;
  }

  // ---- Framing ----

  /** What `send_message` writes. */
  function Frame(m: Bytes): Bytes
    requires |m| < 0x1_0000_0000
  {
    ToBinary(|m|) + m
  }

  /** A frame is the length in four bytes, the highest first, and the message. */
  lemma FrameIs(m: Bytes, f: Bytes)
    requires |m| < 0x1_0000_0000
    ensures f == Frame(m) <==> |f| == 4 + |m| && Word(f, 0) == |m| && f[4..] == m
  {
    hide ToBinary, ToInt, Word;
    LengthRoundTrip(|m|, ToBinary(0));
    WordIs(ToBinary(|m|));
    if |f| >= 4 {
      WordIs(f[..4]);
      assert Word(f, 0) == Word(f[..4], 0) by { WordInside(f); }
      assert f == f[..4] + f[4..];
    }
  }

  lemma WordInside(f: Bytes)
    requires |f| >= 4
    ensures Word(f, 0) == Word(f[..4], 0)
  {
  }

  ghost predicate Sendable(ms: seq<Bytes>, maxLen: nat) {
    forall m | m in ms :: |m| <= maxLen && |m| < 0x1_0000_0000
  }

  ghost function Stream(ms: seq<Bytes>): Bytes
    requires forall m | m in ms :: |m| < 0x1_0000_0000
  {
    if ms == [] then [] else Frame(ms[0]) + Stream(ms[1..])
  }

  lemma StreamNone()
    ensures Stream([]) == []
  {
  }

  lemma {:induction false} StreamAppend(ms: seq<Bytes>, m: Bytes)
    requires forall x | x in ms :: |x| < 0x1_0000_0000
    requires |m| < 0x1_0000_0000
    ensures Stream(ms + [m]) == Stream(ms) + Frame(m)
  {
    hide Frame;
    if ms == [] {
      assert ms + [m] == [m] && [m][1..] == [];
      assert [] + Frame(m) == Frame(m) == Frame(m) + [];
    } else {
      StreamAppend(ms[1..], m);
      assert (ms + [m])[1..] == ms[1..] + [m];
      assert Frame(ms[0]) + (Stream(ms[1..]) + Frame(m)) == Frame(ms[0]) + Stream(ms[1..]) + Frame(m);
    }
  }

  /** Messages of no bytes only keep the connection alive. */
  function NonEmpty(ms: seq<Bytes>): seq<Bytes> {
    if ms == [] then [] else if ms[0] == [] then NonEmpty(ms[1..]) else [ms[0]] + NonEmpty(ms[1..])
  }

  lemma {:induction false} NonEmptyAppend(ms: seq<Bytes>, m: Bytes)
    ensures NonEmpty(ms + [m]) == NonEmpty(ms) + if m == [] then [] else [m]
  {
    if ms == [] {
      assert [m][1..] == [];
    } else {
      NonEmptyAppend(ms[1..], m);
      assert (ms + [m])[1..] == ms[1..] + [m];
    }
  }

  // ---- One connection as a value ----

  /** The `read_...` method that is to be called next. */
  datatype State = HeaderLen | Header | Reserved | DownloadId | PeerId | Len | Message | Dead

  /** What the connecter is told of this connection. */
  datatype Event = Made | Got(m: Bytes) | Lost | Incoming

  /** What the connecter does when it is told something: it may close the connection, and it may raise an exception. */
  datatype Reaction = Reaction(closes: bool, raises: bool)

  /** What a connection finds around it. `taken` are the ids of the other connections. */
  datatype Env = Env(myId: Bytes, downloadId: Bytes, maxLen: nat, taken: set<Bytes>, react: seq<Event> -> Reaction)

  /** An empty `id` stands for no id. `written` is what the connection wrote to its socket. */
  datatype Conn = Conn(id: Bytes, local: bool, complete: bool, closed: bool, buffer: Bytes, nextLen: nat, state: State,
                       log: seq<Event>, written: Bytes)

  datatype Outcome = Next(len: nat, state: State) | Refuse | Raise

  /** 'BitTorrent protocol' */
  const PROTOCOL: Bytes := [66, 105, 116, 84, 111, 114, 114, 101, 110, 116, 32, 112, 114, 111, 116, 111, 99, 111, 108]

  function Hello(downloadId: Bytes): Bytes {
    [19] + PROTOCOL + [0, 0, 0, 0, 0, 0, 0, 0] + downloadId
  }

  function Opened(env: Env, id: Bytes, local: bool): Conn {
    Conn(id, local, false, false, [], 1, HeaderLen, [],
         if local then Hello(env.downloadId) + (if id != [] then env.myId else []) else [])
  }

  /** A partly read field is shorter than its length; only a message can have length 0. */
  ghost predicate WF(c: Conn) {
    && (c.nextLen > 0 ==> |c.buffer| < c.nextLen)
    && (c.nextLen == 0 ==> c.buffer == [] && c.state == Message)
    && (c.state == HeaderLen || c.state == Dead ==> c.nextLen == 1)
    && (c.state == Header ==> c.nextLen == 19)
    && (c.state == Reserved ==> c.nextLen == 8)
    && (c.state == DownloadId || c.state == PeerId ==> c.nextLen == 20)
    && (c.state == Len ==> c.nextLen == 4)
  }

  function Close(c: Conn): Conn {
    if c.closed then c else c.(closed := true, log := c.log + if c.complete then [Lost] else [])
  }

  function Notify(env: Env, c: Conn, e: Event): (Conn, bool) {
    var c1 := c.(log := c.log + [e]);
    var r := env.react(c1.log);
    (if r.closes then Close(c1) else c1, r.raises)
  }

  function ReadPeerId(env: Env, c: Conn, m: Bytes): (Conn, Outcome) {
    if c.id != [] && m != c.id then (c, Refuse)
    else if c.id == [] && (m == env.myId || (m != [] && m in env.taken)) then (c, Refuse)
    else
      var c1 := if c.id != [] then c
                else if c.local then c.(id := m, written := c.written + env.myId)
                else c.(id := m, log := c.log + [Incoming]);
      var (c2, raised) := Notify(env, c1.(complete := true), Made);
      (c2, if raised then Raise else Next(4, Len))
  }

  function ReadMessage(env: Env, c: Conn, m: Bytes): (Conn, Outcome) {
    if m == [] then (c, Next(4, Len))
    else
      var (c1, raised) := Notify(env, c, Got(m));
      (c1, if raised then Raise else Next(4, Len))
  }

  /** The call of `next_func` on a complete field. */
  function Call(env: Env, c: Conn, m: Bytes): (Conn, Outcome) {
    match c.state
    case HeaderLen => (c, if m != [19] then Refuse else Next(19, Header))
    case Header => (c, if m != PROTOCOL then Refuse else Next(8, Reserved))
    case Reserved => (c, Next(20, DownloadId))
    case DownloadId =>
      if m != env.downloadId then (c, Refuse)
      else (if c.local then c else c.(written := c.written + Hello(env.downloadId) + env.myId), Next(20, PeerId))
    case PeerId => ReadPeerId(env, c, m)
    case Len => (c, if ToInt(m) > env.maxLen then Refuse else Next(ToInt(m), Message))
    case Message => ReadMessage(env, c, m)
    case Dead => (c, Refuse)
  }

  /** What a complete field leads to, and whether an exception passed through. */
  function Handle(env: Env, c: Conn, m: Bytes): (Conn, bool) {
    var (c1, o) := Call(env, c.(buffer := []), m);
    match o
    case Next(len, state) => (c1.(nextLen := len, state := state), false)
    case Refuse => (Close(c1), false)
    case Raise => (c1.(nextLen := 1, state := Dead), true)
  }

  lemma HandleWF(env: Env, c: Conn, m: Bytes)
    requires WF(c)
    ensures WF(Handle(env, c, m).0) && (c.nextLen == 0 ==> Handle(env, c, m).0.nextLen > 0)
    ensures Handle(env, c, m).1 ==> Handle(env, c, m).0.state == Dead && c.state != Dead
    ensures !Handle(env, c, m).1 && c.state != Dead ==> Handle(env, c, m).0.state != Dead
    ensures c.state == Dead ==> Handle(env, c, m).0.closed && Handle(env, c, m).0.state == Dead
  {
  }

  /** What `data_came_in` makes of a chunk. */
  ghost function Feed(env: Env, c: Conn, s: Bytes): (r: Conn)
    requires WF(c)
    ensures WF(r) && (r.closed || r.nextLen > 0)
    decreases |s|, if c.nextLen == 0 then 1 else 0
  {
    var i := c.nextLen - |c.buffer|;
    if c.closed then c
    else if i > |s| then c.(buffer := c.buffer + s)
    else
      HandleWF(env, c, c.buffer + s[..i]);
      var (c1, raised) := Handle(env, c, c.buffer + s[..i]);
      if raised then c1 else Feed(env, c1, s[i..])
  }

  // ---- Chunks ----

  /** What the connecter has been told when field `m` makes a call to it; None if the field makes no call. */
  ghost function Callback(env: Env, c: Conn, m: Bytes): Option<seq<Event>> {
    if c.state == Message && m != [] then Some(c.log + [Got(m)])
    else if c.state == PeerId && Acceptable(env, c, m) then
      Some(c.log + (if c.id == [] && !c.local then [Incoming] else []) + [Made])
    else None
  }

  ghost predicate Acceptable(env: Env, c: Conn, m: Bytes) {
    if c.id != [] then m == c.id else m != env.myId && (m == [] || m !in env.taken)
  }

  /** A connection is complete exactly when an acceptable id came in: the one expected, or if none was, any that is
      not our own nor another peer's. It is closed otherwise, and its id does not change any more. */
  lemma IdDecides(env: Env, c: Conn, m: Bytes)
    requires c.state == PeerId && !c.complete && !c.closed
    ensures var c' := Handle(env, c, m).0;
      && (c'.complete <==> Acceptable(env, c, m))
      && (c'.complete ==> c'.id == m && (c.id != [] ==> c'.id == c.id))
      && (!c'.complete ==> c'.closed && c'.log == c.log && c'.written == c.written)
  {
  }

  /** Whether a call to the connecter raises an exception while `a` is read, and leaves the connection open. */
  ghost predicate Raised(env: Env, c: Conn, a: Bytes)
    requires WF(c)
    decreases |a|, if c.nextLen == 0 then 1 else 0
  {
    var i := c.nextLen - |c.buffer|;
    !c.closed && i <= |a| &&
    var m := c.buffer + a[..i];
    var call := Callback(env, c, m);
    if call.Some? && env.react(call.value).raises then !env.react(call.value).closes
    else
      HandleWF(env, c, m);
      Raised(env, Handle(env, c, m).0, a[i..])
  }

  /** A field raises an exception exactly when the call that it makes does. */
  lemma HandleRaises(env: Env, c: Conn, m: Bytes)
    ensures var call := Callback(env, c, m);
      && (Handle(env, c, m).1 <==> call.Some? && env.react(call.value).raises)
      && (Handle(env, c, m).1 ==> Handle(env, c, m).0.state == Dead)
      && (Handle(env, c, m).1 && !c.closed ==> (Handle(env, c, m).0.closed <==> env.react(call.value).closes))
  {
    hide ToInt, Hello;
    assert c.log + [] + [Made] == c.log + [Made];
  }

  /** After such an exception, and only then, the connection is open but will take no more data. */
  lemma {:induction false} RaisedIs(env: Env, c: Conn, a: Bytes)
    requires WF(c)
    ensures Raised(env, c, a) <==> c.state != Dead && Feed(env, c, a).state == Dead && !Feed(env, c, a).closed
    decreases |a|, if c.nextLen == 0 then 1 else 0
  {
    hide Handle, Callback;
    var i := c.nextLen - |c.buffer|;
    if !c.closed && i <= |a| {
      var m := c.buffer + a[..i];
      HandleWF(env, c, m);
      HandleRaises(env, c, m);
      if !Handle(env, c, m).1 { RaisedIs(env, Handle(env, c, m).0, a[i..]); }
    }
  }

  /** So a connecter that raises no exceptions can be sent its data in any chunks. */
  lemma {:induction false} NeverRaised(env: Env, c: Conn, a: Bytes)
    requires WF(c) && forall l :: !env.react(l).raises
    ensures !Raised(env, c, a)
    decreases |a|, if c.nextLen == 0 then 1 else 0
  {
    hide Handle, Callback;
    var i := c.nextLen - |c.buffer|;
    if !c.closed && i <= |a| {
      HandleWF(env, c, c.buffer + a[..i]);
      NeverRaised(env, Handle(env, c, c.buffer + a[..i]).0, a[i..]);
    }
  }

  /** Cutting a chunk in two changes nothing, except when a call to the connecter raised an exception in the first part:
      then the second part closes the connection, while in one chunk it is dropped. */
  lemma {:induction false} Chunks(env: Env, c: Conn, a: Bytes, b: Bytes)
    requires WF(c)
    ensures Feed(env, Feed(env, c, a), b) == Feed(env, c, a + b) <==> !(Raised(env, c, a) && b != [])
    ensures Feed(env, c, a).state == Dead && c.state != Dead ==> Feed(env, c, a + b) == Feed(env, c, a)
    decreases |a|, if c.nextLen == 0 then 1 else 0
  {
    hide Handle, Callback;
    var i := c.nextLen - |c.buffer|;
    if c.closed {
    } else if i > |a| {
      FilledLater(env, c, a, b);
    } else {
      var m := c.buffer + a[..i];
      assert (a + b)[..i] == a[..i] && (a + b)[i..] == a[i..] + b;
      HandleWF(env, c, m);
      HandleRaises(env, c, m);
      var (c1, raised) := Handle(env, c, m);
      if raised {
        DeadEnd(env, c1, b);
      } else {
        Chunks(env, c1, a[i..], b);
        if c.state == Dead { assert c1.closed; }
      }
    }
  }

  /** The first part does not complete the field. */
  lemma FilledLater(env: Env, c: Conn, a: Bytes, b: Bytes)
    requires WF(c) && !c.closed && c.nextLen - |c.buffer| > |a|
    ensures Feed(env, Feed(env, c, a), b) == Feed(env, c, a + b) && Feed(env, c, a) == c.(buffer := c.buffer + a)
  {
    hide Handle;
    var i := c.nextLen - |c.buffer|;
    assert (c.buffer + a) + b == c.buffer + (a + b);
    if i <= |a + b| {
      assert (c.buffer + a) + b[..i - |a|] == c.buffer + (a + b)[..i];
      assert b[i - |a|..] == (a + b)[i..];
      SameHandle(env, c, c.buffer + a, c.buffer + (a + b)[..i]);
    }
  }

  /** The buffer is emptied before a field is handled. */
  lemma SameHandle(env: Env, c: Conn, buffer: Bytes, m: Bytes)
    ensures Handle(env, c.(buffer := buffer), m) == Handle(env, c, m)
  {
  }

  lemma DeadEnd(env: Env, c: Conn, b: Bytes)
    requires WF(c) && c.state == Dead
    ensures Feed(env, c, b) == c <==> c.closed || b == []
    ensures Feed(env, c, b) != c ==> Feed(env, c, b).closed
  {
    if !c.closed && b != [] {
      HandleWF(env, c, c.buffer + b[..1]);
    }
  }

  ghost function FeedAll(env: Env, c: Conn, chunks: seq<Bytes>): (r: Conn)
    requires WF(c)
    ensures WF(r)
    decreases |chunks|
  {
    if chunks == [] then c else FeedAll(env, Feed(env, c, chunks[0]), chunks[1..])
  }

  /** However a stream is cut into chunks, the connection ends in the same state, unless an exception was raised. */
  lemma {:induction false} AnyChunking(env: Env, c: Conn, chunks: seq<Bytes>)
    requires WF(c) && (c.closed || c.nextLen > 0) && !Raised(env, c, Concat(chunks))
    ensures FeedAll(env, c, chunks) == Feed(env, c, Concat(chunks))
    decreases |chunks|
  {
    if chunks == [] {
      assert c.buffer + [] == c.buffer;
    } else {
      hide Feed, Raised;
      var a, b := chunks[0], Concat(chunks[1..]);
      Chunks(env, c, a, b);
      RaisedSoFar(env, c, a, b);
      AnyChunking(env, Feed(env, c, a), chunks[1..]);
    }
  }

  /** What raises an exception in one of two parts does so in the whole. */
  lemma RaisedSoFar(env: Env, c: Conn, a: Bytes, b: Bytes)
    requires WF(c)
    ensures Raised(env, c, a) || Raised(env, Feed(env, c, a), b) ==> Raised(env, c, a + b)
    ensures Feed(env, c, a).closed || Feed(env, c, a).nextLen > 0
  {
    hide Feed, Raised;
    RaisedIs(env, c, a);
    RaisedIs(env, Feed(env, c, a), b);
    RaisedIs(env, c, a + b);
    Chunks(env, c, a, b);
    if c.state == Dead { DeadStays(env, c, a); }
    FeedWF(env, c, a);
  }

  lemma FeedWF(env: Env, c: Conn, a: Bytes)
    requires WF(c)
    ensures WF(Feed(env, c, a)) && (Feed(env, c, a).closed || Feed(env, c, a).nextLen > 0)
  {
  }

  lemma {:induction false} DeadStays(env: Env, c: Conn, a: Bytes)
    requires WF(c) && c.state == Dead
    ensures Feed(env, c, a).state == Dead
    decreases |a|, if c.nextLen == 0 then 1 else 0
  {
    if !c.closed && |a| > 0 {
      HandleWF(env, c, c.buffer + a[..1]);
      assert Handle(env, c, c.buffer + a[..1]).0 == Close(c.(buffer := []));
    }
  }

  // ---- What is delivered ----

  /** The messages among what the connecter was told. */
  ghost function Messages(log: seq<Event>): seq<Bytes> {
    if log == [] then []
    else Messages(log[..|log| - 1]) + if log[|log| - 1].Got? then [log[|log| - 1].m] else []
  }

  lemma Told(log: seq<Event>, e: Event)
    ensures Messages(log + [e]) == Messages(log) + if e.Got? then [e.m] else []
  {
    assert (log + [e])[..|log|] == log;
  }

  lemma ToldClose(c: Conn)
    ensures Messages(Close(c).log) == Messages(c.log)
  {
    Told(c.log, Lost);
    assert c.log + [] == c.log;
  }

  lemma ToldNotify(env: Env, c: Conn, e: Event)
    ensures Messages(Notify(env, c, e).0.log) == Messages(c.log) + if e.Got? then [e.m] else []
    ensures Notify(env, c, e).0.id == c.id && Notify(env, c, e).0.complete == c.complete
  {
    Told(c.log, e);
    ToldClose(c.(log := c.log + [e]));
  }

  lemma {:induction false} DeadTellsNothing(env: Env, c: Conn, chunks: seq<Bytes>)
    requires WF(c) && c.state == Dead
    ensures Messages(FeedAll(env, c, chunks).log) == Messages(c.log)
    decreases |chunks|
  {
    if chunks != [] {
      var c1 := Feed(env, c, chunks[0]);
      DeadStays(env, c, chunks[0]);
      if !c.closed && chunks[0] != [] {
        var m := c.buffer + chunks[0][..1];
        assert Handle(env, c, m).0 == Close(c.(buffer := []));
        HandleWF(env, c, m);
        ToldClose(c.(buffer := []));
        assert c1 == Handle(env, c, m).0;
      }
      DeadTellsNothing(env, c1, chunks[1..]);
    }
  }

  /** Whatever the connecter does, the messages it gets do not depend on how the stream is cut. */
  lemma {:induction false} SameMessages(env: Env, c: Conn, chunks: seq<Bytes>)
    requires WF(c) && (c.closed || c.nextLen > 0)
    ensures Messages(FeedAll(env, c, chunks).log) == Messages(Feed(env, c, Concat(chunks)).log)
    decreases |chunks|
  {
    if chunks == [] {
      assert c.buffer + [] == c.buffer;
    } else {
      var c1 := Feed(env, c, chunks[0]);
      Chunks(env, c, chunks[0], Concat(chunks[1..]));
      RaisedIs(env, c, chunks[0]);
      if Raised(env, c, chunks[0]) {
        DeadTellsNothing(env, c1, chunks[1..]);
      } else {
        SameMessages(env, c1, chunks[1..]);
      }
    }
  }

  /** `past`, all that came in, is explained by the connection's state: a correct handshake, then the frames of `ms`,
      then `rest`; and the connecter got the non-empty ones of `ms`. */
  ghost predicate Explains(env: Env, c: Conn, past: Bytes, ms: seq<Bytes>, rest: Bytes) {
    && (forall m | m in ms :: |m| < 0x1_0000_0000)
    && Messages(c.log) == NonEmpty(ms)
    && if c.complete then
         && |past| >= 68 && past[..20] == [19] + PROTOCOL && past[28..48] == env.downloadId && past[48..68] == c.id
         && past[68..] == Stream(ms) + rest
         && (!c.closed && c.state != Dead ==> Midway(c, rest))
       else
         && ms == [] && c.state != Dead
         && (!c.closed ==> Greeting(env, c, past))
  }

  ghost predicate Midway(c: Conn, rest: Bytes) {
    || (c.state == Len && rest == c.buffer)
    || (c.state == Message && c.nextLen < 0x1_0000_0000 && rest == ToBinary(c.nextLen) + c.buffer)
  }

  /** How much of the handshake has come in. */
  ghost predicate Greeting(env: Env, c: Conn, past: Bytes) {
    match c.state
    case HeaderLen => past == c.buffer
    case Header => past == [19] + c.buffer
    case Reserved => |past| >= 20 && past[..20] == [19] + PROTOCOL && past[20..] == c.buffer
    case DownloadId => |past| >= 28 && past[..20] == [19] + PROTOCOL && past[28..] == c.buffer
    case PeerId => |past| >= 48 && past[..20] == [19] + PROTOCOL && past[28..48] == env.downloadId
        && past[48..] == c.buffer
    case _ => false
  }

  lemma OpenedExplains(env: Env, id: Bytes, local: bool)
    ensures WF(Opened(env, id, local)) && Explains(env, Opened(env, id, local), [], [], [])
  {
  }

  /** More bytes that only fill the buffer. */
  lemma BufferExplains(env: Env, c: Conn, past: Bytes, ms: seq<Bytes>, rest: Bytes, s: Bytes) returns (rest': Bytes)
    requires Explains(env, c, past, ms, rest)
    ensures !c.closed ==> Explains(env, c.(buffer := c.buffer + s), past + s, ms, rest')
    ensures c.closed || c.state == Dead ==> Explains(env, c, past + s, ms, rest')
  {
    hide Messages, NonEmpty, Stream, ToBinary;
    rest' := rest + s;
    if c.complete {
      assert (past + s)[68..] == past[68..] + s;
      assert (past + s)[..20] == past[..20] && (past + s)[28..48] == past[28..48] && (past + s)[48..68] == past[48..68];
      assert Stream(ms) + rest' == Stream(ms) + rest + s;
      if c.state == Message && c.nextLen < 0x1_0000_0000 {
        assert ToBinary(c.nextLen) + (c.buffer + s) == ToBinary(c.nextLen) + c.buffer + s;
      }
    } else if !c.closed {
      GreetingMore(env, c, past, s);
    }
  }

  lemma GreetingMore(env: Env, c: Conn, past: Bytes, s: Bytes)
    requires Greeting(env, c, past)
    ensures Greeting(env, c.(buffer := c.buffer + s), past + s)
  {
    var p := past + s;
    if |past| >= 20 { assert p[..20] == past[..20] && p[20..] == past[20..] + s; }
    if |past| >= 28 { assert p[28..] == past[28..] + s; }
    if |past| >= 48 { assert p[28..48] == past[28..48] && p[48..] == past[48..] + s; }
    if c.state == Header { assert [19] + (c.buffer + s) == [19] + c.buffer + s; }
  }

  /** A field that has come in completely is handled. `c.buffer` holds all of it. */
  lemma CallExplains(env: Env, c: Conn, past: Bytes, ms: seq<Bytes>,
                     rest: Bytes) returns (ms': seq<Bytes>, rest': Bytes)
    requires Explains(env, c, past, ms, rest) && !c.closed && |c.buffer| == c.nextLen
    requires WF(c.(buffer := []))
    ensures Explains(env, Handle(env, c, c.buffer).0, past, ms', rest') && ms <= ms'
  {
    hide Messages, NonEmpty, Stream, ToBinary, ToInt;
    ms', rest' := ms, rest;
    var m, c0 := c.buffer, c.(buffer := []);
    ToldClose(c0);
    match c.state {
      case Len =>
        LengthRoundTrip(0, m);
        assert ToBinary(ToInt(m)) + [] == m;
      case Message =>
        ms', rest' := ms + [m], [];
        StreamAppend(ms, m);
        NonEmptyAppend(ms, m);
        assert Stream(ms) + rest == Stream(ms') + [];
        ToldNotify(env, c0, Got(m));
      case PeerId =>
        rest' := [];
        PeerIdExplains(env, c, past);
      case Dead =>
      case _ => GreetingStep(env, c, past);
    }
  }

  lemma GreetingStep(env: Env, c: Conn, past: Bytes)
    requires Explains(env, c, past, [], []) && !c.closed && !c.complete && |c.buffer| == c.nextLen
    requires WF(c.(buffer := [])) && c.state != PeerId
    ensures Explains(env, Handle(env, c, c.buffer).0, past, [], [])
  {
    hide Messages;
    ToldClose(c.(buffer := []));
    match c.state {
      case HeaderLen =>
      case Header => assert past == [19] + c.buffer && past[..20] == past;
      case Reserved =>
      case DownloadId => assert past[28..48] == past[28..];
      case _ =>
    }
  }

  lemma PeerIdExplains(env: Env, c: Conn, past: Bytes)
    requires Explains(env, c, past, [], []) && !c.closed && !c.complete && |c.buffer| == c.nextLen && c.state == PeerId
    requires WF(c.(buffer := []))
    ensures Explains(env, Handle(env, c, c.buffer).0, past, [], [])
  {
    hide Messages;
    var m, c0 := c.buffer, c.(buffer := []);
    ToldClose(c0);
    assert past[48..68] == m && past[68..] == [] && Stream([]) + [] == [];
    Told(c0.log, Incoming);
    var c1 := if c.id != [] then c0
              else if c.local then c0.(id := m, written := c.written + env.myId)
              else c0.(id := m, log := c.log + [Incoming]);
    ToldNotify(env, c1.(complete := true), Made);
  }

  /** Safety: at any time, what came in so far is a correct handshake followed by the frames of some messages and the
      beginning of one more, and exactly the non-empty ones of those messages were delivered, in order. */
  lemma {:induction false} Delivered(env: Env, c: Conn, past: Bytes, ms: seq<Bytes>, rest: Bytes, s: Bytes)
      returns (ms': seq<Bytes>, rest': Bytes)
    requires WF(c) && Explains(env, c, past, ms, rest)
    ensures Explains(env, Feed(env, c, s), past + s, ms', rest') && ms <= ms'
    decreases |s|, if c.nextLen == 0 then 1 else 0
  {
    hide Handle, Explains, Call;
    ms' := ms;
    var i := c.nextLen - |c.buffer|;
    if c.closed || i > |s| {
      rest' := BufferExplains(env, c, past, ms, rest, s);
    } else {
      var m := c.buffer + s[..i];
      HandleWF(env, c, m);
      SameHandle(env, c, m, m);
      var (c1, raised) := Handle(env, c, m);
      rest' := BufferExplains(env, c, past, ms, rest, s[..i]);
      ms', rest' := CallExplains(env, c.(buffer := m), past + s[..i], ms, rest');
      assert (past + s[..i]) + s[i..] == past + s;
      if raised {
        rest' := BufferExplains(env, c1, past + s[..i], ms', rest', s[i..]);
      } else {
        ms', rest' := Delivered(env, c1, past + s[..i], ms', rest', s[i..]);
      }
    }
  }

  /** So it is from the beginning, for a connection of either kind and any chunks. */
  lemma {:induction false} AllDelivered(env: Env, id: Bytes, local: bool,
                                        chunks: seq<Bytes>) returns (ms: seq<Bytes>, rest: Bytes)
    ensures WF(Opened(env, id, local))
    ensures Explains(env, FeedAll(env, Opened(env, id, local), chunks), Concat(chunks), ms, rest)
  {
    hide Explains, Feed, WF;
    OpenedExplains(env, id, local);
    ms, rest := DeliveredFrom(env, Opened(env, id, local), [], [], [], chunks);
    assert [] + Concat(chunks) == Concat(chunks);
  }

  lemma {:induction false} DeliveredFrom(env: Env, c: Conn, past: Bytes, ms: seq<Bytes>, rest: Bytes,
                                         chunks: seq<Bytes>)
      returns (ms': seq<Bytes>, rest': Bytes)
    requires WF(c) && Explains(env, c, past, ms, rest)
    ensures Explains(env, FeedAll(env, c, chunks), past + Concat(chunks), ms', rest')
    decreases |chunks|
  {
    hide Explains, Feed, WF;
    ms', rest' := ms, rest;
    if chunks == [] {
      assert past + [] == past;
    } else {
      ms', rest' := Delivered(env, c, past, ms, rest, chunks[0]);
      assert (past + chunks[0]) + Concat(chunks[1..]) == past + Concat(chunks);
      FeedWF(env, c, chunks[0]);
      ms', rest' := DeliveredFrom(env, Feed(env, c, chunks[0]), past + chunks[0], ms', rest', chunks[1..]);
    }
  }

  // ---- What the connecter is told ----

  /** The beginning: only an incoming connection, whose id was not known, is announced before it is made. */
  ghost function Begun(id: Bytes, local: bool): seq<Event> {
    if id == [] && !local then [Incoming, Made] else [Made]
  }

  /** Nothing is told before the connection is complete. Then come its making, the messages, and once it is closed, its
      loss. */
  ghost predicate Tells(c: Conn, id: Bytes, local: bool) {
    && (if c.complete then c.log == Begun(id, local) + Gots(Messages(c.log)) + if c.closed then [Lost] else []
        else c.log == [] && c.id == id && c.local == local)
    && (!c.closed ==> (c.complete <==> c.state in {Len, State.Message, Dead}))
  }

  lemma {:induction false} GotsMore(ms: seq<Bytes>, m: Bytes)
    ensures Gots(ms + [m]) == Gots(ms) + [Got(m)]
  {
    if ms == [] {
      assert [m][1..] == [];
    } else {
      GotsMore(ms[1..], m);
      assert (ms + [m])[1..] == ms[1..] + [m];
    }
  }

  lemma ClosedTells(c: Conn, id: Bytes, local: bool)
    requires Tells(c, id, local)
    ensures Tells(Close(c), id, local)
  {
    Told(c.log, Lost);
    assert Messages(c.log) + [] == Messages(c.log);
  }

  lemma BegunTells(env: Env, c: Conn, id: Bytes, local: bool)
    requires c.complete && !c.closed && c.log + [Made] == Begun(id, local)
    ensures Tells(Notify(env, c, Made).0.(state := Len), id, local)
  {
    var log := Begun(id, local);
    Told([], Incoming);
    Told([], Made);
    Told([Incoming], Made);
    assert [] + [Made] == [Made] && [] + [Incoming] == [Incoming] && [Incoming] + [Made] == [Incoming, Made];
    assert Messages(log) == [] && log + Gots([]) + [] == log;
    ClosedTells(c.(log := log, state := Len), id, local);
  }

  lemma GotTells(env: Env, c: Conn, id: Bytes, local: bool, m: Bytes)
    requires Tells(c, id, local) && c.complete && !c.closed
    ensures Tells(Notify(env, c, Got(m)).0, id, local)
  {
    hide Messages, Gots;
    var log := c.log + [Got(m)];
    Told(c.log, Got(m));
    GotsMore(Messages(c.log), m);
    assert c.log + [] == c.log;
    assert log == Begun(id, local) + Gots(Messages(log)) + [];
    ClosedTells(c.(log := log), id, local);
  }

  lemma StateOnly(c: Conn, c': Conn, id: Bytes, local: bool)
    requires Tells(c, id, local) && c' == c.(nextLen := c'.nextLen, state := c'.state)
    requires c'.complete <==> c'.state in {Len, State.Message, Dead}
    ensures Tells(c', id, local)
  {
  }

  lemma HandleTells(env: Env, c: Conn, id: Bytes, local: bool, m: Bytes)
    requires Tells(c, id, local) && !c.closed
    ensures Tells(Handle(env, c, m).0, id, local)
  {
    hide Messages, Gots, Hello, ToInt, Tells;
    var c0 := c.(buffer := []);
    assert Tells(c0, id, local) by { BufferTells(c, [], id, local); }
    ClosedTells(c0, id, local);
    TellsFacts(c0, id, local);
    if c.state == State.Message && m != [] {
      GotTells(env, c0, id, local, m);
      StateOnly(Notify(env, c0, Got(m)).0, Handle(env, c, m).0, id, local);
    } else if c.state == PeerId && Acceptable(env, c, m) {
      var c1 := if c.id != [] then c0
                else if c.local then c0.(id := m, written := c.written + env.myId)
                else c0.(id := m, log := c.log + [Incoming]);
      assert [] + [Incoming] + [Made] == [Incoming, Made] && [] + [Made] == [Made];
      BegunTells(env, c1.(complete := true), id, local);
      StateOnly(Notify(env, c1.(complete := true), Made).0.(state := Len), Handle(env, c, m).0, id, local);
    } else if c.state == DownloadId && m == env.downloadId {
      WrittenTells(c0, Handle(env, c, m).0.written, id, local);
      StateOnly(c0.(written := Handle(env, c, m).0.written), Handle(env, c, m).0, id, local);
    } else if !Handle(env, c, m).0.closed {
      StateOnly(c0, Handle(env, c, m).0, id, local);
    }
  }

  lemma BufferTells(c: Conn, buffer: Bytes, id: Bytes, local: bool)
    requires Tells(c, id, local)
    ensures Tells(c.(buffer := buffer), id, local)
  {
  }

  lemma WrittenTells(c: Conn, written: Bytes, id: Bytes, local: bool)
    requires Tells(c, id, local)
    ensures Tells(c.(written := written), id, local)
  {
  }

  lemma TellsFacts(c: Conn, id: Bytes, local: bool)
    requires Tells(c, id, local) && !c.closed
    ensures c.complete <==> c.state in {Len, State.Message, Dead}
    ensures !c.complete ==> c.log == [] && c.id == id && c.local == local
  {
  }

  lemma {:induction false} FeedTells(env: Env, c: Conn, id: Bytes, local: bool, s: Bytes)
    requires WF(c) && Tells(c, id, local)
    ensures Tells(Feed(env, c, s), id, local)
    decreases |s|, if c.nextLen == 0 then 1 else 0
  {
    hide Handle, Tells;
    var i := c.nextLen - |c.buffer|;
    if !c.closed && i > |s| {
      BufferTells(c, c.buffer + s, id, local);
    } else if !c.closed {
      var m := c.buffer + s[..i];
      HandleWF(env, c, m);
      HandleTells(env, c, id, local, m);
      if !Handle(env, c, m).1 { FeedTells(env, Handle(env, c, m).0, id, local, s[i..]); }
    }
  }

  lemma {:induction false} FeedAllTells(env: Env, c: Conn, id: Bytes, local: bool, chunks: seq<Bytes>)
    requires WF(c) && Tells(c, id, local)
    ensures Tells(FeedAll(env, c, chunks), id, local)
    decreases |chunks|
  {
    hide Feed, Tells;
    if chunks != [] {
      FeedTells(env, c, id, local, chunks[0]);
      FeedAllTells(env, Feed(env, c, chunks[0]), id, local, chunks[1..]);
    }
  }

  /** So it is for a connection of either kind, whatever comes in. */
  lemma AllTold(env: Env, id: Bytes, local: bool, chunks: seq<Bytes>)
    ensures WF(Opened(env, id, local))
    ensures var c := FeedAll(env, Opened(env, id, local), chunks);
      c.log == if c.complete then Begun(id, local) + Gots(Messages(c.log)) + (if c.closed then [Lost] else []) else []
  {
    hide Feed;
    FeedAllTells(env, Opened(env, id, local), id, local, chunks);
  }

  // ---- Whole conversations ----

  /** A connecter that lets connections be. */
  ghost predicate Quiet(env: Env) {
    forall l :: env.react(l) == Reaction(false, false)
  }

  ghost function Gots(ms: seq<Bytes>): (r: seq<Event>)
    ensures |r| == |ms|
  {
    if ms == [] then [] else [Got(ms[0])] + Gots(ms[1..])
  }

  /** Between two messages. */
  ghost predicate Ready(c: Conn) {
    c.complete && !c.closed && c.state == Len && c.nextLen == 4 && c.buffer == []
  }

  /** One field that comes in whole. */
  lemma FeedField(env: Env, c: Conn, m: Bytes, s: Bytes)
    requires WF(c) && !c.closed && c.buffer == [] && |m| == c.nextLen && !Handle(env, c, m).1
    ensures WF(Handle(env, c, m).0) && Feed(env, c, m + s) == Feed(env, Handle(env, c, m).0, s)
  {
    HandleWF(env, c, m);
    assert (m + s)[..|m|] == m && (m + s)[|m|..] == s && [] + m == m;
  }

  lemma FeedNothing(env: Env, c: Conn)
    requires WF(c) && c.nextLen > 0
    ensures Feed(env, c, []) == c
  {
    assert c.buffer + [] == c.buffer;
  }

  /** A frame delivers its message, unless that has no bytes. */
  lemma OneFrame(env: Env, c: Conn, m: Bytes, rest: Bytes)
    requires Quiet(env) && Ready(c) && |m| <= env.maxLen && |m| < 0x1_0000_0000
    ensures Feed(env, c, Frame(m) + rest) == Feed(env, c.(log := c.log + if m == [] then [] else [Got(m)]), rest)
  {
    hide ToBinary, ToInt, Feed, WF;
    LengthRoundTrip(|m|, ToBinary(0));
    var c1, c2 := c.(nextLen := |m|, state := Message), c.(log := c.log + if m == [] then [] else [Got(m)]);
    assert Frame(m) + rest == ToBinary(|m|) + (m + rest) && c.log + [] == c.log;
    ReadyFine(c);
    FeedField(env, c, ToBinary(|m|), m + rest);
    assert Handle(env, c, ToBinary(|m|)) == (c1, false);
    FeedField(env, c1, m, rest);
    assert Handle(env, c1, m) == (c2, false);
  }

  lemma ReadyFine(c: Conn)
    requires Ready(c)
    ensures WF(c)
  {
  }

  /** Liveness: the frames of messages that are not too long arrive as exactly the non-empty ones, in order. */
  lemma {:induction false} StreamDelivers(env: Env, c: Conn, ms: seq<Bytes>)
    requires Quiet(env) && Ready(c) && Sendable(ms, env.maxLen)
    ensures Feed(env, c, Stream(ms)) == c.(log := c.log + Gots(NonEmpty(ms)))
    decreases |ms|
  {
    hide ToBinary, ToInt, Feed, Frame;
    if ms == [] {
      FeedNothing(env, c);
      assert c.log + [] == c.log;
    } else {
      var m := ms[0];
      OneFrame(env, c, m, Stream(ms[1..]));
      var c2 := c.(log := c.log + if m == [] then [] else [Got(m)]);
      StreamDelivers(env, c2, ms[1..]);
      assert c.log + Gots(NonEmpty(ms)) == c2.log + Gots(NonEmpty(ms[1..]));
    }
  }

  /** The id `peerId` is welcome on a connection that expects `id`, or any id if that is empty. */
  ghost predicate Welcome(env: Env, id: Bytes, local: bool, peerId: Bytes) {
    && |env.downloadId| == 20 && |peerId| == 20
    && if id == [] then peerId != env.myId && peerId !in env.taken else local && id == peerId
  }

  ghost function Greetings(local: bool): seq<Event> {
    if local then [Made] else [Incoming, Made]
  }

  /** A connection after the handshake. */
  ghost function Accepted(env: Env, local: bool, peerId: Bytes): Conn {
    Conn(peerId, local, true, false, [], 4, Len, Greetings(local), Hello(env.downloadId) + env.myId)
  }

  /** The bytes are the codes of these characters. */
  ghost predicate Spells(s: Bytes, t: string) {
    |s| == |t| && forall i | 0 <= i < |s| :: s[i] as int == t[i] as int
  }

  /** A handshake by its bytes: the length of the name of the protocol, the name, eight bytes that may be anything, and
      what is downloaded. */
  ghost predicate Greets(h: Bytes, downloadId: Bytes) {
    |h| >= 48 && h[0] == 19 && Spells(h[1..20], "BitTorrent protocol") && h[28..48] == downloadId
  }

  lemma GreetsIs(h: Bytes, downloadId: Bytes)
    requires |h| >= 48
    ensures Greets(h, downloadId) <==> h[..1] == [19] && h[1..20] == PROTOCOL && h[28..48] == downloadId
  {
    assert Spells(PROTOCOL, "BitTorrent protocol");
  }

  /** Our own handshake is one. */
  lemma HelloGreets(downloadId: Bytes)
    requires |downloadId| == 20
    ensures var h := Hello(downloadId); |h| == 48 && Greets(h, downloadId) && forall i | 20 <= i < 28 :: h[i] == 0
  {
    GreetsIs(Hello(downloadId), downloadId);
  }

  ghost predicate Expected(env: Env, id: Bytes, peer: Bytes) {
    if id != [] then peer == id else peer != env.myId && peer !in env.taken
  }

  /** The first 68 bytes decide: a connection is complete if they are a handshake for what we download and an id that is
      the expected one or, if none is expected, new to us; otherwise it is closed and nobody is told. */
  lemma HandshakeDecides(env: Env, id: Bytes, local: bool, h: Bytes)
    requires |h| == 68
    ensures WF(Opened(env, id, local))
    ensures var c, peer := Feed(env, Opened(env, id, local), h), h[48..];
      && (c.complete <==> Greets(h, env.downloadId) && Expected(env, id, peer))
      && (c.complete ==> c.id == peer)
      && (!c.complete ==> c.closed && c.log == [])
  {
    hide Feed, Hello;
    var c := Opened(env, id, local);
    var c1, c2 := c.(nextLen := 19, state := Header), c.(nextLen := 8, state := Reserved);
    var c3 := c.(nextLen := 20, state := DownloadId);
    GreetsIs(h, env.downloadId);
    Cut(h, 0, 1); Cut(h, 1, 20); Cut(h, 20, 28); Cut(h, 28, 48);
    assert h[0..] == h && h[0..1] == h[..1] && c.log + [] == [];
    FeedField(env, c, h[..1], h[1..]);
    if h[..1] != [19] {
      FeedClosed(env, c.(closed := true), h[1..]);
    } else {
      FeedField(env, c1, h[1..20], h[20..]);
      if h[1..20] != PROTOCOL {
        FeedClosed(env, c1.(closed := true), h[20..]);
      } else {
        FeedField(env, c2, h[20..28], h[28..]);
        FeedField(env, c3, h[28..48], h[48..]);
        var c4 := Handle(env, c3, h[28..48]).0;
        if c4.closed {
          FeedClosed(env, c4, h[48..]);
        } else {
          FeedLast(env, c4, h[48..]);
          IdDecides(env, c4, h[48..]);
        }
      }
    }
  }

  lemma Cut(h: Bytes, i: nat, j: nat)
    requires i <= j <= |h|
    ensures h[i..] == h[i..j] + h[j..]
  {
  }

  lemma FeedClosed(env: Env, c: Conn, s: Bytes)
    requires WF(c) && c.closed
    ensures Feed(env, c, s) == c
  {
  }

  lemma FeedLast(env: Env, c: Conn, m: Bytes)
    requires WF(c) && !c.closed && c.state == PeerId && c.buffer == [] && |m| == 20
    ensures Feed(env, c, m) == Handle(env, c, m).0
  {
    hide Feed;
    HandleWF(env, c, m);
    if Handle(env, c, m).1 {
      LastRaises(env, c, m);
    } else {
      FeedField(env, c, m, []);
      assert m + [] == m;
      var c' := Handle(env, c, m).0;
      if c'.closed { FeedClosed(env, c', []); } else { FeedNothing(env, c'); }
    }
  }

  lemma LastRaises(env: Env, c: Conn, m: Bytes)
    requires WF(c) && !c.closed && c.buffer == [] && |m| == c.nextLen && Handle(env, c, m).1
    ensures Feed(env, c, m) == Handle(env, c, m).0
  {
    hide Handle;
    assert m[..|m|] == m && [] + m == m;
  }

  /** A length field decides: the connection is closed if it exceeds the limit. */
  lemma LengthDecides(env: Env, c: Conn, m: Bytes)
    requires c.state == Len && !c.closed && |m| == 4
    ensures var c' := Handle(env, c, m).0;
      && (c'.closed <==> Word(m, 0) > env.maxLen)
      && (!c'.closed ==> c' == c.(buffer := [], nextLen := Word(m, 0), state := Message))
  {
    WordIs(m);
  }

  /** A correct handshake is accepted, and answered. */
  lemma Handshake(env: Env, id: Bytes, local: bool, peerId: Bytes, s: Bytes)
    requires Welcome(env, id, local, peerId) && env.react(Greetings(local)) == Reaction(false, false)
    ensures WF(Opened(env, id, local)) && WF(Accepted(env, local, peerId))
    ensures Feed(env, Opened(env, id, local), Hello(env.downloadId) + peerId + s)
         == Feed(env, Accepted(env, local, peerId), s)
  {
    hide Feed;
    var c, zeros := Opened(env, id, local), [0, 0, 0, 0, 0, 0, 0, 0];
    var c1, c2 := c.(nextLen := 19, state := Header), c.(nextLen := 8, state := Reserved);
    var c3 := c.(nextLen := 20, state := DownloadId);
    var c4 := c.(nextLen := 20, state := PeerId,
                 written := if local then c.written else Hello(env.downloadId) + env.myId);
    assert Hello(env.downloadId) + peerId + s == [19] + (PROTOCOL + (zeros + (env.downloadId + (peerId + s))));
    FeedField(env, c, [19], PROTOCOL + (zeros + (env.downloadId + (peerId + s))));
    FeedField(env, c1, PROTOCOL, zeros + (env.downloadId + (peerId + s)));
    FeedField(env, c2, zeros, env.downloadId + (peerId + s));
    assert [] + Hello(env.downloadId) + env.myId == Hello(env.downloadId) + env.myId;
    assert Handle(env, c3, env.downloadId) == (c4, false);
    FeedField(env, c3, env.downloadId, peerId + s);
    LastGreeting(env, id, local, peerId, c4);
    FeedField(env, c4, peerId, s);
  }

  lemma LastGreeting(env: Env, id: Bytes, local: bool, peerId: Bytes, c: Conn)
    requires Welcome(env, id, local, peerId) && env.react(Greetings(local)) == Reaction(false, false)
    requires c == Opened(env, id, local).(nextLen := 20, state := PeerId, written := c.written)
    requires c.written == if local then Opened(env, id, local).written else Hello(env.downloadId) + env.myId
    ensures Handle(env, c, peerId) == (Accepted(env, local, peerId), false)
  {
    hide Hello;
    assert [] + [Incoming] + [Made] == [Incoming, Made] && [] + [Made] == [Made];
    assert Hello(env.downloadId) + [] == Hello(env.downloadId);
  }

  /** A connection of either kind on which a correct handshake comes in, with the expected id or one that is not taken,
      is accepted, and answered with its own handshake; the messages that follow are delivered, however all of this is
      cut into chunks. */
  lemma Conversation(env: Env, id: Bytes, local: bool, peerId: Bytes, ms: seq<Bytes>, chunks: seq<Bytes>)
    requires Quiet(env) && Welcome(env, id, local, peerId) && Sendable(ms, env.maxLen)
    requires Concat(chunks) == Hello(env.downloadId) + peerId + Stream(ms)
    ensures WF(Opened(env, id, local))
    ensures FeedAll(env, Opened(env, id, local), chunks)
         == Accepted(env, local, peerId).(log := Greetings(local) + Gots(NonEmpty(ms)))
  {
    hide Stream, Gots, NonEmpty, Hello, Feed, Raised;
    Handshake(env, id, local, peerId, Stream(ms));
    StreamDelivers(env, Accepted(env, local, peerId), ms);
    NeverRaised(env, Opened(env, id, local), Concat(chunks));
    AnyChunking(env, Opened(env, id, local), chunks);
  }

  /** An exception that passes through makes the cut matter: on any connection, after a correct handshake, a message at
      which the connecter raises one. In one chunk the rest is dropped; in a second chunk it closes the connection. */
  lemma CutMatters(env: Env, id: Bytes, local: bool, peerId: Bytes, m: Bytes, b: Bytes)
    requires Welcome(env, id, local, peerId) && 0 < |m| <= env.maxLen && |m| < 0x1_0000_0000 && b != []
    requires env.react(Greetings(local)) == Reaction(false, false)
    requires env.react(Greetings(local) + [Got(m)]) == Reaction(false, true)
    ensures WF(Opened(env, id, local))
    ensures var a := Hello(env.downloadId) + peerId + Frame(m);
      && !Feed(env, Opened(env, id, local), a + b).closed
      && Feed(env, Feed(env, Opened(env, id, local), a), b).closed
  {
    hide Hello, Feed, ToInt, ToBinary, Raised;
    var c, c1 := Opened(env, id, local), Accepted(env, local, peerId);
    var a, dead := Hello(env.downloadId) + peerId + Frame(m),
        c1.(log := c1.log + [Got(m)], nextLen := 1, state := Dead);
    Handshake(env, id, local, peerId, Frame(m));
    RaisingFrame(env, c1, m);
    Chunks(env, c, a, b);
    DeadEnd(env, dead, b);
  }

  /** A connecter that raises an exception at every message. */
  function Touchy(l: seq<Event>): Reaction {
    Reaction(false, l != [] && l[|l| - 1].Got?)
  }

  /** An incoming connection to such a connecter, for which the cut matters. */
  lemma CutMattersHere(b: Bytes)
    requires b != []
    ensures var env := Env(seq(20, _ => 0), seq(20, _ => 1), 9, {}, Touchy);
      var c, a := Opened(env, [], false), Hello(env.downloadId) + seq(20, _ => 2) + Frame([7]);
      WF(c) && !Feed(env, c, a + b).closed && Feed(env, Feed(env, c, a), b).closed
  {
    hide Feed, Hello, Frame;
    var env, peerId: Bytes := Env(seq(20, _ => 0), seq(20, _ => 1), 9, {}, Touchy), seq(20, _ => 2);
    assert env.myId[0] == 0 && peerId[0] == 2;
    assert (Greetings(false) + [Got([7])])[2] == Got([7]);
    CutMatters(env, [], false, peerId, [7], b);
  }

  lemma RaisingFrame(env: Env, c: Conn, m: Bytes)
    requires Ready(c) && 0 < |m| <= env.maxLen && |m| < 0x1_0000_0000
    requires env.react(c.log + [Got(m)]) == Reaction(false, true)
    ensures WF(c) && Feed(env, c, Frame(m)) == c.(log := c.log + [Got(m)], nextLen := 1, state := Dead)
  {
    hide ToBinary, ToInt;
    LengthRoundTrip(|m|, ToBinary(0));
    var c1 := c.(nextLen := |m|, state := Message);
    FeedField(env, c, ToBinary(|m|), m);
    assert Handle(env, c, ToBinary(|m|)) == (c1, false);
    assert m[..|m|] == m && m[|m|..] == [] && [] + m == m;
    assert Handle(env, c1, m) == (c.(log := c.log + [Got(m)], nextLen := 1, state := Dead), true);
  }

  lemma {:induction false} LogGrows(env: Env, c: Conn, s: Bytes)
    requires WF(c)
    ensures c.log <= Feed(env, c, s).log
    decreases |s|, if c.nextLen == 0 then 1 else 0
  {
    hide Handle;
    var i := c.nextLen - |c.buffer|;
    if !c.closed && i <= |s| {
      var m := c.buffer + s[..i];
      HandleWF(env, c, m);
      var (c1, raised) := Handle(env, c, m);
      HandleLogs(env, c, m);
      if !raised { LogGrows(env, c1, s[i..]); }
    }
  }

  lemma HandleLogs(env: Env, c: Conn, m: Bytes)
    ensures c.log <= Handle(env, c, m).0.log
  {
    hide ToInt, Call, Close;
    CloseLogs(Call(env, c.(buffer := []), m).0);
    CallLogs(env, c.(buffer := []), m);
  }

  lemma CloseLogs(c: Conn)
    ensures c.log <= Close(c).log
  {
  }

  lemma NotifyLogs(env: Env, c: Conn, e: Event)
    ensures c.log <= Notify(env, c, e).0.log
  {
    CloseLogs(c.(log := c.log + [e]));
  }

  lemma CallLogs(env: Env, c: Conn, m: Bytes)
    ensures c.log <= Call(env, c, m).0.log
  {
    hide ToInt, Notify, Hello;
    if c.state == Message { NotifyLogs(env, c, Got(m)); }
    if c.state == PeerId {
      var c1 := if c.id != [] then c
                else if c.local then c.(id := m, written := c.written + env.myId)
                else c.(id := m, log := c.log + [Incoming]);
      NotifyLogs(env, c1.(complete := true), Made);
    }
  }

  lemma {:induction false} MessagesGrow(log: seq<Event>, log': seq<Event>)
    requires log <= log'
    ensures Messages(log) <= Messages(log')
  {
    if log != log' {
      MessagesGrow(log, log'[..|log'| - 1]);
    }
  }

  /** While part of a stream is still on its way, a prefix of its messages has been delivered, and never anything
      that the whole stream would not deliver. */
  lemma PartDelivered(env: Env, c: Conn, part: Bytes, whole: Bytes)
    requires WF(c) && part <= whole
    ensures Messages(Feed(env, c, part).log) <= Messages(Feed(env, c, whole).log)
  {
    hide Feed, Raised;
    var later := whole[|part|..];
    assert part + later == whole;
    Chunks(env, c, part, later);
    RaisedIs(env, c, part);
    if !Raised(env, c, part) {
      LogGrows(env, Feed(env, c, part), later);
      MessagesGrow(Feed(env, c, part).log, Feed(env, c, whole).log);
    }
  }

  lemma {:induction false} MessagesOfGots(log: seq<Event>, ms: seq<Bytes>)
    ensures Messages(log + Gots(ms)) == Messages(log) + ms
    decreases |ms|
  {
    if ms == [] {
      assert log + [] == log;
    } else {
      assert log + Gots(ms) == (log + [Got(ms[0])]) + Gots(ms[1..]);
      MessagesOfGots(log + [Got(ms[0])], ms[1..]);
      Told(log, Got(ms[0]));
      assert Messages(log) + [ms[0]] + ms[1..] == Messages(log) + ms;
    }
  }

  lemma GreetingsTellNothing(local: bool)
    ensures Messages(Greetings(local)) == []
  {
    Told([], Made);
    Told([], Incoming);
    Told([Incoming], Made);
    assert [] + [Made] == [Made] && [] + [Incoming] == [Incoming] && [Incoming] + [Made] == [Incoming, Made];
  }

  /** End to end: when the peer has written its handshake and `ms`, and `sent` of that was sent so far, then whatever
      chunks that arrives in, the beginning of the non-empty ones of `ms` was delivered, and all of them once all is
      sent. */
  lemma EndToEnd(env: Env, id: Bytes, local: bool, peerId: Bytes, ms: seq<Bytes>, sent: Bytes, chunks: seq<Bytes>)
    requires Quiet(env) && Welcome(env, id, local, peerId) && Sendable(ms, env.maxLen)
    requires sent <= Hello(env.downloadId) + peerId + Stream(ms) && Concat(chunks) == sent
    ensures WF(Opened(env, id, local))
    ensures Messages(FeedAll(env, Opened(env, id, local), chunks).log) <= NonEmpty(ms)
    ensures sent == Hello(env.downloadId) + peerId + Stream(ms) ==>
      Messages(FeedAll(env, Opened(env, id, local), chunks).log) == NonEmpty(ms)
  {
    hide Stream, NonEmpty, Hello, Feed, FeedAll, Messages, Gots, Greetings;
    var c, whole := Opened(env, id, local), Hello(env.downloadId) + peerId + Stream(ms);
    Handshake(env, id, local, peerId, Stream(ms));
    StreamDelivers(env, Accepted(env, local, peerId), ms);
    MessagesOfGots(Greetings(local), NonEmpty(ms));
    GreetingsTellNothing(local);
    assert [] + NonEmpty(ms) == NonEmpty(ms);
    SameMessages(env, c, chunks);
    PartDelivered(env, c, sent, whole);
  }

  /** Once the handshake is over, what a connection has written is its own handshake. */
  lemma {:induction false} WrittenIs(env: Env, id: Bytes, local: bool, chunks: seq<Bytes>)
    requires id == [] || local
    ensures WF(Opened(env, id, local))
    ensures FeedAll(env, Opened(env, id, local), chunks).complete ==>
      FeedAll(env, Opened(env, id, local), chunks).written == Hello(env.downloadId) + env.myId
  {
    hide Feed, Hello;
    assert Hello(env.downloadId) + [] == Hello(env.downloadId);
    AllHasWritten(env, Opened(env, id, local), chunks);
  }

  /** How far the own handshake was written, in each state. */
  ghost predicate HasWritten(env: Env, c: Conn) {
    && (c.complete ==> c.state == Len || c.state == Message || c.state == Dead)
    && if c.complete || (c.local && c.id != []) then c.written == Hello(env.downloadId) + env.myId
    else
      && c.id == []
      && (c.local ==> c.written == Hello(env.downloadId))
      && (!c.local ==> c.written == if c.state == PeerId then Hello(env.downloadId) + env.myId else [])
  }

  lemma {:induction false} AllHasWritten(env: Env, c: Conn, chunks: seq<Bytes>)
    requires WF(c) && (HasWritten(env, c) || (c.closed && !c.complete))
    ensures FeedAll(env, c, chunks).complete ==> HasWritten(env, FeedAll(env, c, chunks))
    decreases |chunks|
  {
    hide Feed, Hello;
    if chunks != [] {
      FeedHasWritten(env, c, chunks[0]);
      FeedWF(env, c, chunks[0]);
      AllHasWritten(env, Feed(env, c, chunks[0]), chunks[1..]);
    }
  }

  lemma {:induction false} FeedHasWritten(env: Env, c: Conn, s: Bytes)
    requires WF(c) && (HasWritten(env, c) || (c.closed && !c.complete))
    ensures HasWritten(env, Feed(env, c, s)) || (Feed(env, c, s).closed && !Feed(env, c, s).complete)
    decreases |s|, if c.nextLen == 0 then 1 else 0
  {
    hide Handle, Hello;
    var i := c.nextLen - |c.buffer|;
    if !c.closed && i <= |s| {
      var m := c.buffer + s[..i];
      HandleWF(env, c, m);
      HandleHasWritten(env, c, m);
      if !Handle(env, c, m).1 { FeedHasWritten(env, Handle(env, c, m).0, s[i..]); }
    }
  }

  lemma HandleHasWritten(env: Env, c: Conn, m: Bytes)
    requires HasWritten(env, c) && !c.closed
    ensures HasWritten(env, Handle(env, c, m).0) || (Handle(env, c, m).0.closed && !Handle(env, c, m).0.complete)
  {
    hide Hello, ToInt;
    assert [] + Hello(env.downloadId) + env.myId == Hello(env.downloadId) + env.myId;
  }
}
