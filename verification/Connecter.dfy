/** Peer messages (BEP 3, section "peer protocol"): what is sent is understood as what was meant, nothing else is. */
module Connecters {
  import opened Basics
  import opened Bitfields
  import opened Framing

  /** What a message asks for. The names are those of the send methods. */
  datatype Call =
    | Choke
    | Unchoke
    | Interested
    | NotInterested
    | Have(index: nat)
    | Bits(bits: seq<bool>)
    | Request(index: nat, begin: nat, length: nat)
    | Piece(index: nat, begin: nat, piece: seq<byte>)
    | Cancel(index: nat, begin: nat, length: nat)

  const CHOKE: byte := 0
  const UNCHOKE: byte := 1
  const INTERESTED: byte := 2
  const NOT_INTERESTED: byte := 3
  const HAVE: byte := 4
  const BITFIELD: byte := 5
  const REQUEST: byte := 6
  const PIECE: byte := 7
  const CANCEL: byte := 8

  const LIMIT := 0x1_0000_0000

  /** The numbers fit their four bytes. */
  predicate FitsWords(c: Call) {
    match c
    case Have(i) => i < LIMIT
    case Request(i, b, l) => i < LIMIT && b < LIMIT && l < LIMIT
    case Piece(i, b, _) => i < LIMIT && b < LIMIT
    case Cancel(i, b, l) => i < LIMIT && b < LIMIT && l < LIMIT
    case _ => true
  }

  /** What the send methods pass on. */
  function Encode(c: Call): (m: seq<byte>)
    requires FitsWords(c)
    ensures m != []
  {
    match c
    case Choke => [CHOKE]
    case Unchoke => [UNCHOKE]
    case Interested => [INTERESTED]
    case NotInterested => [NOT_INTERESTED]
    case Have(i) => [HAVE] + ToBinary(i)
    case Bits(bits) => [BITFIELD] + Pack(bits)
    case Request(i, b, l) => [REQUEST] + ToBinary(i) + ToBinary(b) + ToBinary(l)
    case Piece(i, b, piece) => [PIECE] + ToBinary(i) + ToBinary(b) + piece
    case Cancel(i, b, l) => [CANCEL] + ToBinary(i) + ToBinary(b) + ToBinary(l)
  }

  /** What `got_message` calls, or None if it closes the connection instead. */
  function Decode(numpieces: nat, gotAnything: bool, m: seq<byte>): Option<Call>
    requires m != []
  {
    var t := m[0];
    if t == BITFIELD && gotAnything then None
    else if t <= NOT_INTERESTED && |m| != 1 then None
    else if t == CHOKE then Some(Choke)
    else if t == UNCHOKE then Some(Unchoke)
    else if t == INTERESTED then Some(Interested)
    else if t == NOT_INTERESTED then Some(NotInterested)
    else if t == HAVE then
      if |m| != 5 || ToInt(m[1..]) >= numpieces then None else Some(Have(ToInt(m[1..])))
    else if t == BITFIELD then
      match Parse(numpieces, m[1..]) case None => None case Some(bits) => Some(Bits(bits))
    else if t == REQUEST then
      if |m| != 13 || ToInt(m[1..5]) >= numpieces then None
      else Some(Request(ToInt(m[1..5]), ToInt(m[5..9]), ToInt(m[9..])))
    else if t == CANCEL then
      if |m| != 13 || ToInt(m[1..5]) >= numpieces then None
      else Some(Cancel(ToInt(m[1..5]), ToInt(m[5..9]), ToInt(m[9..])))
    else if t == PIECE then
      if |m| <= 9 || ToInt(m[1..5]) >= numpieces then None
      else Some(Piece(ToInt(m[1..5]), ToInt(m[5..9]), m[9..]))
    else None
  }

  /** The calls that make sense: about existing pieces, with data, and with a bit field of the right size that comes
      first. */
  predicate Admissible(numpieces: nat, gotAnything: bool, c: Call) {
    match c
    case Have(i) => i < numpieces
    case Bits(bits) => |bits| == numpieces && !gotAnything
    case Request(i, _, _) => i < numpieces
    case Piece(i, _, piece) => i < numpieces && piece != []
    case Cancel(i, _, _) => i < numpieces
    case _ => true
  }

  /** A message is understood as a call exactly if it is what sending that call produces, and the call is admissible. */
  lemma DecodesEncoded(numpieces: nat, gotAnything: bool, m: seq<byte>, c: Call)
    requires m != []
    ensures Decode(numpieces, gotAnything, m) == Some(c)
       <==> FitsWords(c) && Admissible(numpieces, gotAnything, c) && m == Encode(c)
  {
    if FitsWords(c) && Admissible(numpieces, gotAnything, c) && m == Encode(c) {
      Understood(numpieces, gotAnything, c);
    }
    if Decode(numpieces, gotAnything, m) == Some(c) {
      Meant(numpieces, gotAnything, m, c);
    }
  }

  // ---- The layout of messages ----

  /** What the bytes of a message mean, as BEP 3 lays them out. */
  ghost predicate Means(m: seq<byte>, c: Call) {
    match c
    case Choke => m == [0]
    case Unchoke => m == [1]
    case Interested => m == [2]
    case NotInterested => m == [3]
    case Have(i) => |m| == 5 && m[0] == 4 && Word(m, 1) == i
    case Bits(bits) => m != [] && m[0] == 5 && HighFirst(bits, m[1..])
    case Request(i, b, l) => |m| == 13 && m[0] == 6 && Word(m, 1) == i && Word(m, 5) == b && Word(m, 9) == l
    case Piece(i, b, piece) => |m| >= 9 && m[0] == 7 && Word(m, 1) == i && Word(m, 5) == b && m[9..] == piece
    case Cancel(i, b, l) => |m| == 13 && m[0] == 8 && Word(m, 1) == i && Word(m, 5) == b && Word(m, 9) == l
  }

  lemma LayoutIs(m: seq<byte>, c: Call)
    ensures Means(m, c) <==> FitsWords(c) && m == Encode(c)
  {
    hide ToBinary, ToInt, Pack, HighFirst, Word;
    if FitsWords(c) && m == Encode(c) {
      match c {
        case Have(i) => WordOf([HAVE], i, [], m);
        case Bits(bits) =>
          PackIs(bits, Pack(bits));
          assert m[1..] == Pack(bits);
        case Request(i, b, l) => WordsOf(REQUEST, i, b, l, m);
        case Cancel(i, b, l) => WordsOf(CANCEL, i, b, l, m);
        case Piece(i, b, piece) =>
          WordOf([PIECE], i, ToBinary(b) + piece, m);
          WordOf([PIECE] + ToBinary(i), b, piece, m);
        case _ =>
      }
    }
    if Means(m, c) {
      assert m == [m[0]] + m[1..];
      match c {
        case Have(_) => WordAt(m, 1);
        case Bits(bits) => PackIs(bits, m[1..]);
        case Piece(_, _, _) => WordAt(m, 1); WordAt(m, 5); assert m == [m[0]] + m[1..5] + m[5..9] + m[9..];
        case Request(_, _, _) => ThreeWords(m);
        case Cancel(_, _, _) => ThreeWords(m);
        case _ =>
      }
    }
  }

  lemma ThreeWords(m: seq<byte>)
    requires |m| == 13
    ensures Word(m, 1) < LIMIT && Word(m, 5) < LIMIT && Word(m, 9) < LIMIT
    ensures m == [m[0]] + ToBinary(Word(m, 1)) + ToBinary(Word(m, 5)) + ToBinary(Word(m, 9))
  {
    hide ToBinary, ToInt, Word;
    WordAt(m, 1); WordAt(m, 5); WordAt(m, 9);
    assert m == [m[0]] + m[1..5] + m[5..9] + m[9..13];
  }

  lemma WordAt(m: seq<byte>, k: nat)
    requires k + 4 <= |m|
    ensures Word(m, k) == ToInt(m[k..k + 4]) < LIMIT && ToBinary(Word(m, k)) == m[k..k + 4]
  {
    FourBytes(m[k..k + 4]);
    LengthRoundTrip(0, m[k..k + 4]);
  }

  lemma WordOf(a: seq<byte>, i: nat, b: seq<byte>, m: seq<byte>)
    requires i < LIMIT && m == a + ToBinary(i) + b
    ensures |m| == |a| + 4 + |b| && Word(m, |a|) == i && m[..|a|] == a && m[|a| + 4..] == b
  {
    hide ToBinary, Word;
    WordAt(m, |a|);
    LengthRoundTrip(i, ToBinary(0));
    assert m[|a|..|a| + 4] == ToBinary(i);
  }

  lemma WordsOf(t: byte, i: nat, b: nat, l: nat, m: seq<byte>)
    requires i < LIMIT && b < LIMIT && l < LIMIT && m == [t] + ToBinary(i) + ToBinary(b) + ToBinary(l)
    ensures |m| == 13 && m[0] == t && Word(m, 1) == i && Word(m, 5) == b && Word(m, 9) == l
  {
    hide ToBinary, Word;
    assert m == [t] + ToBinary(i) + (ToBinary(b) + ToBinary(l));
    WordOf([t], i, ToBinary(b) + ToBinary(l), m);
    WordOf([t] + ToBinary(i), b, ToBinary(l), m);
    assert m == [t] + ToBinary(i) + ToBinary(b) + ToBinary(l) + [];
    WordOf([t] + ToBinary(i) + ToBinary(b), l, [], m);
  }

  /** A message is understood as exactly the call that its bytes mean, if that is admissible. */
  lemma DecodesMeaning(numpieces: nat, gotAnything: bool, m: seq<byte>, c: Call)
    requires m != []
    ensures Decode(numpieces, gotAnything, m) == Some(c) <==> Means(m, c) && Admissible(numpieces, gotAnything, c)
  {
    hide Decode, Encode, Means, Admissible;
    DecodesEncoded(numpieces, gotAnything, m, c);
    LayoutIs(m, c);
  }

  lemma Understood(numpieces: nat, gotAnything: bool, c: Call)
    requires FitsWords(c) && Admissible(numpieces, gotAnything, c)
    ensures Decode(numpieces, gotAnything, Encode(c)) == Some(c)
  {
    hide ToBinary, ToInt, Pack, Parse;
    var m, none := Encode(c), ToBinary(0);
    match c {
      case Have(i) =>
        LengthRoundTrip(i, none);
        assert m[1..] == ToBinary(i);
      case Bits(bits) =>
        ParsePack(numpieces, Pack(bits), bits);
        assert m[1..] == Pack(bits);
      case Request(i, b, l) => Numbers(REQUEST, i, b, ToBinary(l), m); LengthRoundTrip(l, none);
      case Cancel(i, b, l) => Numbers(CANCEL, i, b, ToBinary(l), m); LengthRoundTrip(l, none);
      case Piece(i, b, piece) => Numbers(PIECE, i, b, piece, m);
      case _ =>
    }
  }

  lemma Numbers(t: byte, i: nat, b: nat, rest: seq<byte>, m: seq<byte>)
    requires i < LIMIT && b < LIMIT && m == [t] + ToBinary(i) + ToBinary(b) + rest
    ensures m[0] == t && |m| == 9 + |rest| && ToInt(m[1..5]) == i && ToInt(m[5..9]) == b && m[9..] == rest
  {
    hide ToBinary, ToInt;
    LengthRoundTrip(i, ToBinary(0));
    LengthRoundTrip(b, ToBinary(0));
    assert m[1..5] == ToBinary(i) && m[5..9] == ToBinary(b);
  }

  lemma Meant(numpieces: nat, gotAnything: bool, m: seq<byte>, c: Call)
    requires m != [] && Decode(numpieces, gotAnything, m) == Some(c)
    ensures FitsWords(c) && Admissible(numpieces, gotAnything, c) && m == Encode(c)
  {
    hide ToBinary, ToInt, Pack, Parse;
    assert m == [m[0]] + m[1..];
    if m[0] == HAVE {
      LengthRoundTrip(0, m[1..]);
    } else if m[0] == BITFIELD {
      ParsePack(numpieces, m[1..], c.bits);
    } else if m[0] == REQUEST || m[0] == CANCEL || m[0] == PIECE {
      LengthRoundTrip(0, m[1..5]);
      LengthRoundTrip(0, m[5..9]);
      assert m == [m[0]] + m[1..5] + m[5..9] + m[9..];
      if m[0] != PIECE { LengthRoundTrip(0, m[9..]); }
    }
  }

  // ---- The objects ----

  /** A connection: what was called on its upload and download, and what was sent. */
  class Connection {
    var gotAnything: bool
    var closed: bool
    var calls: seq<Call>
    var sent: seq<seq<byte>>

    constructor ()
      ensures !gotAnything && !closed && calls == [] && sent == []
    {
      gotAnything, closed, calls, sent := false, false, [], [];
    }

    /** The send methods. */
    method Send(c: Call)
      requires FitsWords(c)
      modifies this`sent
      ensures sent == old(sent) + [Encode(c)]
    {
      sent := sent + [Encode(c)];
    }

    method Close()
      modifies this`closed
      ensures closed
    {
      closed := true;
    }
  }

  class Connecter {
    const numpieces: nat
    var connections: seq<Connection>

    constructor (numpieces: nat)
      ensures this.numpieces == numpieces && connections == []
    {
      this.numpieces, connections := numpieces, [];
    }

    /** A message has come in. `completes` is what the download answers if it is given a piece: whether it is complete
        now. If so, all connections are told. */
    method GotMessage(c: Connection, message: seq<byte>, completes: bool)
      requires message != [] && c in connections && NoDup(connections) && numpieces < LIMIT
      modifies connections
      ensures var r := Decode(numpieces, old(c.gotAnything), message);
        && c.gotAnything
        && c.closed == (old(c.closed) || r == None)
        && c.calls == old(c.calls) + (if r.Some? then [r.value] else [])
        && (forall d | d in connections :: d.sent == old(d.sent) + Announced(r, completes))
        && (forall d | d in connections && d != c ::
              d.calls == old(d.calls) && d.gotAnything == old(d.gotAnything) && d.closed == old(d.closed))
      ensures forall call | Means(message, call) && Admissible(numpieces, old(c.gotAnything), call) ::
        && c.calls == old(c.calls) + [call] && c.closed == old(c.closed)
        && forall d | d in connections :: Informed(d.sent, old(d.sent), call, completes)
      ensures (forall call :: !(Means(message, call) && Admissible(numpieces, old(c.gotAnything), call))) ==>
        c.closed && c.calls == old(c.calls) && forall d | d in connections :: d.sent == old(d.sent)
    {
      hide Decode, Encode, Means, Admissible, Informed;
      MeaningOf(numpieces, c.gotAnything, message, completes);
      AnnouncedFits(numpieces, c.gotAnything, message, completes);
      var t := message[0];
      if t == BITFIELD && c.gotAnything {
        BitfieldTwice(numpieces, message);
        c.Close();
        return;
      }
      var r := Decode(numpieces, c.gotAnything, message);
      c.gotAnything := true;
      if r == None {
        c.Close();
        return;
      }
      c.calls := c.calls + [r.value];
      if r.value.Piece? && completes {
        for i := 0 to |connections|
          invariant forall k | 0 <= k < i :: connections[k].sent == old(connections[k].sent) + Announced(r, completes)
          invariant forall k | i <= k < |connections| :: connections[k].sent == old(connections[k].sent)
          invariant c.gotAnything && c.closed == old(c.closed) && c.calls == old(c.calls) + [r.value]
          invariant forall d | d in connections && d != c ::
            d.calls == old(d.calls) && d.gotAnything == old(d.gotAnything) && d.closed == old(d.closed)
        {
          connections[i].Send(Have(r.value.index));
        }
      }
    }
  }

  /** What everybody is told after a message. */
  ghost function Announced(r: Option<Call>, completes: bool): seq<seq<byte>> {
    if r.Some? && r.value.Piece? && completes && r.value.index < LIMIT then [Encode(Have(r.value.index))] else []
  }

  /** Everybody is told of a piece that was completed. */
  ghost predicate Informed(sent: seq<seq<byte>>, before: seq<seq<byte>>, c: Call, completes: bool) {
    if c.Piece? && completes then
      |sent| == |before| + 1 && sent[..|before|] == before && Means(sent[|before|], Have(c.index))
    else sent == before
  }

  lemma MeaningOf(numpieces: nat, gotAnything: bool, m: seq<byte>, completes: bool)
    requires m != [] && numpieces < LIMIT
    ensures var r := Decode(numpieces, gotAnything, m);
      && (r == None ==> forall c :: !(Means(m, c) && Admissible(numpieces, gotAnything, c)))
      && (r.Some? ==> Means(m, r.value) && Admissible(numpieces, gotAnything, r.value))
      && (forall c | Means(m, c) && Admissible(numpieces, gotAnything, c) :: r == Some(c))
      && (r.Some? ==> forall before :: Informed(before + Announced(r, completes), before, r.value, completes))
  {
    hide Means, Decode, Encode;
    var r := Decode(numpieces, gotAnything, m);
    forall c ensures r == Some(c) <==> Means(m, c) && Admissible(numpieces, gotAnything, c) {
      DecodesMeaning(numpieces, gotAnything, m, c);
    }
    if r.Some? && r.value.Piece? { LayoutIs(Encode(Have(r.value.index)), Have(r.value.index)); }
  }

  lemma AnnouncedFits(numpieces: nat, gotAnything: bool, m: seq<byte>, completes: bool)
    requires m != [] && numpieces < LIMIT
    ensures var r := Decode(numpieces, gotAnything, m);
      r.Some? && r.value.Piece? ==> r.value.index < LIMIT
  {
    hide ToInt;
  }

  lemma BitfieldTwice(numpieces: nat, m: seq<byte>)
    requires m != [] && m[0] == BITFIELD
    ensures Decode(numpieces, true, m) == None
  {
  }
}
