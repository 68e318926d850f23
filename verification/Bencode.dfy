/** Bencoding (BEP 3, section "bencoding"): a printer and a recursive parser that undo each other. */
module Bencodings {
  import opened Basics

  datatype Value =
    | Int(n: int)
    | Str(s: string)
    | List(items: seq<Value>)
    | Dict(dict: map<string, Value>)

  // ---- Decimal numbers ----

  predicate IsDigit(c: char) { '0' <= c <= '9' }

  predicate Plain(t: string) {
    t != [] && forall i | 0 <= i < |t| :: IsDigit(t[i])
  }

  function DigitOf(n: nat): (c: char)
    requires n < 10
    ensures IsDigit(c) && c as int == '0' as int + n
  {
    ('0' as int + n) as char
  }

  /** str(n) */
  function Decimal(n: nat): (t: string)
    ensures Plain(t)
  {
    if n < 10 then [DigitOf(n)] else Decimal(n / 10) + [DigitOf(n % 10)]
  }

  function Signed(n: int): string {
    if n < 0 then ['-'] + Decimal(-n) else Decimal(n)
  }

  function Digits(t: string): nat
    requires forall i | 0 <= i < |t| :: IsDigit(t[i])
  {
    if t == [] then 0 else
      assert IsDigit(t[|t| - 1]);
      Digits(t[..|t| - 1]) * 10 + (t[|t| - 1] as int - '0' as int)
  }

  /** int(t), for tokens of plain digits. */
  function ParseNat(t: string): Option<nat> {
    if Plain(t) then Some(Digits(t)) else None
  }

  function Negated(o: Option<int>): Option<int> {
    match o case None => None case Some(n) => Some(-n)
  }

  function ParseInt(t: string): Option<int> {
    if t != [] && t[0] == '-' then Negated(ParseNat(t[1..])) else ParseNat(t)
  }

  /** No superfluous zero in front. */
  predicate Normal(t: string) {
    Plain(t) && (t[0] == '0' ==> |t| == 1)
  }

  function PowerOfTen(k: nat): nat {
    if k == 0 then 1 else 10 * PowerOfTen(k - 1)
  }

  function ValueOf(c: char): nat
    requires IsDigit(c)
  {
    c as int - '0' as int
  }

  /** What the digits are worth at their places. */
  function PlaceValue(t: string): nat
    requires forall i | 0 <= i < |t| :: IsDigit(t[i])
  {
    if t == [] then 0 else ValueOf(t[0]) * PowerOfTen(|t| - 1) + PlaceValue(t[1..])
  }

  lemma {:induction false} DigitsAtPlaces(t: string)
    requires forall i | 0 <= i < |t| :: IsDigit(t[i])
    ensures Digits(t) == PlaceValue(t)
  {
    if |t| == 1 {
      assert Digits(t[..0]) == 0;
    } else if |t| > 1 {
      var front, rest, mid := t[..|t| - 1], t[1..], t[1..|t| - 1];
      assert front[1..] == mid && rest[..|rest| - 1] == mid && t[0] == front[0];
      DigitsAtPlaces(front);
      DigitsAtPlaces(rest);
      DigitsAtPlaces(mid);
      TenTimes(ValueOf(t[0]), |front| - 1);
    }
  }

  lemma TenTimes(d: nat, k: nat)
    ensures d * PowerOfTen(k + 1) == 10 * (d * PowerOfTen(k))
  {
  }

  /** A printed number is worth what it stands for, digit by digit, and has no superfluous zero in front. */
  lemma {:induction false} DecimalParses(n: nat)
    ensures Digits(Decimal(n)) == PlaceValue(Decimal(n)) == n && Normal(Decimal(n)) && (n > 0 ==> Decimal(n)[0] != '0')
  {
    DigitsAtPlaces(Decimal(n));
    if n >= 10 {
      DecimalParses(n / 10);
      var t := Decimal(n);
      assert t[..|t| - 1] == Decimal(n / 10);
    } else {
      assert Decimal(n)[..0] == [];
    }
  }

  lemma Shift(n: nat, c: char)
    requires IsDigit(c)
    ensures var m := n * 10 + (c as int - '0' as int); m / 10 == n && DigitOf(m % 10) == c
  {
  }

  lemma {:induction false} DigitsPrint(t: string)
    requires Normal(t)
    ensures Decimal(Digits(t)) == t && (t[0] != '0' ==> Digits(t) > 0)
  {
    var front, last := t[..|t| - 1], t[|t| - 1];
    if |t| == 1 {
      assert Digits(front) == 0;
    } else {
      assert t[0] == front[0] && Plain(front) && IsDigit(last);
      DigitsPrint(front);
      Shift(Digits(front), last);
      assert t == front + [last];
    }
  }

  // ---- Order of strings ----

  predicate Less(a: string, b: string) {
    b != [] && (a == [] || a[0] < b[0] || (a[0] == b[0] && Less(a[1..], b[1..])))
  }

  lemma {:induction false} LessTotal(a: string, b: string)
    ensures !Less(a, a) && (a == b || Less(a, b) || Less(b, a)) && !(Less(a, b) && Less(b, a))
  {
    if a != [] {
      LessTotal(a[1..], if b == [] then [] else b[1..]);
      if b != [] && a[0] == b[0] && a[1..] == b[1..] { assert a == [a[0]] + a[1..] && b == [b[0]] + b[1..]; }
    }
  }

  lemma {:induction false} LessTrans(a: string, b: string, c: string)
    requires Less(a, b) && Less(b, c)
    ensures Less(a, c)
  {
    if a != [] && a[0] == b[0] == c[0] {
      LessTrans(a[1..], b[1..], c[1..]);
    }
  }

  /** Dictionary order: a proper beginning comes first, and otherwise the first difference decides. */
  ghost predicate Precedes(a: string, b: string) {
    || (|a| < |b| && b[..|a|] == a)
    || exists k :: 0 <= k < |a| && k < |b| && a[..k] == b[..k] && a[k] < b[k]
  }

  lemma {:induction false} LessIs(a: string, b: string)
    ensures Less(a, b) <==> Precedes(a, b)
  {
    if a != [] && b != [] && a[0] == b[0] {
      hide Precedes;
      LessIs(a[1..], b[1..]);
      PrecedesRest(a, b);
    } else if a != [] && b != [] {
      assert a[..0] == b[..0];
    } else if b != [] {
      assert b[..0] == a;
    }
  }

  /** A common first character does not matter. */
  lemma PrecedesRest(a: string, b: string)
    requires a != [] && b != [] && a[0] == b[0]
    ensures Precedes(a, b) <==> Precedes(a[1..], b[1..])
  {
    var a', b' := a[1..], b[1..];
    SameStart(a, b, |a| - 1);
    if k :| 0 <= k < |a'| && k < |b'| && a'[..k] == b'[..k] && a'[k] < b'[k] {
      SameStart(a, b, k);
      assert a[k + 1] < b[k + 1];
    }
    if k :| 0 <= k < |a| && k < |b| && a[..k] == b[..k] && a[k] < b[k] {
      SameStart(a, b, k - 1);
      assert a'[k - 1] < b'[k - 1];
    }
  }

  lemma SameStart(a: string, b: string, k: nat)
    requires a != [] && b != [] && a[0] == b[0] && k < |a|
    ensures k < |b| ==> (a[..k + 1] == b[..k + 1] <==> a[1..][..k] == b[1..][..k])
    ensures a[..|a|] == a && a[1..][..|a| - 1] == a[1..]
  {
    if k < |b| {
      assert a[..k + 1] == [a[0]] + a[1..][..k] && b[..k + 1] == [a[0]] + b[1..][..k];
    }
  }

  /** These keys, each once, in dictionary order. */
  ghost predicate InOrder(ks: seq<string>, keys: set<string>) {
    && (forall k :: k in ks <==> k in keys)
    && (forall i, j | 0 <= i < j < |ks| :: Precedes(ks[i], ks[j]))
  }

  lemma AscendsIs(ks: seq<string>, keys: set<string>)
    ensures InOrder(ks, keys) <==> Ascends(ks) && forall k :: k in ks <==> k in keys
  {
    hide Less, Precedes;
    forall i, j | 0 <= i < j < |ks| ensures Less(ks[i], ks[j]) <==> Precedes(ks[i], ks[j]) {
      LessIs(ks[i], ks[j]);
    }
  }

  predicate Least(k: string, keys: set<string>) {
    k in keys && forall j | j in keys :: j == k || Less(k, j)
  }

  lemma {:induction false} LeastExists(keys: set<string>) returns (k: string)
    requires keys != {}
    ensures Least(k, keys)
  {
    var x :| x in keys;
    k := x;
    if keys - {x} != {} {
      var y := LeastExists(keys - {x});
      LessTotal(x, y);
      if Less(y, x) {
        k := y;
      } else {
        forall j | j in keys && j != x && j != y ensures Less(x, j) {
          LessTrans(x, y, j);
        }
      }
    } else {
      assert keys == {x};
    }
  }

  /** The keys of a dictionary in ascending order. */
  ghost function Sorted(keys: set<string>): (ks: seq<string>)
    ensures forall k :: k in ks <==> k in keys
    decreases |keys|
  {
    if keys == {} then [] else
      assert exists k :: Least(k, keys) by { var k := LeastExists(keys); }
      var k :| Least(k, keys);
      [k] + Sorted(keys - {k})
  }

  ghost predicate Ascends(ks: seq<string>) {
    forall i, j | 0 <= i < j < |ks| :: Less(ks[i], ks[j])
  }

  lemma {:induction false} SortedAscends(keys: set<string>)
    ensures Ascends(Sorted(keys))
    decreases |keys|
  {
    hide Less;
    if keys != {} {
      var ks := Sorted(keys);
      SortedAscends(keys - {ks[0]});
      assert Least(ks[0], keys) && ks == [ks[0]] + Sorted(keys - {ks[0]});
    }
  }

  /** There is only one ascending order. */
  lemma {:induction false} SortedIs(keys: set<string>, ks: seq<string>)
    requires Ascends(ks) && forall k :: k in ks <==> k in keys
    ensures Sorted(keys) == ks
    decreases |ks|
  {
    if ks == [] {
      assert keys == {};
    } else {
      assert ks[0] in keys;
      var k := Sorted(keys)[0];
      if k != ks[0] {
        var i :| 0 <= i < |ks| && ks[i] == k;
        LessTotal(k, ks[0]);
        assert false;
      }
      assert ks == [k] + ks[1..];
      forall j ensures j in ks[1..] <==> j in keys - {k} {
        if j in ks[1..] { LessTotal(k, k); }
      }
      SortedIs(keys - {k}, ks[1..]);
    }
  }

  // ---- The printer ----

  ghost function Encode(v: Value): string
    decreases v, 0, 1
  {
    match v
    case Int(n) => ['i'] + Signed(n) + ['e']
    case Str(s) => EncodeString(s)
    case List(items) => ['l'] + EncodeItems(items) + ['e']
    case Dict(dict) => ['d'] + EncodeKeys(v, Sorted(dict.Keys)) + ['e']
  }

  function EncodeString(s: string): string {
    Decimal(|s|) + [':'] + s
  }

  ghost function EncodeItems(items: seq<Value>): string
    decreases items, 0, 0
  {
    if items == [] then [] else Encode(items[0]) + EncodeItems(items[1..])
  }

  ghost function EncodeKeys(v: Value, ks: seq<string>): string
    requires v.Dict? && forall k | k in ks :: k in v.dict
    decreases v, 0, 0, ks
  {
    if ks == [] then [] else EncodeString(ks[0]) + Encode(v.dict[ks[0]]) + EncodeKeys(v, ks[1..])
  }

  // ---- The parser ----

  /** x.index(c, f) */
  function Index(x: string, c: char, f: nat): (r: Option<nat>)
    ensures r.Some? ==> f <= r.value < |x| && x[r.value] == c && forall i | f <= i < r.value :: x[i] != c
    ensures r == None ==> forall i | f <= i < |x| :: x[i] != c
    decreases |x| - f
  {
    if f >= |x| then None else if x[f] == c then Some(f) else Index(x, c, f + 1)
  }

  function DecodeInt(x: string, f: nat): (r: Option<(Value, nat)>)
    ensures r.Some? ==> r.value.1 > f
  {
    match Index(x, 'e', f + 1)
    case None => None
    case Some(newf) =>
      var t := x[f + 1..newf];
      match ParseInt(t)
      case None => None
      case Some(n) =>
        if t[0] == '-' && t[1] == '0' then None
        else if t[0] == '0' && newf != f + 2 then None
        else Some((Int(n), newf + 1))
  }

  /** A string that is shorter than its length says is cut off at the end of the text; the position is beyond it. */
  function DecodeString(x: string, f: nat): (r: Option<(string, nat)>)
    ensures r.Some? ==> r.value.1 > f
  {
    match Index(x, ':', f)
    case None => None
    case Some(colon) =>
      match ParseNat(x[f..colon])
      case None => None
      case Some(n) =>
        if x[f] == '0' && colon != f + 1 then None
        else Some((x[colon + 1..Min(|x|, colon + 1 + n)], colon + 1 + n))
  }

  function Decode(x: string, f: nat): (r: Option<(Value, nat)>)
    ensures r.Some? ==> r.value.1 > f
    decreases |x| - f, 0
  {
    if f >= |x| then None
    else if x[f] == 'l' then
      match DecodeItems(x, f + 1) case None => None case Some((items, g)) => Some((List(items), g))
    else if x[f] == 'd' then
      match DecodePairs(x, f + 1, None) case None => None case Some((ps, g)) => Some((Dict(MapOf(ps)), g))
    else if x[f] == 'i' then DecodeInt(x, f)
    else if IsDigit(x[f]) then
      match DecodeString(x, f) case None => None case Some((s, g)) => Some((Str(s), g))
    else None
  }

  function DecodeItems(x: string, f: nat): (r: Option<(seq<Value>, nat)>)
    ensures r.Some? ==> r.value.1 > f
    decreases |x| - f, 1
  {
    if f >= |x| then None
    else if x[f] == 'e' then Some(([], f + 1))
    else
      match Decode(x, f)
      case None => None
      case Some((v, g)) =>
        match DecodeItems(x, g) case None => None case Some((vs, h)) => Some(([v] + vs, h))
  }

  type Pairs = seq<(string, Value)>

  /** Keys must be in ascending order. */
  function DecodePairs(x: string, f: nat, last: Option<string>): (r: Option<(Pairs, nat)>)
    ensures r.Some? ==> r.value.1 > f
    decreases |x| - f, 1
  {
    if f >= |x| then None
    else if x[f] == 'e' then Some(([], f + 1))
    else
      match DecodeString(x, f)
      case None => None
      case Some((k, g)) =>
        if last.Some? && !Less(last.value, k) then None
        else
          match Decode(x, g)
          case None => None
          case Some((v, h)) =>
            match DecodePairs(x, h, Some(k)) case None => None case Some((ps, e)) => Some(([(k, v)] + ps, e))
  }

  /** The dictionary built by assigning the pairs in turn. */
  function MapOf(ps: Pairs): map<string, Value> {
    if ps == [] then map[] else MapOf(ps[..|ps| - 1])[ps[|ps| - 1].0 := ps[|ps| - 1].1]
  }

  function BDecode(x: string): Option<Value> {
    match Decode(x, 0) case None => None case Some((v, l)) => if l != |x| then None else Some(v)
  }

  // ---- Parsing what was printed ----

  /** `t` stands at position `f` of `x`. */
  ghost predicate At(x: string, f: nat, t: string) {
    f + |t| <= |x| && x[f..f + |t|] == t
  }

  lemma AtSplit(x: string, f: nat, a: string, b: string)
    ensures At(x, f, a + b) <==> At(x, f, a) && At(x, f + |a|, b)
  {
    if At(x, f, a + b) {
      assert x[f..f + |a|] == x[f..f + |a + b|][..|a|] == a;
      assert x[f + |a|..f + |a| + |b|] == x[f..f + |a + b|][|a|..] == b;
    }
    if At(x, f, a) && At(x, f + |a|, b) {
      assert x[f..f + |a + b|] == x[f..f + |a|] + x[f + |a|..f + |a| + |b|];
    }
  }

  lemma AtChar(x: string, f: nat, c: char)
    ensures At(x, f, [c]) <==> f < |x| && x[f] == c
  {
    if f < |x| { assert x[f..f + 1] == [x[f]]; }
  }

  lemma AtFirst(x: string, f: nat, t: string)
    requires At(x, f, t) && t != []
    ensures f < |x| && x[f] == t[0]
  {
    assert x[f..f + |t|][0] == x[f];
  }

  lemma IndexAt(x: string, f: nat, t: string, c: char)
    requires At(x, f, t + [c]) && c !in t
    ensures Index(x, c, f) == Some(f + |t|) && x[f..f + |t|] == t
  {
    AtSplit(x, f, t, [c]);
    AtChar(x, f + |t|, c);
    forall i | f <= i < f + |t| ensures x[i] != c {
      assert x[i] == t[i - f];
    }
  }

  lemma SignedParses(n: int)
    ensures var t := Signed(n);
      && t != [] && ParseInt(t) == Some(n) && 'e' !in t
      && (t[0] == '-' ==> |t| > 1 && t[1] != '0') && (t[0] == '0' ==> |t| == 1)
  {
    hide Digits, Decimal;
    if n < 0 {
      DecimalParses(-n);
      assert Signed(n)[1..] == Decimal(-n);
    } else {
      DecimalParses(n);
    }
  }

  lemma IntTrip(x: string, f: nat, n: int)
    requires At(x, f, ['i'] + Signed(n) + ['e'])
    ensures DecodeInt(x, f) == Some((Int(n), f + |Signed(n)| + 2)) && f < |x| && x[f] == 'i'
  {
    var t := Signed(n);
    assert ['i'] + t + ['e'] == ['i'] + (t + ['e']);
    AtSplit(x, f, ['i'], t + ['e']);
    AtChar(x, f, 'i');
    SignedParses(n);
    IndexAt(x, f + 1, t, 'e');
  }

  lemma StringTrip(x: string, f: nat, s: string)
    requires At(x, f, EncodeString(s))
    ensures DecodeString(x, f) == Some((s, f + |EncodeString(s)|)) && f < |x| && IsDigit(x[f])
  {
    var t := Decimal(|s|);
    DecimalParses(|s|);
    AtSplit(x, f, t + [':'], s);
    assert ':' !in t;
    IndexAt(x, f, t, ':');
    assert x[f] == t[0];
  }

  /** No code starts with the letter that ends lists and dictionaries. */
  lemma Starts(v: Value)
    ensures Encode(v) != [] && Encode(v)[0] != 'e'
  {
    if v.Str? { assert Encode(v)[0] == Decimal(|v.s|)[0]; }
  }

  /** The code of a value is read back as that value, whatever follows, and up to its end. */
  lemma {:induction false} RoundTrip(v: Value, x: string, f: nat)
    requires At(x, f, Encode(v))
    ensures Decode(x, f) == Some((v, f + |Encode(v)|))
    decreases v, 0, 1
  {
    hide At, Ascends, Sorted, DecodePairs, DecodeItems, DecodeInt, DecodeString, EncodeItems, EncodeKeys, EncodeString,
      Signed, MapOf;
    match v
    case Int(n) => IntTrip(x, f, n);
    case Str(s) => StringTrip(x, f, s);
    case List(items) =>
      assert Encode(v) == ['l'] + (EncodeItems(items) + ['e']);
      AtSplit(x, f, ['l'], EncodeItems(items) + ['e']);
      AtChar(x, f, 'l');
      ItemsTrip(items, x, f + 1);
    case Dict(dict) =>
      var ks := Sorted(dict.Keys);
      assert Encode(v) == ['d'] + (EncodeKeys(v, ks) + ['e']);
      AtSplit(x, f, ['d'], EncodeKeys(v, ks) + ['e']);
      AtChar(x, f, 'd');
      SortedAscends(dict.Keys);
      KeysTrip(v, ks, x, f + 1, None);
      MapOfKeys(v, ks);
  }

  lemma {:induction false} ItemsTrip(items: seq<Value>, x: string, f: nat)
    requires At(x, f, EncodeItems(items) + ['e'])
    ensures DecodeItems(x, f) == Some((items, f + |EncodeItems(items)| + 1))
    decreases items, 0, 0
  {
    hide At, Encode, Decode;
    if items == [] {
      assert EncodeItems(items) + ['e'] == ['e'];
      AtChar(x, f, 'e');
    } else {
      var v, rest := items[0], EncodeItems(items[1..]) + ['e'];
      assert EncodeItems(items) + ['e'] == Encode(v) + rest;
      AtSplit(x, f, Encode(v), rest);
      Starts(v);
      AtFirst(x, f, Encode(v));
      RoundTrip(v, x, f);
      ItemsTrip(items[1..], x, f + |Encode(v)|);
      assert items == [v] + items[1..];
    }
  }

  ghost function PairsOf(v: Value, ks: seq<string>): Pairs
    requires v.Dict? && forall k | k in ks :: k in v.dict
  {
    seq(|ks|, i requires 0 <= i < |ks| => (assert ks[i] in ks; (ks[i], v.dict[ks[i]])))
  }

  lemma {:induction false} KeysTrip(v: Value, ks: seq<string>, x: string, f: nat, last: Option<string>)
    requires v.Dict? && (forall k | k in ks :: k in v.dict) && Ascends(ks)
    requires last.Some? && ks != [] ==> Less(last.value, ks[0])
    requires At(x, f, EncodeKeys(v, ks) + ['e'])
    ensures DecodePairs(x, f, last) == Some((PairsOf(v, ks), f + |EncodeKeys(v, ks)| + 1))
    decreases v, 0, 0, ks
  {
    hide At, Encode, Decode, DecodeString, EncodeString, Less;
    if ks == [] {
      assert EncodeKeys(v, ks) + ['e'] == ['e'];
      AtChar(x, f, 'e');
    } else {
      var key, code, rest := EncodeString(ks[0]), Encode(v.dict[ks[0]]), EncodeKeys(v, ks[1..]) + ['e'];
      assert EncodeKeys(v, ks) + ['e'] == key + (code + rest);
      AtSplit(x, f, key, code + rest);
      AtSplit(x, f + |key|, code, rest);
      StringTrip(x, f, ks[0]);
      RoundTrip(v.dict[ks[0]], x, f + |key|);
      KeysTrip(v, ks[1..], x, f + |key| + |code|, Some(ks[0]));
      assert PairsOf(v, ks) == [(ks[0], v.dict[ks[0]])] + PairsOf(v, ks[1..]);
    }
  }

  ghost predicate DistinctKeys(ps: Pairs) {
    forall i, j | 0 <= i < j < |ps| :: ps[i].0 != ps[j].0
  }

  lemma {:induction false} MapOfFacts(ps: Pairs)
    requires DistinctKeys(ps)
    ensures forall k :: k in MapOf(ps) <==> exists i :: 0 <= i < |ps| && ps[i].0 == k
    ensures forall i | 0 <= i < |ps| :: ps[i].0 in MapOf(ps) && MapOf(ps)[ps[i].0] == ps[i].1
  {
    if ps != [] {
      MapOfFacts(ps[..|ps| - 1]);
    }
  }

  lemma MapOfKeys(v: Value, ks: seq<string>)
    requires v.Dict? && Ascends(ks) && forall k :: k in ks <==> k in v.dict
    ensures MapOf(PairsOf(v, ks)) == v.dict
  {
    var ps := PairsOf(v, ks);
    forall i, j | 0 <= i < j < |ps| ensures ps[i].0 != ps[j].0 {
      LessTotal(ks[i], ks[j]);
    }
    MapOfFacts(ps);
    forall k ensures k in MapOf(ps) <==> k in v.dict {
      if k in v.dict {
        var i :| 0 <= i < |ks| && ks[i] == k;
        assert ps[i].0 == k;
      }
    }
    forall k | k in v.dict ensures MapOf(ps)[k] == v.dict[k] {
      var i :| 0 <= i < |ks| && ks[i] == k;
      assert ps[i] == (k, v.dict[k]);
    }
  }

  // ---- Printing what was parsed ----

  lemma TokenPrints(t: string, n: int)
    requires ParseInt(t) == Some(n) && !(t[0] == '-' && t[1] == '0') && (t[0] == '0' ==> |t| == 1)
    ensures Signed(n) == t
  {
    hide Digits, Decimal;
    if t[0] == '-' {
      DigitsPrint(t[1..]);
      assert t == ['-'] + t[1..];
    } else {
      DigitsPrint(t);
    }
  }

  lemma IntBack(x: string, f: nat, n: int, g: nat)
    requires f < |x| && x[f] == 'i' && DecodeInt(x, f) == Some((Int(n), g))
    ensures At(x, f, ['i'] + Signed(n) + ['e']) && g == f + |Signed(n)| + 2
  {
    hide ParseInt, Signed;
    var t := x[f + 1..g - 1];
    TokenPrints(t, n);
    assert x[f..g] == ['i'] + t + ['e'];
  }

  lemma StringBack(x: string, f: nat, s: string, g: nat)
    requires f < |x| && DecodeString(x, f) == Some((s, g)) && g <= |x|
    ensures At(x, f, EncodeString(s)) && g == f + |EncodeString(s)|
  {
    var colon := Index(x, ':', f).value;
    var t := x[f..colon];
    assert t[0] == x[f];
    DigitsPrint(t);
    assert x[f..g] == t + [':'] + s;
  }

  /** A text that is accepted is the code of the value that it is read as. */
  lemma {:induction false} Back(x: string, f: nat, v: Value, g: nat)
    requires Decode(x, f) == Some((v, g)) && g <= |x|
    ensures At(x, f, Encode(v)) && g == f + |Encode(v)|
    decreases |x| - f, 0
  {
    hide At, DecodePairs, DecodeItems, DecodeInt, DecodeString, Encode, EncodeItems, EncodeKeys, EncodeString, Signed,
      MapOf, Sorted, EncodePairs;
    AtChar(x, f, x[f]);
    EncodePlain(v);
    if x[f] == 'l' {
      ItemsBack(x, f + 1, v.items, g);
      AtSplit(x, f, ['l'], EncodeItems(v.items) + ['e']);
    } else if x[f] == 'd' {
      var ps := DecodePairs(x, f + 1, None).value.0;
      PairsBack(x, f + 1, None, ps, g);
      EncodeDict(ps);
      AtSplit(x, f, ['d'], EncodePairs(ps) + ['e']);
    } else if x[f] == 'i' {
      IsInt(x, f);
      IntBack(x, f, v.n, g);
    } else {
      StringBack(x, f, v.s, g);
    }
  }

  lemma EncodePlain(v: Value)
    ensures v.Int? ==> Encode(v) == ['i'] + Signed(v.n) + ['e']
    ensures v.Str? ==> Encode(v) == EncodeString(v.s)
    ensures v.List? ==> Encode(v) == ['l'] + (EncodeItems(v.items) + ['e'])
  {
    if v.List? { assert ['l'] + EncodeItems(v.items) + ['e'] == ['l'] + (EncodeItems(v.items) + ['e']); }
  }

  lemma IsInt(x: string, f: nat)
    requires DecodeInt(x, f).Some?
    ensures DecodeInt(x, f).value.0.Int?
  {
  }

  lemma {:induction false} ItemsBack(x: string, f: nat, vs: seq<Value>, g: nat)
    requires DecodeItems(x, f) == Some((vs, g)) && g <= |x|
    ensures At(x, f, EncodeItems(vs) + ['e']) && g == f + |EncodeItems(vs)| + 1
    decreases |x| - f, 1
  {
    hide At, Decode, Encode;
    AtChar(x, f, 'e');
    if x[f] == 'e' {
      assert EncodeItems(vs) + ['e'] == ['e'];
    } else {
      var (v, h) := Decode(x, f).value;
      assert vs == [v] + vs[1..];
      if h <= |x| {
        Back(x, f, v, h);
        ItemsBack(x, h, vs[1..], g);
        AtSplit(x, f, Encode(v), EncodeItems(vs[1..]) + ['e']);
        assert EncodeItems(vs) + ['e'] == Encode(v) + (EncodeItems(vs[1..]) + ['e']);
      }
    }
  }

  ghost function EncodePairs(ps: Pairs): string {
    if ps == [] then [] else EncodeString(ps[0].0) + Encode(ps[0].1) + EncodePairs(ps[1..])
  }

  ghost function Keys(ps: Pairs): (ks: seq<string>)
    ensures |ks| == |ps| && forall i | 0 <= i < |ps| :: ks[i] == ps[i].0
  {
    seq(|ps|, i requires 0 <= i < |ps| => ps[i].0)
  }

  lemma {:induction false} PairsBack(x: string, f: nat, last: Option<string>, ps: Pairs, g: nat)
    requires DecodePairs(x, f, last) == Some((ps, g)) && g <= |x|
    ensures At(x, f, EncodePairs(ps) + ['e']) && g == f + |EncodePairs(ps)| + 1
    ensures Ascends(Keys(ps)) && (last.Some? && ps != [] ==> Less(last.value, ps[0].0))
    decreases |x| - f, 1
  {
    hide At, Decode, DecodeString, Encode, EncodeString, EncodePairs, Less, Ascends, Keys;
    AtChar(x, f, 'e');
    if x[f] == 'e' {
      PairsText([], Int(0), []);
      NoneAscend();
    } else {
      var (k, m) := DecodeString(x, f).value;
      var (v, h) := Decode(x, m).value;
      var rest := ps[1..];
      assert ps == [(k, v)] + rest;
      if m < |x| && h <= |x| {
        StringBack(x, f, k, m);
        Back(x, m, v, h);
        PairsBack(x, h, Some(k), rest, g);
        AtSplit(x, m, Encode(v), EncodePairs(rest) + ['e']);
        AtSplit(x, f, EncodeString(k), Encode(v) + (EncodePairs(rest) + ['e']));
        PairsText(k, v, rest);
        AscendsCons(k, rest, v);
      }
    }
  }

  lemma PairsText(k: string, v: Value, rest: Pairs)
    ensures EncodePairs([]) + ['e'] == ['e']
    ensures var all := EncodePairs([(k, v)] + rest);
      all + ['e'] == EncodeString(k) + (Encode(v) + (EncodePairs(rest) + ['e']))
  {
    assert ([(k, v)] + rest)[1..] == rest;
  }

  lemma NoneAscend()
    ensures Ascends(Keys([]))
  {
  }

  lemma AscendsCons(k: string, rest: Pairs, v: Value)
    requires Ascends(Keys(rest)) && (rest != [] ==> Less(k, rest[0].0))
    ensures Ascends(Keys([(k, v)] + rest))
  {
    hide Less;
    var ks := Keys(rest);
    assert Keys([(k, v)] + rest) == [k] + ks;
    forall j | 0 <= j < |ks| ensures Less(k, ks[j]) {
      if j > 0 { LessTrans(k, ks[0], ks[j]); }
    }
  }

  lemma {:induction false} EncodeKeysIs(v: Value, ks: seq<string>, ps: Pairs)
    requires v.Dict? && |ps| == |ks|
    requires forall i | 0 <= i < |ks| :: ks[i] in v.dict && ps[i] == (ks[i], v.dict[ks[i]])
    ensures EncodeKeys(v, ks) == EncodePairs(ps)
    decreases ks
  {
    if ks != [] {
      EncodeKeysIs(v, ks[1..], ps[1..]);
    }
  }

  lemma {:induction false} KeysOfMap(ps: Pairs)
    requires Ascends(Keys(ps))
    ensures forall k :: k in Keys(ps) <==> k in MapOf(ps).Keys
    ensures forall i | 0 <= i < |ps| :: ps[i].0 in MapOf(ps) && MapOf(ps)[ps[i].0] == ps[i].1
  {
    hide Less, MapOf, Keys, EncodeString, Encode;
    var m, ks := MapOf(ps), Keys(ps);
    forall i, j | 0 <= i < j < |ps| ensures ps[i].0 != ps[j].0 {
      LessTotal(ks[i], ks[j]);
    }
    MapOfFacts(ps);
    forall k ensures k in ks <==> k in m.Keys {
      if k in ks {
        var i :| 0 <= i < |ks| && ks[i] == k;
        assert ps[i].0 == k;
      }
      if k in m {
        var i :| 0 <= i < |ps| && ps[i].0 == k;
        assert ks[i] == k;
      }
    }
  }

  /** Pairs in ascending order are printed as the dictionary they make up. */
  lemma EncodeDict(ps: Pairs)
    requires Ascends(Keys(ps))
    ensures Encode(Dict(MapOf(ps))) == ['d'] + (EncodePairs(ps) + ['e'])
  {
    hide Less, EncodeString, EncodePairs, EncodeKeys, MapOf;
    var m, ks := MapOf(ps), Keys(ps);
    KeysOfMap(ps);
    SortedIs(m.Keys, ks);
    EncodeKeysIs(Dict(m), ks, ps);
    assert ['d'] + EncodePairs(ps) + ['e'] == ['d'] + (EncodePairs(ps) + ['e']);
  }

  lemma {:induction false} PairsEnd(x: string, f: nat, last: Option<string>, ps: Pairs, g: nat)
    requires DecodePairs(x, f, last) == Some((ps, g))
    ensures g <= |x|
    decreases |x| - f
  {
    hide Decode, DecodeString, Less;
    if x[f] != 'e' {
      var (k, m) := DecodeString(x, f).value;
      PairsEnd(x, Decode(x, m).value.1, Some(k), ps[1..], g);
    }
  }

  /** The keys of a dictionary that is accepted are in dictionary order, as they are in the text. */
  lemma DictBack(x: string, f: nat, ps: Pairs, g: nat)
    requires DecodePairs(x, f, None) == Some((ps, g))
    ensures InOrder(Keys(ps), MapOf(ps).Keys) && At(x, f, EncodeKeys(Dict(MapOf(ps)), Keys(ps)) + ['e'])
  {
    hide At, DecodePairs, EncodePairs, EncodeKeys, InOrder;
    PairsEnd(x, f, None, ps, g);
    PairsBack(x, f, None, ps, g);
    KeysOfMap(ps);
    EncodeKeysIs(Dict(MapOf(ps)), Keys(ps), ps);
    AscendsIs(Keys(ps), MapOf(ps).Keys);
  }

  // ---- Main results ----

  /** Exactly the codes are accepted, each as the value it is the code of. */
  lemma DecodesCodes(x: string, v: Value)
    ensures BDecode(x) == Some(v) <==> x == Encode(v)
  {
    hide Decode, Encode;
    if x == Encode(v) {
      assert At(x, 0, Encode(v)) by { assert x[0..|x|] == x; }
      RoundTrip(v, x, 0);
    }
    if BDecode(x) == Some(v) {
      Back(x, 0, v, |x|);
      assert x[0..|x|] == x;
    }
  }

  /** No code is the beginning of another one: a text can begin with at most one code. */
  lemma PrefixFree(v: Value, s: string, w: Value, t: string)
    requires Encode(v) + s == Encode(w) + t
    ensures v == w && s == t
  {
    hide Decode, Encode;
    var x := Encode(v) + s;
    assert x[0..|Encode(v)|] == Encode(v) && x[0..|Encode(w)|] == Encode(w);
    RoundTrip(v, x, 0);
    RoundTrip(w, x, 0);
    assert s == x[|Encode(v)|..] && t == x[|Encode(w)|..];
  }

  /** A number is plain digits without a superfluous zero in front, and worth what its digits are at their places; a
      minus sign in front turns it around, and zero has none. */
  lemma NumberTexts(t: string, n: int)
    requires 'e' !in t
    ensures BDecode(['i'] + t + ['e']) == Some(Int(n)) <==>
      || (Normal(t) && n == PlaceValue(t))
      || (t != [] && t[0] == '-' && Normal(t[1..]) && t[1] != '0' && -n == PlaceValue(t[1..]))
  {
    hide Digits, Decimal, PlaceValue, Encode;
    EncodePlain(Int(n));
    DecodesCodes(['i'] + t + ['e'], Int(n));
    assert (['i'] + t + ['e'] == ['i'] + Signed(n) + ['e']) <==> t == Signed(n) by {
      if ['i'] + t + ['e'] == ['i'] + Signed(n) + ['e'] { Inner(t, Signed(n)); }
    }
    if n >= 0 { DecimalParses(n); } else { DecimalParses(-n); assert Signed(n)[1..] == Decimal(-n); }
    if Normal(t) { DigitsPrint(t); DigitsAtPlaces(t); }
    if t != [] && t[0] == '-' && Normal(t[1..]) { DigitsPrint(t[1..]); DigitsAtPlaces(t[1..]); }
  }

  /** A string stands behind its length and a colon. */
  lemma StringTexts(t: string, s: string)
    requires ':' !in t
    ensures BDecode(t + [':'] + s) == Some(Str(s)) <==> Normal(t) && PlaceValue(t) == |s|
  {
    hide Digits, Decimal, PlaceValue, Encode;
    EncodePlain(Str(s));
    DecodesCodes(t + [':'] + s, Str(s));
    DecimalParses(|s|);
    if t + [':'] + s == EncodeString(s) {
      var k := Decimal(|s|);
      assert |t| == |k|;
      assert t == (t + [':'] + s)[..|t|] && k == EncodeString(s)[..|t|];
    }
    if Normal(t) { DigitsPrint(t); DigitsAtPlaces(t); }
  }

  lemma Inner(s: string, t: string)
    requires ['i'] + s + ['e'] == ['i'] + t + ['e']
    ensures s == t
  {
    assert s == (['i'] + s + ['e'])[1..|s| + 1] && t == (['i'] + t + ['e'])[1..|t| + 1];
  }

  // ---- Examples, as in the repository's own tests ----

  lemma NumberExamples()
    ensures Encode(Int(4)) == "i4e" && Encode(Int(0)) == "i0e" && Encode(Int(-10)) == "i-10e"
  {
  }

  lemma StringExamples()
    ensures Encode(Str("")) == "0:" && Encode(Str("abc")) == "3:abc" && Encode(Str("1234567890")) == "10:1234567890"
  {
  }

  lemma EmptyExamples()
    ensures Encode(List([])) == "le" && Encode(Dict(map[])) == "de"
  {
    var nothing: map<string, Value> := map[];
    assert Sorted(nothing.Keys) == [];
  }

  lemma ListExamples()
    ensures Encode(List([Int(1), Int(2), Int(3)])) == "li1ei2ei3ee"
    ensures Encode(List([Str("Alice"), Str("Bob")])) == "l5:Alice3:Bobe"
  {
    hide Encode;
    ListCode([Int(1), Int(2), Int(3)]);
    ListCode([Str("Alice"), Str("Bob")]);
    assert [Int(1), Int(2), Int(3)][1..] == [Int(2), Int(3)];
    TwoItems(Int(2), Int(3));
    TwoItems(Str("Alice"), Str("Bob"));
    ListParts();
  }

  lemma ListParts()
    ensures Encode(Int(1)) == "i1e" && Encode(Int(2)) == "i2e" && Encode(Int(3)) == "i3e"
    ensures Encode(Str("Alice")) == "5:Alice" && Encode(Str("Bob")) == "3:Bob"
  {
  }

  lemma ListCode(items: seq<Value>)
    ensures Encode(List(items)) == "l" + EncodeItems(items) + "e"
  {
  }

  lemma TwoItems(a: Value, b: Value)
    ensures EncodeItems([a, b]) == Encode(a) + Encode(b)
  {
    assert [a, b][1..] == [b] && [b][1..] == [];
    assert EncodeItems([b]) == Encode(b);
  }

  lemma DictExample()
    ensures Encode(Dict(map["eyes" := Str("blue"), "age" := Int(25)])) == "d3:agei25e4:eyes4:bluee"
  {
    hide Less, Sorted, Encode, EncodeKeys, EncodeString, Decimal, Signed;
    assert "age"[0] < "eyes"[0] && "age"[..0] == "eyes"[..0];
    TwoKeys(map["eyes" := Str("blue"), "age" := Int(25)], "age", "eyes");
    DictParts();
  }

  lemma DictParts()
    ensures EncodeString("age") == "3:age" && Encode(Int(25)) == "i25e"
    ensures EncodeString("eyes") == "4:eyes" && Encode(Str("blue")) == "4:blue"
  {
  }

  lemma TwoKeys(d: map<string, Value>, a: string, b: string)
    requires d.Keys == {a, b} && Precedes(a, b)
    ensures Encode(Dict(d)) == "d" + (EncodeString(a) + Encode(d[a]) + (EncodeString(b) + Encode(d[b]))) + "e"
  {
    hide Less, Precedes, EncodeString;
    LessIs(a, b);
    SortedIs(d.Keys, [a, b]);
    assert [a, b][1..] == [b] && [b][1..] == [];
    assert EncodeKeys(Dict(d), [b]) == EncodeString(b) + Encode(d[b]);
  }

  // ---- Reading ----

  function Prepend<T>(a: seq<T>, r: Option<(seq<T>, nat)>): Option<(seq<T>, nat)> {
    match r case None => None case Some((b, g)) => Some((a + b, g))
  }

  lemma PrependNothing<T>(r: Option<(seq<T>, nat)>)
    ensures Prepend([], r) == r
  {
    if r.Some? { assert [] + r.value.0 == r.value.0; }
  }

  method BDecodeText(x: string) returns (r: Option<Value>)
    ensures forall v :: r == Some(v) <==> x == Encode(v)
  {
    hide Decode, Encode;
    var d := Read(x, 0);
    r := None;
    if d.Some? && d.value.1 == |x| {
      r := Some(d.value.0);
    }
    forall v ensures r == Some(v) <==> x == Encode(v) {
      DecodesCodes(x, v);
    }
  }

  /** The functions of `decode_func`; the two with loops are methods. */
  method Read(x: string, f: nat) returns (r: Option<(Value, nat)>)
    ensures r == Decode(x, f)
    decreases |x| - f, 0
  {
    if f >= |x| {
      return None;
    }
    if x[f] == 'l' {
      r := ReadList(x, f);
    } else if x[f] == 'd' {
      ghost var keys;
      r, keys := ReadDict(x, f);
    } else if x[f] == 'i' {
      r := DecodeInt(x, f);
    } else if IsDigit(x[f]) {
      var s := DecodeString(x, f);
      r := if s == None then None else Some((Str(s.value.0), s.value.1));
    } else {
      r := None;
    }
  }

  method ReadList(x: string, f: nat) returns (r: Option<(Value, nat)>)
    requires f < |x|
    ensures r == match DecodeItems(x, f + 1) case None => None case Some((items, g)) => Some((List(items), g))
    decreases |x| - f - 1, 2
  {
    hide Decode, DecodePairs, MapOf, Plain, Index, At;
    var items, g := [], f + 1;
    PrependNothing(DecodeItems(x, g));
    while g < |x| && x[g] != 'e'
      invariant f < g && DecodeItems(x, f + 1) == Prepend(items, DecodeItems(x, g))
      decreases |x| - g
    {
      var v := Read(x, g);
      if v == None {
        return None;
      }
      ghost var later := DecodeItems(x, v.value.1);
      if later.Some? { assert items + ([v.value.0] + later.value.0) == items + [v.value.0] + later.value.0; }
      items, g := items + [v.value.0], v.value.1;
    }
    if g >= |x| {
      return None;
    }
    assert items + [] == items;
    r := Some((List(items), g + 1));
  }

  lemma MapOfNone()
    ensures MapOf([]) == map[]
  {
  }

  lemma MapOfNext(ps: Pairs, p: (string, Value))
    ensures MapOf(ps + [p]) == MapOf(ps)[p.0 := p.1]
  {
    assert (ps + [p])[..|ps|] == ps;
  }

  /** A dictionary is accepted with its keys in dictionary order. */
  method ReadDict(x: string, f: nat) returns (r: Option<(Value, nat)>, ghost accepted: seq<string>)
    requires f < |x|
    ensures r.Some? ==> r.value.0.Dict? && InOrder(accepted, r.value.0.dict.Keys)
    ensures r.Some? ==> At(x, f + 1, EncodeKeys(r.value.0, accepted) + ['e'])
    ensures r == match DecodePairs(x, f + 1, None) case None => None case Some((ps, g)) => Some((Dict(MapOf(ps)), g))
    decreases |x| - f - 1, 2
  {
    hide Less, DecodeString, Decode, InOrder, At, EncodeKeys, Keys, MapOf, Plain, Index;
    var dict, g, last := map[], f + 1, None;
    ghost var ps: Pairs := [];
    PrependNothing(DecodePairs(x, g, last));
    assert dict == MapOf(ps) by { MapOfNone(); }
    while g < |x| && x[g] != 'e'
      invariant f < g && dict == MapOf(ps) && DecodePairs(x, f + 1, None) == Prepend(ps, DecodePairs(x, g, last))
      decreases |x| - g
    {
      var k := DecodeString(x, g);
      if k == None {
        return None, [];
      }
      if last.Some? && !Less(last.value, k.value.0) {
        return None, [];
      }
      var v := Read(x, k.value.1);
      if v == None {
        return None, [];
      }
      ghost var p, later := (k.value.0, v.value.0), DecodePairs(x, v.value.1, Some(k.value.0));
      if later.Some? { assert ps + ([p] + later.value.0) == ps + [p] + later.value.0; }
      MapOfNext(ps, p);
      last, ps := Some(k.value.0), ps + [p];
      dict, g := dict[k.value.0 := v.value.0], v.value.1;
    }
    if g >= |x| {
      return None, [];
    }
    assert ps + [] == ps;
    DictBack(x, f + 1, ps, g + 1);
    r, accepted := Some((Dict(dict), g + 1)), Keys(ps);
  }

  // ---- Writing ----

  ghost function Join(parts: seq<string>): string {
    if parts == [] then [] else Join(parts[..|parts| - 1]) + parts[|parts| - 1]
  }

  /** The list that the printer appends to. */
  class Output {
    var parts: seq<string>

    constructor ()
      ensures parts == []
    {
      parts := [];
    }

    ghost function Text(): string
      reads this
    {
      Join(parts)
    }

    method Append(s: string)
      modifies this
      ensures Text() == old(Text()) + s
    {
      parts := parts + [s];
      assert parts[..|parts| - 1] == old(parts);
    }
  }

  method BEncode(v: Value) returns (r: Output)
    ensures fresh(r) && r.Text() == Encode(v)
  {
    r := new Output();
    Write(v, r);
    assert [] + Encode(v) == Encode(v);
  }

  method Write(v: Value, r: Output)
    modifies r
    ensures r.Text() == old(r.Text()) + Encode(v)
    decreases v, 0
  {
    match v {
      case Int(n) =>
        r.Append(['i']); r.Append(Signed(n)); r.Append(['e']);
        assert old(r.Text()) + ['i'] + Signed(n) + ['e'] == old(r.Text()) + Encode(v);
      case Str(s) =>
        WriteString(s, r);
      case List(items) =>
        WriteList(v, r);
      case Dict(dict) =>
        ghost var written := WriteDict(v, r);
    }
  }

  method WriteString(s: string, r: Output)
    modifies r
    ensures r.Text() == old(r.Text()) + EncodeString(s)
  {
    r.Append(Decimal(|s|)); r.Append([':']); r.Append(s);
    assert old(r.Text()) + Decimal(|s|) + [':'] + s == old(r.Text()) + EncodeString(s);
  }

  method WriteList(v: Value, r: Output)
    requires v.List?
    modifies r
    ensures r.Text() == old(r.Text()) + Encode(v)
    decreases v, 0, 0
  {
    hide Decimal, Signed, EncodeString, Output.Text;
    EncodePlain(v);
    r.Append(['l']);
    ghost var text := r.Text();
    assert v.items[0..] == v.items;
    for i := 0 to |v.items|
      invariant r.Text() + EncodeItems(v.items[i..]) == text + EncodeItems(v.items)
    {
      Write(v.items[i], r);
      assert v.items[i..][1..] == v.items[i + 1..];
    }
    r.Append(['e']);
    assert text + EncodeItems(v.items) + ['e'] == old(r.Text()) + (['l'] + (EncodeItems(v.items) + ['e']));
  }

  lemma EncodeSorted(v: Value)
    requires v.Dict?
    ensures Encode(v) == ['d'] + EncodeKeys(v, Sorted(v.dict.Keys)) + ['e']
  {
  }

  lemma GroupThree(s: string, a: string, b: string, c: string)
    ensures s + a + b + c == s + (a + b + c)
  {
  }

  /** The keys are written in dictionary order, each with its value behind it. */
  method WriteDict(v: Value, r: Output) returns (ghost written: seq<string>)
    requires v.Dict?
    modifies r
    ensures r.Text() == old(r.Text()) + Encode(v)
    ensures InOrder(written, v.dict.Keys) && r.Text() == old(r.Text()) + (['d'] + EncodeKeys(v, written) + ['e'])
    decreases v, 0, 0
  {
    hide Decimal, Signed, Output.Text, EncodeString, Encode, Sorted, InOrder, Ascends;
    r.Append(['d']);
    ghost var text := r.Text();
    var ks := SortKeys(v.dict.Keys);
    written := ks;
    SortedAscends(v.dict.Keys);
    AscendsIs(ks, v.dict.Keys);
    assert ks[0..] == ks;
    for i := 0 to |ks|
      invariant r.Text() + EncodeKeys(v, ks[i..]) == text + EncodeKeys(v, ks)
    {
      assert ks[i] in ks && ks[i] == ks[i..][0] && ks[i..][1..] == ks[i + 1..];
      ghost var before := r.Text();
      WriteString(ks[i], r);
      Write(v.dict[ks[i]], r);
      GroupThree(before, EncodeString(ks[i]), Encode(v.dict[ks[i]]), EncodeKeys(v, ks[i + 1..]));
    }
    r.Append(['e']);
    EncodeSorted(v);
    assert text + EncodeKeys(v, ks) + ['e'] == old(r.Text()) + (['d'] + EncodeKeys(v, ks) + ['e']);
  }

  /** sort() of the list of keys. */
  method SortKeys(keys: set<string>) returns (ks: seq<string>)
    ensures ks == Sorted(keys)
  {
    hide Less;
    ks := [];
    var rest := keys;
    while rest != {}
      invariant ks + Sorted(rest) == Sorted(keys)
      decreases |rest|
    {
      assert exists k :: Least(k, rest) by { var k := LeastExists(rest); }
      var k :| k in rest && Least(k, rest);
      LessTotal(k, Sorted(rest)[0]);
      assert ks + ([k] + Sorted(rest - {k})) == ks + [k] + Sorted(rest - {k});
      ks, rest := ks + [k], rest - {k};
    }
  }
}
