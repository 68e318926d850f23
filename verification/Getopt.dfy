/** Scanning a command line for options, and moving the other arguments behind them. */
module Getopts {
  import opened Basics

  datatype Ordering = RequireOrder | Permute | ReturnInOrder

  /** What the option string says of an option character. */
  datatype Kind = Unknown | Plain | Required | Optional

  /** What one call of getopt returns: -1, or a character code, with `optarg`. */
  datatype Found = Found(c: char, arg: Option<string>)

  /** The code of a non-option that is returned in order. */
  const IN_ORDER: char := 1 as char

  // ---- The option string ----

  /** my_index(s, c), as a position; |s| if there is none. */
  function IndexOf(s: string, c: char): (i: nat)
    ensures i <= |s| && (i < |s| ==> s[i] == c) && forall j | 0 <= j < i :: s[j] != c
  {
    if s == [] || s[0] == c then 0 else 1 + IndexOf(s[1..], c)
  }

  function KindOf(options: string, c: char): Kind {
    var i := IndexOf(options, c);
    if i == |options| || c == ':' then Unknown
    else if i + 1 < |options| && options[i + 1] == ':' then
      if i + 2 < |options| && options[i + 2] == ':' then Optional else Required
    else Plain
  }

  function OrderingOf(optstring: string, posixlyCorrect: bool): Ordering {
    if optstring != [] && optstring[0] == '-' then ReturnInOrder
    else if optstring != [] && optstring[0] == '+' then RequireOrder
    else if posixlyCorrect then RequireOrder
    else Permute
  }

  /** The option characters. The first call skips the character that selects the ordering, later calls do not. */
  function OptionsOf(optstring: string, initial: bool): string {
    if initial && optstring != [] && (optstring[0] == '-' || optstring[0] == '+') then optstring[1..] else optstring
  }

  predicate NonOption(a: string) {
    a == [] || a[0] != '-' || |a| == 1
  }

  // ---- What a command line means ----

  /** The options of a cluster of option characters, the last of which may take `next` as its argument. */
  function Decoded(optstring: string, initial: bool, cluster: string, next: Option<string>): seq<Found> {
    if cluster == [] then [] else
      var c, more := cluster[0], cluster[1..];
      var options := OptionsOf(optstring, initial);
      match KindOf(options, c)
      case Unknown => [Found('?', None)] + Decoded(optstring, false, more, next)
      case Plain => [Found(c, None)] + Decoded(optstring, false, more, next)
      case Optional => [Found(c, if more == [] then None else Some(more))]
      case Required =>
        if more != [] then [Found(c, Some(more))]
        else if next == None then [Found(if options[0] == ':' then ':' else '?', None)]
        else [Found(c, next)]
  }

  /** Whether the last option of a cluster wants the next element as its argument. */
  predicate TakesNext(optstring: string, initial: bool, cluster: string) {
    cluster != [] &&
    match KindOf(OptionsOf(optstring, initial), cluster[0])
    case Unknown => TakesNext(optstring, false, cluster[1..])
    case Plain => TakesNext(optstring, false, cluster[1..])
    case Optional => false
    case Required => |cluster| == 1
  }

  /** The options found, and the elements divided into those that make up the options and the rest. */
  datatype Parsed = Parsed(found: seq<Found>, options: seq<string>, rest: seq<string>)

  datatype Rules = Rules(ordering: Ordering, optstring: string)

  function Parse(r: Rules, initial: bool, a: seq<string>): Parsed
    decreases |a|, 1
  {
    if a == [] then Parsed([], [], [])
    else if a[0] == "--" then Parsed([], a[..1], a[1..])
    else if NonOption(a[0]) then
      match r.ordering
      case RequireOrder => Parsed([], [], a)
      case Permute => var p := Parse(r, initial, a[1..]); Parsed(p.found, p.options, [a[0]] + p.rest)
      case ReturnInOrder => Add([Found(IN_ORDER, Some(a[0]))], a[..1], [], Parse(r, false, a[1..]))
    else ParseCluster(r, initial, a[0][1..], a)
  }

  /** As Parse, with only `cluster` of the first element left to decode. */
  function ParseCluster(r: Rules, initial: bool, cluster: string, a: seq<string>): Parsed
    requires a != []
    decreases |a|, 0
  {
    var next := if |a| > 1 then Some(a[1]) else None;
    var n := if TakesNext(r.optstring, initial, cluster) && |a| > 1 then 2 else 1;
    Add(Decoded(r.optstring, initial, cluster, next), a[..n], [], Parse(r, false, a[n..]))
  }

  function Add(found: seq<Found>, options: seq<string>, skipped: seq<string>, p: Parsed): Parsed {
    Parsed(found + p.found, options + p.options, skipped + p.rest)
  }

  lemma AddAdd(f: seq<Found>, o: seq<string>, s: seq<string>, f': seq<Found>, o': seq<string>, s': seq<string>,
               p: Parsed)
    ensures Add(f, o, s, Add(f', o', s', p)) == Add(f + f', o + o', s + s', p)
  {
    assert f + (f' + p.found) == f + f' + p.found;
    assert o + (o' + p.options) == o + o' + p.options;
    assert s + (s' + p.rest) == s + s' + p.rest;
  }

  // ---- The state of a scan ----

  /** Elements [first, last) are skipped non-options; [1, first) and [last, optind) were processed as options. */
  datatype Scan = Scan(argv: seq<string>, first: nat, last: nat, optind: nat, nextchar: string)

  ghost predicate Bounds(s: Scan) {
    1 <= s.first <= s.last <= s.optind <= |s.argv| && (s.nextchar != [] ==> s.optind < |s.argv|)
  }

  function Pending(r: Rules, initial: bool, nextchar: string, a: seq<string>): Parsed
    requires nextchar != [] ==> a != []
  {
    if nextchar == [] then Parse(r, initial, a) else ParseCluster(r, initial, nextchar, a)
  }

  /** What the command line `orig` means is what was found and sorted out so far, and what is still to come. */
  ghost predicate Scanning(r: Rules, orig: seq<string>, s: Scan, initial: bool, found: seq<Found>) {
    && Bounds(s) && |orig| == |s.argv| && s.argv[0] == orig[0]
    && (r.ordering != Permute ==> s.first == s.last)
    && Parse(r, true, orig[1..]) ==
       Add(found, s.argv[1..s.first] + s.argv[s.last..s.optind], s.argv[s.first..s.last],
           Pending(r, initial, s.nextchar, s.argv[s.optind..]))
  }

  /** The outcome of a whole scan: the options, and then the rest, each in their original order. */
  ghost predicate Finished(r: Rules, orig: seq<string>, argv: seq<string>, optind: nat, found: seq<Found>) {
    && |orig| > 0
    && var p := Parse(r, true, orig[1..]);
       found == p.found && argv == [orig[0]] + p.options + p.rest && optind == 1 + |p.options|
  }

  lemma Start(r: Rules, orig: seq<string>)
    requires |orig| > 0
    ensures Scanning(r, orig, Scan(orig, 1, 1, 1, []), true, [])
  {
    var p := Parse(r, true, orig[1..]);
    assert orig[1..1] + orig[1..1] == [] && Add([], [], [], p) == p;
  }

  function Rotated<T>(a: seq<T>, bottom: nat, middle: nat, top: nat): (r: seq<T>)
    requires bottom <= middle <= top <= |a|
    ensures |r| == |a|
  {
    a[..bottom] + a[middle..top] + a[bottom..middle] + a[top..]
  }

  lemma RotatedIs<T>(a: seq<T>, bottom: nat, middle: nat, top: nat)
    requires 1 <= bottom <= middle <= top <= |a|
    ensures Rotated(a, bottom, middle, top) == [a[0]] + (a[1..bottom] + a[middle..top]) + (a[bottom..middle] + a[top..])
    ensures bottom == middle ==> Rotated(a, bottom, middle, top) == a
  {
  }

  /** After an exchange the skipped elements are behind the options again. */
  lemma ExchangeStep(r: Rules, orig: seq<string>, s: Scan, initial: bool, found: seq<Found>)
    requires Scanning(r, orig, s, initial, found)
    ensures Scanning(r, orig,
      Scan(Rotated(s.argv, s.first, s.last, s.optind), s.first + (s.optind - s.last), s.optind, s.optind, s.nextchar),
          initial, found)
  {
    hide Parse, Pending;
    var a, f := Rotated(s.argv, s.first, s.last, s.optind), s.first + (s.optind - s.last);
    assert a[1..f] + a[s.optind..s.optind] == s.argv[1..s.first] + s.argv[s.last..s.optind];
    assert a[f..s.optind] == s.argv[s.first..s.last];
    assert a[s.optind..] == s.argv[s.optind..];
  }

  /** Without skipped elements there is nothing to exchange. */
  lemma NoneSkipped(r: Rules, orig: seq<string>, s: Scan, initial: bool, found: seq<Found>)
    requires Scanning(r, orig, s, initial, found) && s.first == s.last
    ensures Scanning(r, orig, s.(first := s.optind, last := s.optind), initial, found)
  {
    hide Parse, Pending;
    assert s.argv[1..s.optind] + s.argv[s.optind..s.optind] == s.argv[1..s.first] + s.argv[s.last..s.optind];
  }

  lemma ParseSkip(r: Rules, initial: bool, a: seq<string>)
    requires a != [] && NonOption(a[0]) && a[0] != "--" && r.ordering == Permute
    ensures Parse(r, initial, a) == Add([], [], [a[0]], Parse(r, initial, a[1..]))
  {
  }

  lemma SkipStep(r: Rules, orig: seq<string>, s: Scan, initial: bool, found: seq<Found>)
    requires Scanning(r, orig, s, initial, found) && r.ordering == Permute && s.nextchar == [] && s.last == s.optind
    requires s.optind < |s.argv| && NonOption(s.argv[s.optind]) && s.argv[s.optind] != "--"
    ensures Scanning(r, orig, s.(last := s.optind + 1, optind := s.optind + 1), initial, found)
  {
    hide Parse, Add;
    var a, p := s.argv[s.optind..], Parse(r, initial, s.argv[s.optind + 1..]);
    assert a[1..] == s.argv[s.optind + 1..];
    ParseSkip(r, initial, a);
    var options, skipped := s.argv[1..s.first] + s.argv[s.last..s.optind], s.argv[s.first..s.last];
    AddAdd(found, options, skipped, [], [], [a[0]], p);
    assert found + [] == found;
    assert skipped + [a[0]] == s.argv[s.first..s.last + 1];
    assert options + [] == s.argv[1..s.first] + s.argv[s.last + 1..s.optind + 1];
  }

  lemma ParseMark(r: Rules, initial: bool, a: seq<string>)
    requires a != [] && a[0] == "--"
    ensures Parse(r, initial, a) == Parsed([], a[..1], a[1..])
  {
  }

  /** `--` counts as an option, and everything after it as skipped. */
  lemma EndMark(r: Rules, orig: seq<string>, s: Scan, initial: bool, found: seq<Found>)
    requires Scanning(r, orig, s, initial, found) && s.nextchar == []
    requires s.optind < |s.argv| && s.argv[s.optind] == "--"
    ensures s.first == s.last ==> Finished(r, orig, s.argv, s.optind + 1, found)
    ensures Finished(r, orig, Rotated(s.argv, s.first, s.last, s.optind + 1), s.first + (s.optind + 1 - s.last), found)
  {
    hide Parse;
    var a := s.argv[s.optind..];
    ParseMark(r, initial, a);
    assert found + [] == found;
    assert a[..1] == s.argv[s.optind..s.optind + 1];
    var options := s.argv[1..s.first] + s.argv[s.last..s.optind] + a[..1];
    assert options == s.argv[1..s.first] + s.argv[s.last..s.optind + 1];
    RotatedIs(s.argv, s.first, s.last, s.optind + 1);
    assert a[1..] == s.argv[s.optind + 1..];
  }

  lemma NothingLeft(r: Rules, orig: seq<string>, s: Scan, initial: bool, found: seq<Found>)
    requires Scanning(r, orig, s, initial, found) && s.nextchar == [] && s.optind == |s.argv|
    requires s.first != s.last ==> s.last == s.optind
    ensures Finished(r, orig, s.argv, if s.first == s.last then s.optind else s.first, found)
  {
    hide Parse;
    var a := s.argv[s.optind..];
    ParseNothing(r, initial, a);
    var options, skipped := s.argv[1..s.first] + s.argv[s.last..s.optind], s.argv[s.first..s.last];
    assert found + [] == found && options + [] == options && skipped + [] == skipped;
    RotatedIs(s.argv, s.first, s.last, s.optind);
    if s.last == s.optind { NothingToRotate(s.argv, s.first, s.last, s.optind); }
    assert skipped + a == skipped;
  }

  lemma ParseNothing(r: Rules, initial: bool, a: seq<string>)
    ensures a == [] ==> Parse(r, initial, a) == Parsed([], [], [])
    ensures a != [] && NonOption(a[0]) && a[0] != "--" && r.ordering == RequireOrder ==>
      Parse(r, initial, a) == Parsed([], [], a)
  {
  }

  lemma StopAtNonOption(r: Rules, orig: seq<string>, s: Scan, initial: bool, found: seq<Found>)
    requires Scanning(r, orig, s, initial, found) && s.nextchar == [] && s.optind < |s.argv|
    requires r.ordering == RequireOrder
    requires NonOption(s.argv[s.optind]) && s.argv[s.optind] != "--"
    ensures Finished(r, orig, s.argv, s.optind, found)
  {
    hide Parse;
    var a := s.argv[s.optind..];
    ParseNothing(r, initial, a);
    var options, skipped := s.argv[1..s.first] + s.argv[s.last..s.optind], s.argv[s.first..s.last];
    assert found + [] == found && options + [] == options && skipped + a == a;
    RotatedIs(s.argv, s.first, s.last, s.optind);
  }

  lemma ParseReturned(r: Rules, initial: bool, a: seq<string>)
    requires a != [] && NonOption(a[0]) && a[0] != "--" && r.ordering == ReturnInOrder
    ensures Parse(r, initial, a) == Add([Found(IN_ORDER, Some(a[0]))], a[..1], [], Parse(r, false, a[1..]))
  {
  }

  lemma ReturnElement(r: Rules, orig: seq<string>, s: Scan, initial: bool, found: seq<Found>)
    requires Scanning(r, orig, s, initial, found) && s.nextchar == [] && s.optind < |s.argv|
    requires r.ordering == ReturnInOrder
    requires NonOption(s.argv[s.optind]) && s.argv[s.optind] != "--"
    ensures Scanning(r, orig, s.(optind := s.optind + 1), false, found + [Found(IN_ORDER, Some(s.argv[s.optind]))])
  {
    hide Parse, ParseCluster;
    var a := s.argv[s.optind..];
    assert a[1..] == s.argv[s.optind + 1..];
    ParseReturned(r, initial, a);
    Consumed(r, orig, s, found, [Found(IN_ORDER, Some(a[0]))], 1, Parse(r, false, a[1..]));
  }

  /** `n` more elements were consumed as options. */
  lemma Consumed(r: Rules, orig: seq<string>, s: Scan, found: seq<Found>, more: seq<Found>, n: nat, p: Parsed)
    requires Bounds(s) && s.optind + n <= |s.argv|
    ensures Add(found, s.argv[1..s.first] + s.argv[s.last..s.optind], s.argv[s.first..s.last],
                Add(more, s.argv[s.optind..][..n], [], p))
         == Add(found + more, s.argv[1..s.first] + s.argv[s.last..s.optind + n], s.argv[s.first..s.last], p)
  {
  }

  /** The first option of a cluster, what is left of the cluster, and how many elements are done with. */
  function FirstOption(optstring: string, initial: bool, cluster: string, next: Option<string>): (Found, string, nat)
    requires cluster != []
  {
    var c, more := cluster[0], cluster[1..];
    var options := OptionsOf(optstring, initial);
    match KindOf(options, c)
    case Unknown => (Found('?', None), more, if more == [] then 1 else 0)
    case Plain => (Found(c, None), more, if more == [] then 1 else 0)
    case Optional => (Found(c, if more == [] then None else Some(more)), [], 1)
    case Required =>
      if more != [] then (Found(c, Some(more)), [], 1)
      else if next == None then (Found(if options[0] == ':' then ':' else '?', None), [], 1)
      else (Found(c, next), [], 2)
  }

  function NextOf(a: seq<string>): Option<string> {
    if |a| > 1 then Some(a[1]) else None
  }

  lemma ClusterIs(r: Rules, initial: bool, cluster: string, a: seq<string>)
    requires cluster != [] && a != []
    ensures var (f, more, n) := FirstOption(r.optstring, initial, cluster, NextOf(a));
      && n <= |a| && (more != [] ==> n == 0)
      && ParseCluster(r, initial, cluster, a) == Add([f], a[..n], [], Pending(r, false, more, a[n..]))
  {
    hide Parse, Add;
    var (f, more, n) := FirstOption(r.optstring, initial, cluster, NextOf(a));
    if more != [] {
      var k := if TakesNext(r.optstring, false, more) && |a| > 1 then 2 else 1;
      AddAdd([f], [], [], Decoded(r.optstring, false, more, NextOf(a)), a[..k], [], Parse(r, false, a[k..]));
      var none: seq<string> := [];
      assert none + a[..k] == a[..k] && none + none == none && a[0..] == a && a[..0] == none;
    } else {
      assert Decoded(r.optstring, initial, cluster, NextOf(a)) == [f];
    }
  }

  lemma ClusterStep(r: Rules, orig: seq<string>, s: Scan, initial: bool, found: seq<Found>)
    requires Scanning(r, orig, s, initial, found) && s.nextchar != []
    ensures var (f, more, n) := FirstOption(r.optstring, initial, s.nextchar, NextOf(s.argv[s.optind..]));
      && (more != [] ==> n == 0)
      && Scanning(r, orig, s.(optind := s.optind + n, nextchar := more), false, found + [f])
  {
    hide Parse, ParseCluster, Add, FirstOption;
    var a := s.argv[s.optind..];
    var (f, more, n) := FirstOption(r.optstring, initial, s.nextchar, NextOf(a));
    ClusterIs(r, initial, s.nextchar, a);
    assert a[n..] == s.argv[s.optind + n..];
    Consumed(r, orig, s, found, [f], n, Pending(r, false, more, a[n..]));
  }

  /** An option element is decoded from its second character on. */
  lemma OpenCluster(r: Rules, orig: seq<string>, s: Scan, initial: bool, found: seq<Found>)
    requires Scanning(r, orig, s, initial, found) && s.nextchar == [] && s.optind < |s.argv|
    requires !NonOption(s.argv[s.optind]) && s.argv[s.optind] != "--"
    ensures s.argv[s.optind][1..] != [] && Scanning(r, orig, s.(nextchar := s.argv[s.optind][1..]), initial, found)
  {
    var a := s.argv[s.optind..];
    assert Parse(r, initial, a) == ParseCluster(r, initial, a[0][1..], a);
  }

  // ---- The result is a stable partition ----

  /** The marked elements, in order. */
  function Marked<T>(a: seq<T>, marks: seq<bool>, which: bool): seq<T>
    requires |a| == |marks|
  {
    if a == [] then [] else (if marks[0] == which then a[..1] else []) + Marked(a[1..], marks[1..], which)
  }

  lemma {:induction false} MarkedAppend<T>(a: seq<T>, m: seq<bool>, b: seq<T>, n: seq<bool>, which: bool)
    requires |a| == |m| && |b| == |n|
    ensures Marked(a + b, m + n, which) == Marked(a, m, which) + Marked(b, n, which)
  {
    if a == [] {
      assert a + b == b && m + n == n;
      assert [] + Marked(b, n, which) == Marked(b, n, which);
    } else {
      var first := if m[0] == which then a[..1] else [];
      assert first + (Marked(a[1..], m[1..], which) + Marked(b, n, which))
          == first + Marked(a[1..], m[1..], which) + Marked(b, n, which);
      MarkedAppend(a[1..], m[1..], b, n, which);
      assert (a + b)[1..] == a[1..] + b && (m + n)[1..] == m[1..] + n && (a + b)[..1] == a[..1];
    }
  }

  lemma {:induction false} AllMarked<T>(a: seq<T>, m: seq<bool>, which: bool)
    requires |a| == |m| && forall i | 0 <= i < |m| :: m[i] == which
    ensures Marked(a, m, which) == a && Marked(a, m, !which) == []
  {
    if a != [] {
      AllMarked(a[1..], m[1..], which);
      assert a == a[..1] + a[1..];
    }
  }

  /** Options with their arguments and any `--` are told from the other elements one by one, and neither group is
      reordered. */
  lemma {:induction false} StablePartition(r: Rules, initial: bool, a: seq<string>) returns (marks: seq<bool>)
    ensures |marks| == |a|
    ensures Parse(r, initial, a).options == Marked(a, marks, true)
    ensures Parse(r, initial, a).rest == Marked(a, marks, false)
    decreases |a|
  {
    hide Decoded, TakesNext, NonOption, Marked, ParseCluster;
    var p := Parse(r, initial, a);
    var k := Leading(r, initial, a);
    var front, mark := seq(k.0, _ => k.1), seq(|a| - k.0, _ => false);
    AllMarked(a[..k.0], front, k.1);
    assert a == a[..k.0] + a[k.0..];
    if k.2 {
      AllMarked(a[k.0..], mark, false);
      marks := front + mark;
      MarkedAppend(a[..k.0], front, a[k.0..], mark, true);
      MarkedAppend(a[..k.0], front, a[k.0..], mark, false);
    } else {
      LeadingParse(r, initial, a);
      mark := StablePartition(r, a != [] && NonOption(a[0]) && r.ordering == Permute && initial, a[k.0..]);
      marks := front + mark;
      MarkedAppend(a[..k.0], front, a[k.0..], mark, true);
      MarkedAppend(a[..k.0], front, a[k.0..], mark, false);
    }
  }

  /** How many elements belong together at the front, whether they are options, and whether the scan ends there. */
  ghost function Leading(r: Rules, initial: bool, a: seq<string>): (k: (nat, bool, bool))
    ensures k.0 <= |a| && (!k.2 ==> k.0 > 0)
    ensures k.2 ==>
      Parse(r, initial, a).options == a[..k.0] && Parse(r, initial, a).rest == a[k.0..] && (k.1 || k.0 == 0)
  {
    if a == [] then (0, false, true)
    else if a[0] == "--" then (1, true, true)
    else if NonOption(a[0]) then
      match r.ordering
      case RequireOrder => (0, false, true)
      case Permute => (1, false, false)
      case ReturnInOrder => (1, true, false)
    else (if TakesNext(r.optstring, initial, a[0][1..]) && |a| > 1 then 2 else 1, true, false)
  }

  lemma LeadingParse(r: Rules, initial: bool, a: seq<string>)
    requires !Leading(r, initial, a).2
    ensures var (n, isOption, _) := Leading(r, initial, a);
      var p, q := Parse(r, initial, a), Parse(r, NonOption(a[0]) && r.ordering == Permute && initial, a[n..]);
      p.options == (if isOption then a[..n] else []) + q.options && p.rest == (if isOption then [] else a[..n]) + q.rest
  {
    hide Decoded, TakesNext, NonOption;
  }

  // ---- What each element is ----

  /** What is said of a kind, by the text: the first place where the character stands decides, one colon behind it asks
      for an argument, and two allow one. */
  lemma KindIs(options: string, c: char, i: nat)
    ensures c == ':' || c !in options ==> KindOf(options, c) == Unknown
    ensures c != ':' && i < |options| && options[i] == c && c !in options[..i] ==>
      KindOf(options, c) ==
      if "::" <= options[i + 1..] then Optional else if ":" <= options[i + 1..] then Required else Plain
  {
    if i < |options| && options[i] == c && c !in options[..i] {
      forall k | 0 <= k < i ensures options[k] != c {
        assert options[k] in options[..i];
      }
      assert IndexOf(options, c) == i;
    }
  }

  /** The option characters for character `k` of a cluster. Only the first call knows that a selecting character is none
      of them, and it reads one character. */
  function OptionsAt(optstring: string, initial: bool, k: nat): string {
    if initial && k == 0 && optstring != [] && optstring[0] in "+-" then optstring[1..] else optstring
  }

  function KindAt(optstring: string, initial: bool, cluster: string, k: nat): Kind
    requires k < |cluster|
  {
    KindOf(OptionsAt(optstring, initial, k), cluster[k])
  }

  /** What is found for a character that may have an argument, with `rest` of the cluster behind it. */
  function WithArgument(options: string, c: char, rest: string, next: Option<string>): Found {
    if rest != [] then Found(c, Some(rest))
    else if KindOf(options, c) == Optional then Found(c, None)
    else if next.Some? then Found(c, next)
    else Found(if ":" <= options then ':' else '?', None)
  }

  /** A cluster, character by character: `d` was found for it. The first character that may have an argument takes what
      is left as its argument; if nothing is, and it needs one, the next element. */
  ghost predicate Reads(optstring: string, initial: bool, cluster: string, next: Option<string>, d: seq<Found>) {
    && |d| <= |cluster|
    && (forall k | 0 <= k < |d| - 1 :: KindAt(optstring, initial, cluster, k) in {Unknown, Plain})
    && (|d| < |cluster| ==> d != [] && KindAt(optstring, initial, cluster, |d| - 1) !in {Unknown, Plain})
    && forall k | 0 <= k < |d| :: d[k] == FoundAt(optstring, initial, cluster, next, k)
  }

  function FoundAt(optstring: string, initial: bool, cluster: string, next: Option<string>, k: nat): Found
    requires k < |cluster|
  {
    match KindAt(optstring, initial, cluster, k)
    case Unknown => Found('?', None)
    case Plain => Found(cluster[k], None)
    case _ => WithArgument(OptionsAt(optstring, initial, k), cluster[k], cluster[k + 1..], next)
  }

  /** The last character needs an argument, and no other one takes it. */
  ghost predicate WantsNext(optstring: string, initial: bool, cluster: string) {
    && cluster != [] && KindAt(optstring, initial, cluster, |cluster| - 1) == Required
    && forall k | 0 <= k < |cluster| - 1 :: KindAt(optstring, initial, cluster, k) in {Unknown, Plain}
  }

  lemma {:induction false} ClusterMeans(optstring: string, initial: bool, cluster: string, next: Option<string>)
    ensures Reads(optstring, initial, cluster, next, Decoded(optstring, initial, cluster, next))
    ensures TakesNext(optstring, initial, cluster) <==> WantsNext(optstring, initial, cluster)
  {
    hide KindOf;
    if cluster != [] {
      var more := cluster[1..];
      ClusterMeans(optstring, false, more, next);
      assert OptionsOf(optstring, initial) == OptionsAt(optstring, initial, 0);
      forall k | 0 < k < |cluster|
        ensures KindAt(optstring, initial, cluster, k) == KindAt(optstring, false, more, k - 1)
      {
      }
      assert forall k | 0 <= k < |more| ::
        KindAt(optstring, false, more, k) == KindAt(optstring, initial, cluster, k + 1);
      var options, c := OptionsOf(optstring, initial), cluster[0];
      if KindOf(options, c) in {Unknown, Plain} {
        ReadsMore(optstring, initial, cluster, next, Decoded(optstring, false, more, next));
      } else {
        Listed(options, c);
        assert ":" <= options <==> options[0] == ':';
      }
    }
  }

  lemma ReadsMore(optstring: string, initial: bool, cluster: string, next: Option<string>, d: seq<Found>)
    requires cluster != [] && KindAt(optstring, initial, cluster, 0) in {Unknown, Plain}
    requires Reads(optstring, false, cluster[1..], next, d)
    ensures Reads(optstring, initial, cluster, next, [FoundAt(optstring, initial, cluster, next, 0)] + d)
  {
    hide KindAt, FoundAt;
    var d' := [FoundAt(optstring, initial, cluster, next, 0)] + d;
    forall k | 0 <= k < |d'| ensures d'[k] == FoundAt(optstring, initial, cluster, next, k) {
      if k > 0 { SameAt(optstring, initial, cluster, next, k); }
    }
    forall k | 0 <= k < |d'| - 1 ensures KindAt(optstring, initial, cluster, k) in {Unknown, Plain} {
      if k > 0 { SameAt(optstring, initial, cluster, next, k); }
    }
    if |d'| < |cluster| { SameAt(optstring, initial, cluster, next, |d|); }
  }

  lemma SameAt(optstring: string, initial: bool, cluster: string, next: Option<string>, k: nat)
    requires 0 < k < |cluster|
    ensures KindAt(optstring, initial, cluster, k) == KindAt(optstring, false, cluster[1..], k - 1)
    ensures FoundAt(optstring, initial, cluster, next, k) == FoundAt(optstring, false, cluster[1..], next, k - 1)
  {
    assert cluster[1..][k - 1 + 1..] == cluster[k + 1..];
  }

  /** What an element of the command line is: options, the argument of one, the `--` that ends them, another element, or
      one that the scan does not come to. */
  datatype Role = Options | Argument | End | Other | Left

  /** What element `i` is, from the text and from what comes before it. `stops` tells whether the scan stops at the
      first element that is no option. */
  ghost predicate RoleAt(optstring: string, initial: bool, stops: bool, a: seq<string>, roles: seq<Role>, i: nat)
    requires |roles| == |a| && i < |a|
  {
    roles[i] ==
    if i > 0 && roles[i - 1] in {End, Left} then Left
    else if i > 0 && roles[i - 1] == Options && |a[i - 1]| > 0 &&
      WantsNext(optstring, initial && i == 1, a[i - 1][1..]) then Argument
    else if a[i] == "--" then End
    else if |a[i]| > 1 && a[i][0] == '-' then Options
    else if stops then Left
    else Other
  }

  ghost predicate Divides(optstring: string, initial: bool, stops: bool, a: seq<string>, roles: seq<Role>) {
    |roles| == |a| && forall i | 0 <= i < |a| :: RoleAt(optstring, initial, stops, a, roles, i)
  }

  /** What is found, element by element. Other elements are found if they are returned in order. */
  ghost function FoundIn(optstring: string, initial: bool, inOrder: bool, a: seq<string>, roles: seq<Role>): seq<Found>
    requires |roles| == |a|
  {
    if a == [] then [] else
      (if roles[0] == Options && a[0] != [] then Decoded(optstring, initial, a[0][1..], NextOf(a))
       else if roles[0] == Other && inOrder then [Found(1 as char, Some(a[0]))] else [])
      + FoundIn(optstring, false, inOrder, a[1..], roles[1..])
  }

  /** Which elements are sorted to the front. */
  ghost function InFront(inOrder: bool, roles: seq<Role>): (marks: seq<bool>)
    ensures |marks| == |roles|
  {
    seq(|roles|, i requires 0 <= i < |roles| => roles[i] in {Options, Argument, End} || (roles[i] == Other && inOrder))
  }

  /** Without a selecting character, the first call reads as the others do. */
  lemma NoSelector(optstring: string, stops: bool, inOrder: bool, a: seq<string>, roles: seq<Role>)
    requires !HasSelector(optstring) && |roles| == |a|
    ensures Divides(optstring, true, stops, a, roles) <==> Divides(optstring, false, stops, a, roles)
    ensures FoundIn(optstring, true, inOrder, a, roles) == FoundIn(optstring, false, inOrder, a, roles)
  {
    hide WantsNext, Decoded;
    forall cluster ensures WantsNext(optstring, true, cluster) == WantsNext(optstring, false, cluster) {
      SameCluster(optstring, cluster, None);
    }
    forall i | 0 <= i < |a|
      ensures RoleAt(optstring, true, stops, a, roles, i) == RoleAt(optstring, false, stops, a, roles, i)
    {
    }
    if a != [] && a[0] != [] { SameCluster(optstring, a[0][1..], NextOf(a)); }
  }

  lemma SameCluster(optstring: string, cluster: string, next: Option<string>)
    requires !HasSelector(optstring)
    ensures WantsNext(optstring, true, cluster) == WantsNext(optstring, false, cluster)
    ensures Decoded(optstring, true, cluster, next) == Decoded(optstring, false, cluster, next)
  {
    hide KindOf;
    ClusterMeans(optstring, true, cluster, next);
    ClusterMeans(optstring, false, cluster, next);
  }

  /** One element or two in front: options, with the argument that they want, or another element. */
  lemma DividesMore(optstring: string, initial: bool, stops: bool, a: seq<string>, n: nat, role: Role, rest: seq<Role>)
    requires 1 <= n <= |a| && Divides(optstring, false, stops, a[n..], rest)
    requires role == Other ==> n == 1 && !stops && a[0] != "--" && (|a[0]| <= 1 || a[0][0] != '-')
    requires role == Options ==>
      && a[0] != "--" && |a[0]| > 1 && a[0][0] == '-'
      && n == if WantsNext(optstring, initial, a[0][1..]) && |a| > 1 then 2 else 1
    requires role == Other || role == Options
    ensures Divides(optstring, initial, stops, a, [role] + seq(n - 1, _ => Argument) + rest)
  {
    hide WantsNext;
    var roles := [role] + seq(n - 1, _ => Argument) + rest;
    forall i | 0 <= i < |a| ensures RoleAt(optstring, initial, stops, a, roles, i) {
      if i >= n {
        assert RoleAt(optstring, false, stops, a[n..], rest, i - n);
        assert roles[i] == rest[i - n] && a[n..][i - n] == a[i];
        if i > n { assert roles[i - 1] == rest[i - n - 1] && a[n..][i - n - 1] == a[i - 1]; }
      }
    }
  }

  lemma DividesEnd(optstring: string, initial: bool, stops: bool, a: seq<string>, role: Role)
    requires a != [] && (role == End ==> a[0] == "--")
    requires role == Left ==> stops && a[0] != "--" && (|a[0]| <= 1 || a[0][0] != '-')
    requires role == End || role == Left
    ensures Divides(optstring, initial, stops, a, [role] + seq(|a| - 1, _ => Left))
  {
    var roles := [role] + seq(|a| - 1, _ => Left);
    forall i | 0 <= i < |a| ensures RoleAt(optstring, initial, stops, a, roles, i) {
    }
  }

  lemma {:induction false} FoundNone(optstring: string, initial: bool, inOrder: bool, a: seq<string>, roles: seq<Role>)
    requires |roles| == |a| && forall i | 0 <= i < |a| :: roles[i] !in {Options, Other}
    ensures FoundIn(optstring, initial, inOrder, a, roles) == []
  {
    if a != [] {
      FoundNone(optstring, false, inOrder, a[1..], roles[1..]);
    }
  }

  /** What the scan makes of a command line, by the roles of its elements. */
  ghost predicate Divided(r: Rules, initial: bool, a: seq<string>, roles: seq<Role>) {
    var p, inOrder := Parse(r, initial, a), r.ordering == ReturnInOrder;
    && |roles| == |a| && Divides(r.optstring, initial, r.ordering == RequireOrder, a, roles)
    && p.options == Marked(a, InFront(inOrder, roles), true)
    && p.rest == Marked(a, InFront(inOrder, roles), false)
    && p.found == FoundIn(r.optstring, initial, inOrder, a, roles)
  }

  lemma {:induction false} DividedMore(r: Rules, initial: bool, a: seq<string>, n: nat, role: Role, rest: seq<Role>)
    requires 1 <= n <= |a| && n <= 2 && Divided(r, false, a[n..], rest)
    requires Divides(r.optstring, initial, r.ordering == RequireOrder, a, [role] + seq(n - 1, _ => Argument) + rest)
    requires var p, q := Parse(r, initial, a), Parse(r, false, a[n..]);
      if role == Other then
        n == 1 && if r.ordering == ReturnInOrder then p == Add([Found(1 as char, Some(a[0]))], a[..1], [], q)
                  else p == Add([], [], a[..1], q)
      else
        role == Options && a[0] != [] && p == Add(Decoded(r.optstring, initial, a[0][1..], NextOf(a)), a[..n], [], q)
    ensures Divided(r, initial, a, [role] + seq(n - 1, _ => Argument) + rest)
  {
    hide Parse, Marked, Decoded, Divides;
    var front, inOrder := [role] + seq(n - 1, _ => Argument), r.ordering == ReturnInOrder;
    var roles, which := front + rest, role == Options || inOrder;
    assert a == a[..n] + a[n..];
    assert InFront(inOrder, roles) == InFront(inOrder, front) + InFront(inOrder, rest);
    AllMarked(a[..n], InFront(inOrder, front), which);
    MarkedAppend(a[..n], InFront(inOrder, front), a[n..], InFront(inOrder, rest), true);
    MarkedAppend(a[..n], InFront(inOrder, front), a[n..], InFront(inOrder, rest), false);
    FoundMore(r.optstring, initial, inOrder, a, n, role, rest);
  }

  lemma FoundMore(optstring: string, initial: bool, inOrder: bool, a: seq<string>, n: nat, role: Role, rest: seq<Role>)
    requires 1 <= n <= |a| && |rest| == |a| - n && (role == Options ==> n <= 2) && (role == Other ==> n == 1)
    requires role == Other || (role == Options && a[0] != [])
    ensures FoundIn(optstring, initial, inOrder, a, [role] + seq(n - 1, _ => Argument) + rest) ==
      (if role == Options then Decoded(optstring, initial, a[0][1..], NextOf(a))
       else if inOrder then [Found(1 as char, Some(a[0]))] else []) + FoundIn(optstring, false, inOrder, a[n..], rest)
  {
    hide Decoded;
    var roles := [role] + seq(n - 1, _ => Argument) + rest;
    if n == 2 {
      assert roles[1..][0] == Argument && roles[1..][1..] == rest && a[1..][1..] == a[2..];
      assert FoundIn(optstring, false, inOrder, a[1..], roles[1..]) == FoundIn(optstring, false, inOrder, a[2..], rest);
    } else {
      assert roles[1..] == rest;
    }
  }

  lemma {:induction false} RolesOf(r: Rules, initial: bool, a: seq<string>) returns (roles: seq<Role>)
    requires r.ordering == Permute ==> !HasSelector(r.optstring)
    ensures Divided(r, initial, a, roles)
    decreases |a|
  {
    hide Decoded, TakesNext, WantsNext, Divides, Marked;
    if a == [] {
      roles := [];
      NoneDivided(r, initial);
    } else if a[0] == "--" {
      roles := [End] + seq(|a| - 1, _ => Left);
      DividesEnd(r.optstring, initial, r.ordering == RequireOrder, a, End);
      EndDivided(r, initial, a, End);
    } else if !NonOption(a[0]) {
      ClusterMeans(r.optstring, initial, a[0][1..], NextOf(a));
      var n := if TakesNext(r.optstring, initial, a[0][1..]) && |a| > 1 then 2 else 1;
      roles := RolesOf(r, false, a[n..]);
      DividesMore(r.optstring, initial, r.ordering == RequireOrder, a, n, Options, roles);
      DividedMore(r, initial, a, n, Options, roles);
      roles := [Options] + seq(n - 1, _ => Argument) + roles;
    } else if r.ordering == RequireOrder {
      roles := [Left] + seq(|a| - 1, _ => Left);
      DividesEnd(r.optstring, initial, true, a, Left);
      EndDivided(r, initial, a, Left);
    } else {
      roles := RolesOf(r, initial && r.ordering == Permute, a[1..]);
      if initial && r.ordering == Permute { SameDivided(r, a[1..], roles); }
      DividesMore(r.optstring, initial, false, a, 1, Other, roles);
      OtherDivided(r, initial, a, roles);
      roles := [Other] + seq(0, _ => Argument) + roles;
    }
  }

  lemma NoneDivided(r: Rules, initial: bool)
    ensures Divided(r, initial, [], [])
  {
  }

  /** What a whole scan does to the command line `orig`. A `-` in front of the option string has every other element
      returned in order. A `+`, or the environment, has the scan stop at the first one. Otherwise the other elements are
      moved behind the options, without a change of order within either group. */
  ghost predicate Scanned(optstring: string, posixlyCorrect: bool, orig: seq<string>, argv: seq<string>, optind: nat,
                          found: seq<Found>, roles: seq<Role>) {
    var inOrder := "-" <= optstring;
    var stops := "+" <= optstring || (posixlyCorrect && !inOrder);
    && |argv| == |orig| == |roles| + 1 && 1 <= optind <= |orig|
    && Divides(optstring, true, stops, orig[1..], roles)
    && found == FoundIn(optstring, true, inOrder, orig[1..], roles)
    && (inOrder || stops ==> argv == orig && forall i | 0 <= i < |roles| :: roles[i] == Left <==> i + 1 >= optind)
    && (!inOrder && !stops ==>
          var a, front := orig[1..], InFront(false, roles);
          argv == orig[..1] + Marked(a, front, true) + Marked(a, front, false)
          && argv[optind..] == Marked(a, front, false))
  }

  lemma {:induction false} ScanMeans(optstring: string, posixlyCorrect: bool, orig: seq<string>, argv: seq<string>,
                                     optind: nat, found: seq<Found>) returns (roles: seq<Role>)
    requires Finished(Rules(OrderingOf(optstring, posixlyCorrect), optstring), orig, argv, optind, found)
    ensures Scanned(optstring, posixlyCorrect, orig, argv, optind, found, roles)
  {
    hide Parse, Marked, Divides, FoundIn;
    var r, a := Rules(OrderingOf(optstring, posixlyCorrect), optstring), orig[1..];
    assert ("-" <= optstring <==> optstring != [] && optstring[0] == '-') &&
      ("+" <= optstring <==> optstring != [] && optstring[0] == '+');
    roles := RolesOf(r, true, a);
    var p := Parse(r, true, a);
    assert orig == [orig[0]] + a && orig[..1] == [orig[0]];
    if r.ordering == Permute {
      MarkedLength(a, InFront(false, roles));
      assert argv[1 + |p.options|..] == p.rest;
    } else {
      NotPermuted(r, true, a);
      LeftBehind(optstring, r.ordering == ReturnInOrder, r.ordering == RequireOrder, a, roles);
      assert argv == [orig[0]] + (p.options + p.rest);
    }
  }

  lemma {:induction false} MarkedLength<T>(a: seq<T>, marks: seq<bool>)
    requires |a| == |marks|
    ensures |Marked(a, marks, true)| + |Marked(a, marks, false)| == |a|
  {
    if a != [] {
      MarkedLength(a[1..], marks[1..]);
    }
  }

  function FirstLeft(roles: seq<Role>): (k: nat)
    ensures k <= |roles| && (k < |roles| ==> roles[k] == Left) && forall i | 0 <= i < k :: roles[i] != Left
  {
    if roles == [] || roles[0] == Left then 0 else 1 + FirstLeft(roles[1..])
  }

  /** Unless the elements are permuted, the scan comes to all elements up to where it ends, and to none behind. */
  lemma LeftBehind(optstring: string, inOrder: bool, stops: bool, a: seq<string>, roles: seq<Role>)
    requires Divides(optstring, true, stops, a, roles) && (inOrder || stops)
    ensures var k := |Marked(a, InFront(inOrder, roles), true)|;
      forall i | 0 <= i < |a| :: roles[i] == Left <==> i >= k
  {
    hide Marked, WantsNext;
    var k, front := FirstLeft(roles), InFront(inOrder, roles);
    StaysLeft(optstring, stops, a, roles, |a|);
    forall i | 0 <= i < k ensures front[i] {
      assert RoleAt(optstring, true, stops, a, roles, i);
    }
    AllMarked(a[..k], front[..k], true);
    AllMarked(a[k..], front[k..], false);
    assert a == a[..k] + a[k..] && front == front[..k] + front[k..];
    MarkedAppend(a[..k], front[..k], a[k..], front[k..], true);
  }

  lemma {:induction false} StaysLeft(optstring: string, stops: bool, a: seq<string>, roles: seq<Role>, n: nat)
    requires Divides(optstring, true, stops, a, roles) && n <= |a|
    ensures forall i | FirstLeft(roles) <= i < n :: roles[i] == Left
  {
    hide WantsNext;
    if n > 0 {
      StaysLeft(optstring, stops, a, roles, n - 1);
      assert RoleAt(optstring, true, stops, a, roles, n - 1);
    }
  }

  lemma EndDivided(r: Rules, initial: bool, a: seq<string>, role: Role)
    requires a != [] && (role == Left || role == End)
    requires Divides(r.optstring, initial, r.ordering == RequireOrder, a, [role] + seq(|a| - 1, _ => Left))
    requires role == End ==> a[0] == "--"
    requires role == Left ==> r.ordering == RequireOrder && NonOption(a[0]) && a[0] != "--"
    ensures Divided(r, initial, a, [role] + seq(|a| - 1, _ => Left))
  {
    hide Parse, Divides;
    var roles, inOrder := [role] + seq(|a| - 1, _ => Left), r.ordering == ReturnInOrder;
    if role == End { ParseMark(r, initial, a); }
    ParseNothing(r, initial, a);
    var front := InFront(inOrder, roles);
    AllMarked(a[1..], front[1..], false);
    assert a == a[..1] + a[1..];
    FoundNone(r.optstring, initial, inOrder, a, roles);
  }

  lemma SameDivided(r: Rules, a: seq<string>, roles: seq<Role>)
    requires r.ordering == Permute && !HasSelector(r.optstring) && Divided(r, true, a, roles)
    ensures Divided(r, false, a, roles) && Parse(r, true, a) == Parse(r, false, a)
  {
    hide Parse, Divides;
    SameParse(r, a);
    NoSelector(r.optstring, false, false, a, roles);
  }

  lemma {:induction false} SameParse(r: Rules, a: seq<string>)
    requires r.ordering == Permute && !HasSelector(r.optstring)
    ensures Parse(r, true, a) == Parse(r, false, a)
  {
    hide Decoded, TakesNext, WantsNext;
    if a != [] && a[0] != "--" {
      if NonOption(a[0]) {
        SameParse(r, a[1..]);
      } else {
        SameCluster(r.optstring, a[0][1..], NextOf(a));
        ClusterMeans(r.optstring, true, a[0][1..], NextOf(a));
        ClusterMeans(r.optstring, false, a[0][1..], NextOf(a));
      }
    }
  }

  lemma OtherDivided(r: Rules, initial: bool, a: seq<string>, rest: seq<Role>)
    requires a != [] && NonOption(a[0]) && a[0] != "--" && r.ordering != RequireOrder
    requires r.ordering == Permute && initial ==> Parse(r, true, a[1..]) == Parse(r, false, a[1..])
    requires Divided(r, false, a[1..], rest)
    requires Divides(r.optstring, initial, false, a, [Other] + seq(0, _ => Argument) + rest)
    ensures Divided(r, initial, a, [Other] + seq(0, _ => Argument) + rest)
  {
    hide Parse, Divided, Divides;
    if r.ordering == Permute {
      ParseSkip(r, initial, a);
    } else {
      ParseReturned(r, initial, a);
    }
    DividedMore(r, initial, a, 1, Other, rest);
  }

  // ---- The scanner ----

  /** The stretches of length `len` at `i` and `j` have changed places. */
  ghost function Swapped<T>(a: seq<T>, i: nat, j: nat, len: nat): (r: seq<T>)
    requires i + len <= j && j + len <= |a|
    ensures |r| == |a|
  {
    seq(|a|, m requires 0 <= m < |a| => if i <= m < i + len then a[m - i + j]
        else if j <= m < j + len then a[m - j + i] else a[m])
  }

  lemma NoneSwapped<T>(a: seq<T>, i: nat, j: nat)
    requires i <= j <= |a|
    ensures Swapped(a, i, j, 0) == a
  {
  }

  lemma SwapOne<T>(a: seq<T>, i: nat, j: nat, k: nat)
    requires i + k < j && j + k < |a|
    ensures var s := Swapped(a, i, j, k);
      s[i + k := s[j + k]][j + k := s[i + k]] == Swapped(a, i, j, k + 1)
  {
  }

  /** Swapping the lower block with the far end of the upper one puts it into place. */
  lemma LowBlockDone<T>(a: seq<T>, bottom: nat, middle: nat, top: nat)
    requires bottom < middle < top <= |a| && top - middle > middle - bottom
    ensures var j := top - (middle - bottom);
      Rotated(Swapped(a, bottom, j, middle - bottom), bottom, middle, j) == Rotated(a, bottom, middle, top)
  {
    hide Swapped;
    var j := top - (middle - bottom);
    var s := Swapped(a, bottom, j, middle - bottom);
    SwappedParts(a, bottom, j, middle - bottom);
    assert s[middle..j] == s[bottom + (middle - bottom)..j] == a[middle..j];
    assert a[middle..top] == a[middle..j] + a[j..top];
    assert s[j..] == s[j..top] + s[top..];
  }

  lemma NothingToRotate<T>(a: seq<T>, bottom: nat, middle: nat, top: nat)
    requires bottom <= middle <= top <= |a| && (bottom == middle || middle == top)
    ensures Rotated(a, bottom, middle, top) == a
  {
  }

  lemma HighBlockDone<T>(a: seq<T>, bottom: nat, middle: nat, top: nat)
    requires bottom < middle < top <= |a| && top - middle <= middle - bottom
    ensures var i := bottom + (top - middle);
      Rotated(Swapped(a, bottom, middle, top - middle), i, middle, top) == Rotated(a, bottom, middle, top)
  {
    hide Swapped;
    var i := bottom + (top - middle);
    var s := Swapped(a, bottom, middle, top - middle);
    SwappedParts(a, bottom, middle, top - middle);
    assert s[..i] == s[..bottom] + s[bottom..i];
    assert a[bottom..middle] == a[bottom..i] + a[i..middle];
  }

  lemma SwappedParts<T>(a: seq<T>, i: nat, j: nat, len: nat)
    requires i + len <= j && j + len <= |a|
    ensures var s := Swapped(a, i, j, len);
      && s[..i] == a[..i] && s[i..i + len] == a[j..j + len] && s[i + len..j] == a[i + len..j]
      && s[j..j + len] == a[i..i + len] && s[j + len..] == a[j + len..]
  {
  }

  datatype Advanced = AtEnd | AtElement | AtCluster

  class Getopt {
    const argv: array<string>
    const optstring: string
    const posixlyCorrect: bool
    var optind: nat
    var firstNonopt: nat
    var lastNonopt: nat
    /** The option characters that are left of the current element; none, or NULL, if empty. */
    var nextchar: string
    var ordering: Ordering
    var initialized: bool
    var optarg: Option<string>
    var optopt: char

    constructor (argv: array<string>, optstring: string, posixlyCorrect: bool)
      ensures this.argv == argv && this.optstring == optstring && this.posixlyCorrect == posixlyCorrect
      ensures Ready(argv[..], [])
    {
      this.argv, this.optstring, this.posixlyCorrect := argv, optstring, posixlyCorrect;
      optind, firstNonopt, lastNonopt, nextchar, ordering, initialized := 1, 0, 0, [], RequireOrder, false;
      optarg, optopt := None, '?';
    }

    function Mode(): Rules {
      Rules(OrderingOf(optstring, posixlyCorrect), optstring)
    }

    ghost function State(): Scan
      reads this, argv
    {
      Scan(argv[..], firstNonopt, lastNonopt, optind, nextchar)
    }

    /** Between two calls: `found` has been returned so far of the command line `orig`. */
    ghost predicate Ready(orig: seq<string>, found: seq<Found>)
      reads this, argv
    {
      if initialized && optind != 0 then ordering == Mode().ordering && Scanning(Mode(), orig, State(), false, found)
      else argv[..] == orig && found == [] && (optind == 0 || (optind == 1 && nextchar == []))
    }

    method SwapBlocks(i: nat, j: nat, len: nat)
      requires i + len <= j && j + len <= argv.Length
      modifies argv
      ensures argv[..] == Swapped(old(argv[..]), i, j, len)
    {
      hide Swapped;
      ghost var a := argv[..];
      NoneSwapped(a, i, j);
      for k := 0 to len
        invariant argv[..] == Swapped(a, i, j, k)
      {
        SwapOne(a, i, j, k);
        argv[i + k], argv[j + k] := argv[j + k], argv[i + k];
      }
    }

    /** Two adjacent stretches of elements change places; nothing else moves. */
    method Exchange()
      requires firstNonopt <= lastNonopt <= optind <= argv.Length
      modifies argv, this`firstNonopt, this`lastNonopt
      ensures argv[..] == old(Rotated(argv[..], firstNonopt, lastNonopt, optind))
      ensures firstNonopt == old(firstNonopt) + (optind - old(lastNonopt)) && lastNonopt == optind
    {
      hide Swapped, Rotated;
      var bottom: nat, middle: nat, top: nat := firstNonopt, lastNonopt, optind;
      ghost var goal := Rotated(argv[..], bottom, middle, top);
      while bottom < middle < top
        invariant bottom <= middle <= top <= argv.Length
        invariant firstNonopt == old(firstNonopt) && lastNonopt == old(lastNonopt)
        invariant Rotated(argv[..], bottom, middle, top) == goal
        decreases top - bottom
      {
        ghost var a := argv[..];
        if top - middle > middle - bottom {
          var len := middle - bottom;
          SwapBlocks(bottom, top - len, len);
          LowBlockDone(a, bottom, middle, top);
          top := top - len;
        } else {
          var len := top - middle;
          SwapBlocks(bottom, middle, len);
          HighBlockDone(a, bottom, middle, top);
          bottom := bottom + len;
        }
      }
      NothingToRotate(argv[..], bottom, middle, top);
      firstNonopt := firstNonopt + (optind - lastNonopt);
      lastNonopt := optind;
    }

    method Initialize() returns (options: string)
      modifies this`firstNonopt, this`lastNonopt, this`nextchar, this`ordering
      ensures firstNonopt == lastNonopt == optind && nextchar == []
      ensures ordering == Mode().ordering && options == OptionsOf(optstring, true)
    {
      firstNonopt, lastNonopt, nextchar := optind, optind, [];
      options := optstring;
      if options != [] && options[0] == '-' {
        ordering := ReturnInOrder;
        options := options[1..];
      } else if options != [] && options[0] == '+' {
        ordering := RequireOrder;
        options := options[1..];
      } else if posixlyCorrect {
        ordering := RequireOrder;
      } else {
        ordering := Permute;
      }
    }

    /** Goes to the next element: to an option that is to be decoded, a non-option that is returned, or the end. */
    method Advance(ghost orig: seq<string>, ghost initial: bool, ghost found: seq<Found>) returns (r: Advanced)
      requires nextchar == [] && ordering == Mode().ordering && Scanning(Mode(), orig, State(), initial, found)
      modifies argv, this`firstNonopt, this`lastNonopt, this`optind, this`nextchar, this`optarg
      ensures r == AtEnd ==> Finished(Mode(), orig, argv[..], optind, found)
      ensures r == AtElement ==>
        Scanning(Mode(), orig, State(), false, found + [Found(IN_ORDER, optarg)]) && optind > old(optind)
      ensures r == AtCluster ==>
        Scanning(Mode(), orig, State(), initial, found) && nextchar != [] && optind >= old(optind)
      ensures r == AtCluster ==> optarg == old(optarg)
    {
      hide Scanning, Finished, Rotated;
      InBounds(orig, initial, found);
      lastNonopt, firstNonopt := Min(lastNonopt, optind), Min(firstNonopt, optind);
      if ordering == Permute {
        SkipNonOptions(orig, initial, found);
      }
      InBounds(orig, initial, found);
      if optind != argv.Length && argv[optind] == "--" {
        EndMark(Mode(), orig, State(), initial, found);
        optind := optind + 1;
        if firstNonopt != lastNonopt && lastNonopt != optind {
          Exchange();
        } else if firstNonopt == lastNonopt {
          firstNonopt := optind;
        }
        lastNonopt := argv.Length;
        optind := argv.Length;
        if firstNonopt != lastNonopt {
          optind := firstNonopt;
        }
        return AtEnd;
      }
      if optind == argv.Length {
        NothingLeft(Mode(), orig, State(), initial, found);
        if firstNonopt != lastNonopt {
          optind := firstNonopt;
        }
        return AtEnd;
      }
      if NonOption(argv[optind]) {
        if ordering == RequireOrder {
          StopAtNonOption(Mode(), orig, State(), initial, found);
          return AtEnd;
        }
        ReturnElement(Mode(), orig, State(), initial, found);
        optarg := Some(argv[optind]);
        optind := optind + 1;
        return AtElement;
      }
      OpenCluster(Mode(), orig, State(), initial, found);
      nextchar := argv[optind][1..];
      r := AtCluster;
    }

    /** When permuting: moves the options just processed before the skipped elements, and skips more of those. */
    method SkipNonOptions(ghost orig: seq<string>, ghost initial: bool, ghost found: seq<Found>)
      requires nextchar == [] && ordering == Mode().ordering == Permute
      requires Scanning(Mode(), orig, State(), initial, found)
      modifies argv, this`firstNonopt, this`lastNonopt, this`optind
      ensures Scanning(Mode(), orig, State(), initial, found) && lastNonopt == optind >= old(optind)
      ensures optind < argv.Length ==> !NonOption(argv[optind])
    {
      hide Scanning, Rotated;
      InBounds(orig, initial, found);
      if firstNonopt != lastNonopt && lastNonopt != optind {
        ExchangeStep(Mode(), orig, State(), initial, found);
        Exchange();
      } else if lastNonopt != optind {
        NoneSkipped(Mode(), orig, State(), initial, found);
        firstNonopt := optind;
      }
      ghost var skipped := State().(last := optind);
      while optind < argv.Length && NonOption(argv[optind])
        invariant old(optind) <= optind <= argv.Length
        invariant Scanning(Mode(), orig, State().(last := optind), initial, found)
      {
        SkipStep(Mode(), orig, State().(last := optind), initial, found);
        optind := optind + 1;
      }
      lastNonopt := optind;
    }

    lemma InBounds(orig: seq<string>, initial: bool, found: seq<Found>)
      requires Scanning(Mode(), orig, State(), initial, found)
      ensures 1 <= firstNonopt <= lastNonopt <= optind <= argv.Length && (nextchar != [] ==> optind < argv.Length)
      ensures ordering == Mode().ordering && ordering != Permute ==> firstNonopt == lastNonopt
    {
    }

    /** Decodes one option character. */
    method ShortOption(options: string, ghost orig: seq<string>, ghost initial: bool,
                       ghost found: seq<Found>) returns (c: char)
      requires nextchar != [] && options == OptionsOf(optstring, initial) && optarg == None
      requires Scanning(Mode(), orig, State(), initial, found)
      modifies this`optind, this`nextchar, this`optarg, this`optopt
      ensures Scanning(Mode(), orig, State(), false, found + [Found(c, optarg)])
      ensures optind > old(optind) || (optind == old(optind) && nextchar != [] && |nextchar| < |old(nextchar)|)
    {
      hide Scanning;
      InBounds(orig, initial, found);
      ClusterStep(Mode(), orig, State(), initial, found);
      assert argv[..][optind..][0] == argv[optind];
      c := nextchar[0];
      var kind := KindOf(options, c);
      nextchar := nextchar[1..];
      if nextchar == [] {
        optind := optind + 1;
      }
      match kind {
        case Unknown =>
          optopt := c;
          c := '?';
        case Plain =>
        case Optional =>
          if nextchar != [] {
            optarg := Some(nextchar);
            optind := optind + 1;
          }
          nextchar := [];
        case Required =>
          if nextchar != [] {
            optarg := Some(nextchar);
            optind := optind + 1;
          } else if optind == argv.Length {
            optopt := c;
            c := if options[0] == ':' then ':' else '?';
          } else {
            optarg := Some(argv[optind]);
            optind := optind + 1;
          }
          nextchar := [];
      }
    }

    /** The next option, as its character (`?` or `:` for a wrong one) with `optarg`, or None at the end; then the
        command line has the options first and `optind` is the index of the first other element. */
    method GetOpt(ghost orig: seq<string>, ghost found: seq<Found>) returns (r: Option<char>)
      requires argv.Length > 0 && Ready(orig, found)
      modifies this, argv
      ensures r == None ==> Finished(Mode(), orig, argv[..], optind, found)
      ensures r.Some? ==> Ready(orig, found + [Found(r.value, optarg)]) && initialized && optind > 0
      ensures r.Some? && optind <= old(optind) ==>
        optind == old(optind) && nextchar != [] && (old(nextchar) == [] || |nextchar| < |old(nextchar)|)
    {
      hide Scanning, Finished, FirstOption;
      assert !initialized || optind == 0 ==> |orig| == argv.Length;
      if initialized && optind != 0 {
        InBounds(orig, false, found);
      }
      optarg := None;
      var options := optstring;
      ghost var initial := optind == 0 || !initialized;
      if optind == 0 || !initialized {
        if optind == 0 {
          optind := 1;
        }
        options := Initialize();
        initialized := true;
        Start(Mode(), orig);
      }
      assert Scanning(Mode(), orig, State(), initial, found) && optind >= 1;
      if nextchar == [] {
        var a := Advance(orig, initial, found);
        match a {
          case AtEnd => return None;
          case AtElement => return Some(IN_ORDER);
          case AtCluster =>
        }
      }
      var c := ShortOption(options, orig, initial, found);
      r := Some(c);
    }

    /** The loop of a caller: getopt is called until it returns -1. */
    method ScanAll() returns (found: seq<Found>, ghost roles: seq<Role>)
      requires argv.Length > 0 && (optind == 0 || (!initialized && optind == 1 && nextchar == []))
      modifies this, argv
      ensures Finished(Mode(), old(argv[..]), argv[..], optind, found)
      ensures Scanned(optstring, posixlyCorrect, old(argv[..]), argv[..], optind, found, roles)
    {
      hide Scanning, Finished, Scanned;
      ghost var orig := argv[..];
      found := [];
      var c := GetOpt(orig, found);
      while c.Some?
        invariant c.Some? ==> Ready(orig, found + [Found(c.value, optarg)]) && initialized && optind > 0
        invariant c == None ==> Finished(Mode(), orig, argv[..], optind, found)
        decreases c.Some?, argv.Length - optind, nextchar == [], |nextchar|
      {
        found := found + [Found(c.value, optarg)];
        InBounds(orig, false, found);
        c := GetOpt(orig, found);
        if c.Some? {
          InBounds(orig, false, found + [Found(c.value, optarg)]);
        }
      }
      roles := ScanMeans(optstring, posixlyCorrect, orig, argv[..], optind, found);
    }
  }

  // ---- Main results ----

  /** When a whole scan in the permuting order is over, the command line is the stable partition of the original one,
      and the scan found what the original one means. */
  lemma PermutedScan(optstring: string, orig: seq<string>, argv: seq<string>, optind: nat,
                     found: seq<Found>) returns (marks: seq<bool>)
    requires Finished(Rules(Permute, optstring), orig, argv, optind, found)
    ensures |marks| == |orig| - 1 && 1 <= optind <= |argv|
    ensures argv == orig[..1] + Marked(orig[1..], marks, true) + Marked(orig[1..], marks, false)
    ensures argv[optind..] == Marked(orig[1..], marks, false)
  {
    hide Parse, Marked;
    marks := StablePartition(Rules(Permute, optstring), true, orig[1..]);
    assert orig[..1] == [orig[0]];
  }

  /** In the other orders nothing is moved. */
  lemma {:induction false} NotPermuted(r: Rules, initial: bool, a: seq<string>)
    requires r.ordering != Permute
    ensures Parse(r, initial, a).options + Parse(r, initial, a).rest == a
    decreases |a|
  {
    hide Decoded, TakesNext, NonOption, Parse;
    var (n, isOption, over) := Leading(r, initial, a);
    if !over {
      LeadingParse(r, initial, a);
      NotPermuted(r, false, a[n..]);
      var q := Parse(r, false, a[n..]);
      assert a[..n] + q.options + ([] + q.rest) == a[..n] + (q.options + q.rest);
    }
    assert a == a[..n] + a[n..];
  }

  // ---- The character that selects the ordering ----

  ghost predicate HasSelector(optstring: string) {
    optstring != [] && (optstring[0] == '-' || optstring[0] == '+')
  }

  /** Whether a call after the first one reads option character `c` wrongly, because it takes the selecting character
      for the first option character. `more` is the rest of the cluster, and `next` the next element. */
  ghost predicate Misread(optstring: string, c: char, more: string, next: Option<string>)
    requires HasSelector(optstring)
  {
    var meant, read := KindOf(optstring[1..], c), KindOf(optstring, c);
    if c == optstring[0] then
      match meant
      case Unknown => read != Required || more != [] || next != None
      case Plain => read == Required || (read == Optional && more != [])
      case Optional => (read == Plain && more != []) || (read == Required && more == [])
      case Required => read == Plain || (more == [] && (read == Optional || next == None))
    else
      // a missing argument is not reported as the `:` in front of the options asks for
      meant == Required && more == [] && next == None && optstring[1] == ':'
  }

  /** Whether a character of a cluster is read wrongly. */
  ghost predicate MisreadIn(optstring: string, initial: bool, cluster: string, next: Option<string>)
    requires HasSelector(optstring)
  {
    cluster != [] &&
    var c, more := cluster[0], cluster[1..];
    || (!initial && Misread(optstring, c, more, next))
    || (KindOf(optstring[1..], c) in {Unknown, Plain} && MisreadIn(optstring, false, more, next))
  }

  /** Whether any character of a command line is read wrongly. */
  ghost predicate MisreadLater(ordering: Ordering, optstring: string, initial: bool, a: seq<string>)
    requires HasSelector(optstring)
    decreases |a|
  {
    a != [] && a[0] != "--" &&
    if NonOption(a[0]) then
      match ordering
      case RequireOrder => false
      case Permute => MisreadLater(ordering, optstring, initial, a[1..])
      case ReturnInOrder => MisreadLater(ordering, optstring, false, a[1..])
    else
      var next := if |a| > 1 then Some(a[1]) else None;
      var n := if TakesNext(optstring[1..], false, a[0][1..]) && |a| > 1 then 2 else 1;
      MisreadIn(optstring, initial, a[0][1..], next) || MisreadLater(ordering, optstring, false, a[n..])
  }

  /** Two lists have different elements at some position. */
  ghost predicate Differ<T>(s: seq<T>, t: seq<T>) {
    exists k :: 0 <= k < |s| && k < |t| && s[k] != t[k]
  }

  lemma DifferHead<T>(x: T, s: seq<T>, y: T, t: seq<T>)
    requires x != y
    ensures Differ([x] + s, [y] + t)
  {
    assert ([x] + s)[0] != ([y] + t)[0];
  }

  lemma DifferAfter<T>(p: seq<T>, s: seq<T>, t: seq<T>)
    requires Differ(s, t)
    ensures Differ(p + s, p + t)
  {
    var k :| 0 <= k < |s| && k < |t| && s[k] != t[k];
    assert (p + s)[|p| + k] != (p + t)[|p| + k];
  }

  lemma DifferMore<T>(s: seq<T>, u: seq<T>, t: seq<T>, v: seq<T>)
    requires Differ(s, t)
    ensures Differ(s + u, t + v)
  {
    var k :| 0 <= k < |s| && k < |t| && s[k] != t[k];
    assert (s + u)[k] != (t + v)[k];
  }

  /** All other characters are what they would be without the selecting one. */
  lemma KindsAgree(optstring: string, c: char)
    requires HasSelector(optstring) && c != optstring[0]
    ensures KindOf(optstring, c) == KindOf(optstring[1..], c)
  {
    assert IndexOf(optstring, c) == 1 + IndexOf(optstring[1..], c);
  }

  lemma KindOfSelector(optstring: string)
    requires HasSelector(optstring)
    ensures KindOf(optstring, optstring[0]) == if |optstring| > 1 && optstring[1] == ':' then
        (if |optstring| > 2 && optstring[2] == ':' then Optional else Required) else Plain
  {
    assert IndexOf(optstring, optstring[0]) == 0;
  }

  /** A required argument that is missing is of a character that is listed. */
  lemma Listed(options: string, c: char)
    requires KindOf(options, c) != Unknown
    ensures options != []
  {
  }

  /** One cluster: it is read as meant exactly if no character is misread, and otherwise something else is found. */
  lemma {:induction false} ClusterRead(optstring: string, initial: bool, cluster: string, next: Option<string>)
    requires HasSelector(optstring)
    ensures !MisreadIn(optstring, initial, cluster, next) ==>
      && Decoded(optstring, initial, cluster, next) == Decoded(optstring[1..], false, cluster, next)
      && (next != None ==> TakesNext(optstring, initial, cluster) == TakesNext(optstring[1..], false, cluster))
    ensures MisreadIn(optstring, initial, cluster, next) ==>
      Differ(Decoded(optstring, initial, cluster, next), Decoded(optstring[1..], false, cluster, next))
    decreases |cluster|
  {
    if cluster != [] {
      hide IndexOf, KindOf, Differ;
      var c, more, tail := cluster[0], cluster[1..], optstring[1..];
      ClusterRead(optstring, false, more, next);
      KindOfSelector(optstring);
      if c != optstring[0] { KindsAgree(optstring, c); }
      if KindOf(tail, c) != Unknown { Listed(tail, c); }
      if !initial && Misread(optstring, c, more, next) {
        MisreadHead(optstring, c, more, next);
      } else if KindOf(tail, c) in {Unknown, Plain} && MisreadIn(optstring, false, more, next) {
        MisreadTail(optstring, initial, c, more, next);
      }
    }
  }

  lemma MisreadHead(optstring: string, c: char, more: string, next: Option<string>)
    requires HasSelector(optstring) && Misread(optstring, c, more, next)
    ensures Differ(Decoded(optstring, false, [c] + more, next), Decoded(optstring[1..], false, [c] + more, next))
  {
    hide IndexOf, KindOf, Differ;
    var cluster, tail := [c] + more, optstring[1..];
    assert cluster[0] == c && cluster[1..] == more;
    KindOfSelector(optstring);
    if c != optstring[0] { KindsAgree(optstring, c); }
    if KindOf(tail, c) != Unknown { Listed(tail, c); }
    var d, d' := Decoded(optstring, false, cluster, next), Decoded(tail, false, cluster, next);
    assert d != [] && d' != [] && d[0] != d'[0];
    DifferHead(d[0], d[1..], d'[0], d'[1..]);
    assert [d[0]] + d[1..] == d && [d'[0]] + d'[1..] == d';
  }

  lemma MisreadTail(optstring: string, initial: bool, c: char, more: string, next: Option<string>)
    requires HasSelector(optstring) && KindOf(optstring[1..], c) in {Unknown, Plain}
    requires Differ(Decoded(optstring, false, more, next), Decoded(optstring[1..], false, more, next))
    ensures Differ(Decoded(optstring, initial, [c] + more, next), Decoded(optstring[1..], false, [c] + more, next))
  {
    hide IndexOf, KindOf, Differ;
    var cluster, tail := [c] + more, optstring[1..];
    assert cluster[0] == c && cluster[1..] == more;
    var e, e' := Decoded(optstring, false, more, next), Decoded(tail, false, more, next);
    KindOfSelector(optstring);
    if c != optstring[0] { KindsAgree(optstring, c); }
    if !initial && Misread(optstring, c, more, next) {
      MisreadHead(optstring, c, more, next);
    } else {
      var x := if KindOf(tail, c) == Unknown then Found('?', None) else Found(c, None);
      DifferAfter([x], e, e');
    }
  }

  /** Later calls of getopt take the selecting character for an option character. Any scan with an option string that
      begins with one finds what is meant, and sorts the command line as is meant, if and only if no character is
      misread. */
  lemma {:induction false} SelectorMatters(ordering: Ordering, optstring: string, initial: bool, a: seq<string>)
    requires HasSelector(optstring)
    ensures var read, meant := Parse(Rules(ordering, optstring), initial,
                                     a), Parse(Rules(ordering, optstring[1..]), false, a);
      && (MisreadLater(ordering, optstring, initial, a) ==> Differ(read.found, meant.found))
      && (!MisreadLater(ordering, optstring, initial, a) ==> read == meant)
    decreases |a|
  {
    hide Decoded, TakesNext, MisreadIn, NonOption, Differ;
    var r, r' := Rules(ordering, optstring), Rules(ordering, optstring[1..]);
    if a != [] && a[0] != "--" {
      if NonOption(a[0]) {
        if ordering == Permute {
          SelectorMatters(ordering, optstring, initial, a[1..]);
        } else if ordering == ReturnInOrder {
          SelectorMatters(ordering, optstring, false, a[1..]);
          if MisreadLater(ordering, optstring, false, a[1..]) {
            DifferAfter([Found(IN_ORDER, Some(a[0]))], Parse(r, false, a[1..]).found, Parse(r', false, a[1..]).found);
          }
        }
      } else {
        ElementMatters(ordering, optstring, initial, a);
      }
    }
  }

  lemma {:induction false} ElementMatters(ordering: Ordering, optstring: string, initial: bool, a: seq<string>)
    requires HasSelector(optstring) && a != [] && a[0] != "--" && !NonOption(a[0])
    ensures var read, meant := Parse(Rules(ordering, optstring), initial,
                                     a), Parse(Rules(ordering, optstring[1..]), false, a);
      && (MisreadLater(ordering, optstring, initial, a) ==> Differ(read.found, meant.found))
      && (!MisreadLater(ordering, optstring, initial, a) ==> read == meant)
    decreases |a|, 0
  {
    hide Decoded, TakesNext, MisreadIn, Differ;
    var r, r', cluster := Rules(ordering, optstring), Rules(ordering, optstring[1..]), a[0][1..];
    var next := if |a| > 1 then Some(a[1]) else None;
    ClusterRead(optstring, initial, cluster, next);
    var d, d' := Decoded(optstring, initial, cluster, next), Decoded(optstring[1..], false, cluster, next);
    var n := if TakesNext(optstring, initial, cluster) && |a| > 1 then 2 else 1;
    var n' := if TakesNext(optstring[1..], false, cluster) && |a| > 1 then 2 else 1;
    SelectorMatters(ordering, optstring, false, a[n'..]);
    if MisreadIn(optstring, initial, cluster, next) {
      DifferMore(d, Parse(r, false, a[n..]).found, d', Parse(r', false, a[n'..]).found);
    } else if MisreadLater(ordering, optstring, false, a[n'..]) {
      DifferAfter(d, Parse(r, false, a[n'..]).found, Parse(r', false, a[n'..]).found);
    }
  }

  /** So what a scan finds is what is meant exactly if no character is misread. */
  lemma SelectorHarmless(ordering: Ordering, optstring: string, a: seq<string>)
    requires HasSelector(optstring)
    ensures Parse(Rules(ordering, optstring), true, a).found == Parse(Rules(ordering, optstring[1..]), false, a).found
        <==> !MisreadLater(ordering, optstring, true, a)
  {
    hide Parse, MisreadLater;
    SelectorMatters(ordering, optstring, true, a);
  }

  /** The first failure: the selecting character is taken for an option, but not by the first call. */
  lemma SelectorIsOption()
    ensures Parse(Rules(ReturnInOrder, "-a"), true, ["-a", "--a"]).found
         == [Found('a', None), Found('-', None), Found('a', None)]
    ensures Parse(Rules(ReturnInOrder, "-a"), true, ["--a", "-a"]).found
         == [Found('?', None), Found('a', None), Found('a', None)]
  {
  }

  /** The second failure: a `:` after the selecting character asks for `:` when an argument is missing, but only the
      first call gives that answer. */
  lemma ColonIsLost()
    ensures Parse(Rules(ReturnInOrder, "-:ab:"), true, ["-b"]).found == [Found(':', None)]
    ensures Parse(Rules(ReturnInOrder, "-:ab:"), true, ["-a", "-b"]).found == [Found('a', None), Found('?', None)]
  {
    assert KindOf(":ab:", 'b') == Required && KindOf("-:ab:", 'b') == Required;
    assert KindOf(":ab:", 'a') == Plain;
    var r, a := Rules(ReturnInOrder, "-:ab:"), ["-a", "-b"];
    assert a[1..] == ["-b"];
    assert Decoded("-:ab:", true, "a", Some("-b")) == [Found('a', None)];
    assert Decoded("-:ab:", false, "b", None) == [Found('?', None)];
    assert ParseCluster(r, false, "b", a[1..]).found == [Found('?', None)];
  }
}
