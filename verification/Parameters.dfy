/** The `-p` argument: keys with lists of values, split by a pattern and stored in a dictionary. */
module Parameters {
  import opened Decimal
  import opened Text

  predicate IsDelimiter(c: char) {
    c == ',' || c == '='
  }

  /** The end of the longest run without a delimiter. */
  function RunEnd(s: string, from: nat): (n: nat)
    requires from <= |s|
    ensures from <= n <= |s|
    ensures forall i :: from <= i < n ==> !IsDelimiter(s[i])
    ensures n < |s| ==> IsDelimiter(s[n])
    decreases |s| - from
  {
    if from == |s| || IsDelimiter(s[from]) then from else RunEnd(s, from + 1)
  }

  function KeyStart(s: string, i: nat): (b: nat)
    requires i <= |s|
    ensures i <= b <= |s|
  {
    if i < |s| && s[i] == ',' then i + 1 else i
  }

  function KeyEnd(s: string, i: nat): (e: nat)
    requires i <= |s|
    ensures i <= e <= |s|
  {
    RunEnd(s, KeyStart(s, i))
  }

  /** The pattern "[,]?([^,=]+)=" matches at `i`. */
  predicate MatchAt(s: string, i: nat)
    requires i <= |s|
  {
    KeyStart(s, i) < KeyEnd(s, i) < |s| && s[KeyEnd(s, i)] == '='
  }

  /** The pattern written out: an optional comma, a key without commas and equals signs, and an
      equals sign. */
  lemma {:induction false} MatchAtIff(s: string, i: nat)
    requires i <= |s|
    ensures MatchAt(s, i) <==> exists b: nat, e: nat ::
              i <= b < e < |s| && (b == i || (b == i + 1 && s[i] == ',')) && s[e] == '=' && IsKey(s[b..e])
  {
    if MatchAt(s, i) {
      assert IsKey(s[KeyStart(s, i)..KeyEnd(s, i)]);
    }
    forall b: nat, e: nat |
      i <= b < e < |s| && (b == i || (b == i + 1 && s[i] == ',')) && s[e] == '=' && IsKey(s[b..e])
      ensures MatchAt(s, i)
    {
      assert s[b..e][0] == s[b];
      assert forall k :: b <= k < e ==> s[k] == s[b..e][k - b];
      RunEndIs(s, b, e);
    }
  }

  predicate IsKey(key: string) {
    key != "" && forall i :: 0 <= i < |key| ==> key[i] != ',' && key[i] != '='
  }

  /** The first match, or the length of the text. */
  function FirstMatch(s: string, from: nat): (m: nat)
    requires from <= |s|
    ensures from <= m <= |s| && forall i :: from <= i < m ==> !MatchAt(s, i)
    ensures m < |s| ==> MatchAt(s, m)
    decreases |s| - from
  {
    if from == |s| || MatchAt(s, from) then from else FirstMatch(s, from + 1)
  }

  datatype Pair = Pair(key: string, text: string)

  /** The text after the first key. */
  function AfterKey(s: string): (rest: string)
    requires FirstMatch(s, 0) < |s|
    ensures |rest| < |s|
  {
    s[KeyEnd(s, FirstMatch(s, 0)) + 1..]
  }

  /** The first key, with the text up to the next match. */
  function FirstPair(s: string): Pair
    requires FirstMatch(s, 0) < |s|
  {
    var m, rest := FirstMatch(s, 0), AfterKey(s);
    Pair(Strip(s[KeyStart(s, m)..KeyEnd(s, m)]), Strip(rest[..FirstMatch(rest, 0)]))
  }

  /** The groups of the matches, each with the text up to the next match; what is before the first
      match is dropped. */
  function Pairs(s: string): seq<Pair>
    decreases |s|
  {
    if FirstMatch(s, 0) == |s| then [] else [FirstPair(s)] + Pairs(AfterKey(s))
  }

  predicate PairTrimmed(p: Pair) {
    Trimmed(p.key) && Trimmed(p.text)
  }

  lemma {:induction false} FirstPairTrimmed(s: string)
    requires FirstMatch(s, 0) < |s|
    ensures PairTrimmed(FirstPair(s))
  {
    var m, rest := FirstMatch(s, 0), AfterKey(s);
    var _, _ := StripIs(s[KeyStart(s, m)..KeyEnd(s, m)]);
    var _, _ := StripIs(rest[..FirstMatch(rest, 0)]);
  }

  predicate AllTrimmed(pairs: seq<Pair>) {
    forall i :: 0 <= i < |pairs| ==> PairTrimmed(pairs[i])
  }

  lemma {:induction false} OneMoreTrimmed(p: Pair, more: seq<Pair>)
    requires PairTrimmed(p) && AllTrimmed(more)
    ensures AllTrimmed([p] + more)
  {
  }

  /** Whatever the argument, no key and no text of values has white space at its ends. */
  lemma {:induction false} PairsAreTrimmed(s: string)
    ensures AllTrimmed(Pairs(s))
    decreases |s|
  {
    if FirstMatch(s, 0) < |s| {
      PairsAreTrimmed(AfterKey(s));
      FirstPairTrimmed(s);
      OneMoreTrimmed(FirstPair(s), Pairs(AfterKey(s)));
    }
  }

  /** A later pair replaces an earlier one with its key. */
  function Dict(pairs: seq<Pair>): map<string, string> {
    if pairs == [] then map[]
    else
      var last := pairs[|pairs| - 1];
      Dict(pairs[..|pairs| - 1])[last.key := last.text]
  }

  datatype Value = One(item: string) | Many(items: seq<string>) | Numbers(numbers: seq<nat>)

  function StripAll(pieces: seq<string>): (r: seq<string>)
    ensures |r| == |pieces| && forall i :: 0 <= i < |r| ==> r[i] == Strip(pieces[i])
  {
    seq(|pieces|, i requires 0 <= i < |pieces| => Strip(pieces[i]))
  }

  function ValueOf(text: string): Value {
    var items := StripAll(Split(text, ','));
    if |items| > 1 then Many(items) else One(items[0])
  }

  /** Nor has any item of a value: one without commas, several with them. */
  lemma {:induction false} ItemsAreTrimmed(text: string)
    ensures var v := ValueOf(text);
      && (v.One? <==> ',' !in text) && (v.Many? <==> ',' in text)
      && (v.One? ==> Trimmed(v.item))
      && (v.Many? ==> |v.items| >= 2 && forall i :: 0 <= i < |v.items| ==> Trimmed(v.items[i]))
  {
    var pieces := Split(text, ',');
    SplitOnce(text, ',');
    forall i | 0 <= i < |pieces| ensures Trimmed(Strip(pieces[i])) {
      var _, _ := StripIs(pieces[i]);
    }
  }

  // ----- vbucket ranges

  const VBUCKETS := "vbuckets"

  predicate Within(n: nat, lo: nat, hi: nat) {
    lo <= n < hi + 1
  }

  /** `range(lo, hi + 1)`. */
  function Range(lo: nat, hi: nat): set<nat> {
    set n: nat | n < hi + 1 && Within(n, lo, hi)
  }

  /** The numbers before the first and after the last dash. */
  function BoundsIn(piece: string): (Option<nat>, Option<nat>) {
    var r := Split(piece, '-');
    (Parse(Strip(r[0])), Parse(Strip(r[|r| - 1])))
  }

  /** The union of the inclusive ranges; `int` raises on what is no number. */
  function Buckets(pieces: seq<string>): Option<set<nat>> {
    if pieces == [] then Some({})
    else
      var before := Buckets(pieces[..|pieces| - 1]);
      var (lo, hi) := BoundsIn(pieces[|pieces| - 1]);
      if before.None? || lo.None? || hi.None? then None else Some(before.value + Range(lo.value, hi.value))
  }

  /** A piece between dashes is bounded by its first and its last number. */
  lemma {:induction false} BoundsOfJoin(parts: seq<string>)
    requires |parts| >= 1 && forall i :: 0 <= i < |parts| ==> '-' !in parts[i]
    ensures BoundsIn(Join(parts, '-')) == (Parse(Strip(parts[0])), Parse(Strip(parts[|parts| - 1])))
  {
    SplitJoin(parts, '-');
  }

  /** Some piece has a bound that is no number. */
  ghost predicate SomeBad(pieces: seq<string>) {
    exists i :: 0 <= i < |pieces| && (BoundsIn(pieces[i]).0.None? || BoundsIn(pieces[i]).1.None?)
  }

  /** The number is in the inclusive range of some piece. */
  ghost predicate InPiece(n: nat, pieces: seq<string>)
    requires !SomeBad(pieces)
  {
    exists i :: 0 <= i < |pieces| && BoundsIn(pieces[i]).0.value <= n <= BoundsIn(pieces[i]).1.value
  }

  lemma {:induction false} InPieceLast(n: nat, front: seq<string>, last: string)
    requires !SomeBad(front + [last])
    ensures !SomeBad(front) && BoundsIn(last).0.Some? && BoundsIn(last).1.Some?
    ensures InPiece(n, front + [last]) <==> InPiece(n, front) || BoundsIn(last).0.value <= n <= BoundsIn(last).1.value
  {
    var pieces := front + [last];
    assert pieces[|front|] == last && forall i :: 0 <= i < |front| ==> front[i] == pieces[i];
  }

  lemma {:induction false} SomeBadLast(front: seq<string>, last: string)
    ensures SomeBad(front + [last]) <==> SomeBad(front) || BoundsIn(last).0.None? || BoundsIn(last).1.None?
  {
    var pieces := front + [last];
    assert pieces[|front|] == last && forall i :: 0 <= i < |front| ==> front[i] == pieces[i];
  }

  /** Reading pieces fails if and only if some bound is no number; otherwise the buckets are the
      numbers in the ranges. */
  lemma {:induction false} BucketsAre(pieces: seq<string>)
    ensures Buckets(pieces).None? <==> SomeBad(pieces)
    ensures Buckets(pieces).Some? ==> forall n: nat :: n in Buckets(pieces).value <==> InPiece(n, pieces)
  {
    if pieces != [] {
      var front, last := pieces[..|pieces| - 1], pieces[|pieces| - 1];
      assert pieces == front + [last];
      BucketsAre(front);
      SomeBadLast(front, last);
      if Buckets(pieces).Some? {
        forall n: nat ensures n in Buckets(pieces).value <==> InPiece(n, pieces) {
          InPieceLast(n, front, last);
        }
      }
    }
  }

  /** The list of the elements of a set in ascending order. */
  ghost predicate Lists(numbers: seq<nat>, s: set<nat>) {
    && (forall i, j :: 0 <= i < j < |numbers| ==> numbers[i] < numbers[j])
    && (forall n :: n in numbers <==> n in s)
  }

  function Sorted(s: set<nat>, below: nat): (r: seq<nat>)
    ensures forall i, j :: 0 <= i < j < |r| ==> r[i] < r[j]
    ensures forall n :: n in r <==> n in s && n < below
  {
    if below == 0 then []
    else
      var less := Sorted(s, below - 1);
      assert forall i :: 0 <= i < |less| ==> less[i] in less;
      if below - 1 in s then less + [below - 1] else less
  }

  lemma {:induction false} NoneStays(pieces: seq<string>, k: nat)
    requires k <= |pieces| && Buckets(pieces[..k]).None?
    ensures Buckets(pieces).None?
    decreases |pieces| - k
  {
    if k < |pieces| {
      assert pieces[..k + 1][..k] == pieces[..k];
      NoneStays(pieces, k + 1);
    } else {
      assert pieces[..k] == pieces;
    }
  }

  lemma {:induction false} BucketsLast(pieces: seq<string>, piece: string, lo: nat, hi: nat)
    requires Buckets(pieces).Some? && BoundsIn(piece) == (Some(lo), Some(hi))
    ensures Buckets(pieces + [piece]) == Some(Buckets(pieces).value + Range(lo, hi))
  {
    assert (pieces + [piece])[..|pieces|] == pieces;
  }

  lemma {:induction false} NextBuckets(pieces: seq<string>, k: nat)
    requires k < |pieces| && Buckets(pieces[..k]).Some?
    ensures var (lo, hi) := BoundsIn(pieces[k]);
      if lo.None? || hi.None? then Buckets(pieces).None?
      else Buckets(pieces[..k + 1]) == Some(Buckets(pieces[..k]).value + Range(lo.value, hi.value))
  {
    assert pieces[..k + 1] == pieces[..k] + [pieces[k]];
    var (lo, hi) := BoundsIn(pieces[k]);
    if lo.Some? && hi.Some? {
      BucketsLast(pieces[..k], pieces[k], lo.value, hi.value);
    } else {
      assert (pieces[..k] + [pieces[k]])[..k] == pieces[..k];
      NoneStays(pieces, k + 1);
    }
  }

  method ParseBuckets(pieces: seq<string>) returns (r: Option<seq<nat>>)
    ensures r.None? <==> Buckets(pieces).None?
    ensures r.Some? ==> Lists(r.value, Buckets(pieces).value)
  {
    var vbuckets: set<nat> := {};
    var below: nat := 0;
    for k := 0 to |pieces|
      invariant Buckets(pieces[..k]) == Some(vbuckets)
      invariant forall n :: n in vbuckets ==> n < below
    {
      NextBuckets(pieces, k);
      var (lo, hi) := BoundsIn(pieces[k]);
      if lo.None? || hi.None? {
        return None;
      }
      vbuckets := vbuckets + Range(lo.value, hi.value);
      below := if hi.value < below then below else hi.value + 1;
    }
    assert pieces[..|pieces|] == pieces;
    r := Some(Sorted(vbuckets, below));
  }

  // ----- the dictionary

  /** What should be stored under a key. */
  ghost predicate Stores(key: string, text: string, value: Value) {
    if key == "vbuckets" then
      var s := Buckets(Split(text, ','));
      s.Some? && value.Numbers? && Lists(value.numbers, s.value)
    else value == ValueOf(text)
  }

  /** The parameters of an argument; a number that cannot be read raises. */
  method ParseParams(argument: string) returns (params: Option<map<string, Value>>)
    ensures var pairs := Dict(Pairs(argument));
      && (params.None? <==> "vbuckets" in pairs && Buckets(Split(pairs["vbuckets"], ',')).None?)
      && (params.Some? ==> params.value.Keys == pairs.Keys && forall k :: k in pairs ==> Stores(k, pairs[k], params.value[k]))
  {
    params := FillParams(Dict(Pairs(argument)));
  }

  method FillParams(pairs: map<string, string>) returns (params: Option<map<string, Value>>)
    ensures params.None? <==> VBUCKETS in pairs && Buckets(Split(pairs[VBUCKETS], ',')).None?
    ensures params.Some? ==> params.value.Keys == pairs.Keys && forall k :: k in pairs ==> Stores(k, pairs[k], params.value[k])
  {
    var dict: map<string, Value> := map[];
    var keys := pairs.Keys;
    while keys != {}
      invariant keys <= pairs.Keys && dict.Keys == pairs.Keys - keys
      invariant forall k :: k in dict ==> Stores(k, pairs[k], dict[k])
      decreases |keys|
    {
      var key :| key in keys;
      keys := keys - {key};
      if key == VBUCKETS {
        var numbers := ParseBuckets(Split(pairs[key], ','));
        if numbers.None? {
          return None;
        }
        dict := dict[key := Numbers(numbers.value)];
      } else {
        dict := dict[key := ValueOf(pairs[key])];
      }
    }
    params := Some(dict);
  }

  // ----- printing parameters

  datatype Param = Param(key: string, items: seq<string>)

  predicate Plain(s: string) {
    Trimmed(s) && forall i :: 0 <= i < |s| ==> !IsDelimiter(s[i])
  }

  /** A key and a list of items that can be printed. */
  predicate Printable(p: Param) {
    p.key != "" && Plain(p.key) && |p.items| >= 1 && forall i :: 0 <= i < |p.items| ==> Plain(p.items[i])
  }

  function PrintOne(p: Param): string
    requires Printable(p)
  {
    p.key + "=" + Join(p.items, ',')
  }

  predicate AllPrintable(ps: seq<Param>) {
    forall i :: 0 <= i < |ps| ==> Printable(ps[i])
  }

  /** "k1=v1,v2,k2=v3". */
  function Print(ps: seq<Param>): string
    requires AllPrintable(ps)
  {
    if ps == [] then "" else PrintOne(ps[0]) + More(ps[1..])
  }

  function More(ps: seq<Param>): string
    requires AllPrintable(ps)
  {
    if ps == [] then "" else "," + PrintOne(ps[0]) + More(ps[1..])
  }

  function PairsOf(ps: seq<Param>): (r: seq<Pair>)
    requires AllPrintable(ps)
    ensures |r| == |ps| && forall i :: 0 <= i < |ps| ==> r[i] == Pair(ps[i].key, Join(ps[i].items, ','))
  {
    if ps == [] then [] else [Pair(ps[0].key, Join(ps[0].items, ','))] + PairsOf(ps[1..])
  }

  lemma {:induction false} RunEndIs(s: string, from: nat, n: nat)
    requires from <= n <= |s| && forall i :: from <= i < n ==> !IsDelimiter(s[i])
    requires n < |s| ==> IsDelimiter(s[n])
    ensures RunEnd(s, from) == n
    decreases n - from
  {
    if from < n {
      RunEndIs(s, from + 1, n);
    }
  }

  lemma {:induction false} FirstMatchIs(s: string, from: nat, m: nat)
    requires from <= m <= |s| && forall i :: from <= i < m ==> !MatchAt(s, i)
    requires m < |s| ==> MatchAt(s, m)
    ensures FirstMatch(s, from) == m
    decreases m - from
  {
    if from < m {
      FirstMatchIs(s, from + 1, m);
    }
  }

  /** A key after a text without '=' is the first match. */
  lemma {:induction false} KeyMatches(v: string, key: string, more: string)
    requires '=' !in v && key != "" && Plain(key)
    ensures var s := v + "," + key + "=" + more;
      FirstMatch(s, 0) == |v| && KeyStart(s, |v|) == |v| + 1 && KeyEnd(s, |v|) == |v| + 1 + |key|
      && s[KeyStart(s, |v|)..KeyEnd(s, |v|)] == key && s[KeyEnd(s, |v|) + 1..] == more
  {
    var s := v + "," + key + "=" + more;
    RunEndIs(s, |v| + 1, |v| + 1 + |key|);
    assert IsDelimiter(s[|v|]);
    forall i | 0 <= i < |v| ensures !MatchAt(s, i) {
      assert KeyEnd(s, i) <= |v|;
      assert KeyEnd(s, i) < |v| ==> s[KeyEnd(s, i)] == v[KeyEnd(s, i)];
    }
    FirstMatchIs(s, 0, |v|);
  }

  lemma {:induction false} FirstKeyMatches(key: string, more: string)
    requires key != "" && Plain(key)
    ensures var s := key + "=" + more;
      FirstMatch(s, 0) == 0 && KeyStart(s, 0) == 0 && KeyEnd(s, 0) == |key|
      && s[..|key|] == key && s[|key| + 1..] == more
  {
    RunEndIs(key + "=" + more, 0, |key|);
  }

  lemma {:induction false} NoMatch(v: string)
    requires '=' !in v
    ensures FirstMatch(v, 0) == |v|
  {
  }

  lemma {:induction false} JoinPlain(items: seq<string>)
    requires |items| >= 1 && forall i :: 0 <= i < |items| ==> Plain(items[i])
    ensures '=' !in Join(items, ',') && Trimmed(Join(items, ','))
  {
    if |items| > 1 {
      JoinPlain(items[1..]);
    }
  }

  lemma {:induction false} PairsStart(s: string)
    requires FirstMatch(s, 0) < |s|
    ensures var m := FirstMatch(s, 0);
      var rest := s[KeyEnd(s, m) + 1..];
      Pairs(s) == [Pair(Strip(s[KeyStart(s, m)..KeyEnd(s, m)]), Strip(rest[..FirstMatch(rest, 0)]))] + Pairs(rest)
  {
  }

  lemma {:induction false} PairsFirst(s: string, m: nat, key: string, text: string, rest: string)
    requires m < |s| && FirstMatch(s, 0) == m && s[KeyStart(s, m)..KeyEnd(s, m)] == key && s[KeyEnd(s, m) + 1..] == rest
    requires |text| <= |rest| && FirstMatch(rest, 0) == |text| && rest[..|text|] == text && Trimmed(key) && Trimmed(text)
    ensures Pairs(s) == [Pair(key, text)] + Pairs(rest)
  {
    PairsStart(s);
    StripTrimmed(key);
    StripTrimmed(text);
  }

  lemma {:induction false} StripTrimmed(s: string)
    requires Trimmed(s)
    ensures Strip(s) == s
  {
  }

  lemma {:induction false} MoreFirst(v: string, ps: seq<Param>)
    requires ps != [] && AllPrintable(ps)
    ensures v + More(ps) == v + "," + ps[0].key + "=" + (Join(ps[0].items, ',') + More(ps[1..]))
  {
    var key, text, more := ps[0].key, Join(ps[0].items, ','), More(ps[1..]);
    assert More(ps) == "," + (key + "=" + text) + more;
  }

  lemma {:induction false} PairsOfNext(v: string, key: string, text: string, rest: string, s: string)
    requires '=' !in v && key != "" && Plain(key) && Trimmed(text) && s == v + "," + key + "=" + rest
    requires text <= rest && FirstMatch(rest, 0) == |text|
    ensures FirstMatch(s, 0) == |v| && Pairs(s) == [Pair(key, text)] + Pairs(rest)
  {
    KeyMatches(v, key, rest);
    PairsFirst(s, |v|, key, text, rest);
  }

  /** What follows the values of a parameter. */
  lemma {:induction false} PairsOfMore(v: string, ps: seq<Param>)
    requires '=' !in v && AllPrintable(ps)
    ensures FirstMatch(v + More(ps), 0) == |v| && Pairs(v + More(ps)) == PairsOf(ps)
    decreases |ps|
  {
    if ps == [] {
      assert v + "" == v;
      NoMatch(v);
    } else {
      var s, text := v + More(ps), Join(ps[0].items, ',');
      MoreFirst(v, ps);
      JoinPlain(ps[0].items);
      PairsOfMore(text, ps[1..]);
      PairsOfNext(v, ps[0].key, text, text + More(ps[1..]), s);
    }
  }

  /** Splitting a printed list of parameters gives the parameters. */
  lemma {:induction false} PairsOfPrinted(ps: seq<Param>)
    requires AllPrintable(ps)
    ensures Pairs(Print(ps)) == PairsOf(ps)
  {
    if ps == [] {
      NoMatch("");
    } else {
      var text := Join(ps[0].items, ',');
      var rest := text + More(ps[1..]);
      assert Print(ps) == (ps[0].key + "=" + text) + More(ps[1..]);
      assert Print(ps) == ps[0].key + "=" + rest;
      FirstKeyMatches(ps[0].key, rest);
      JoinPlain(ps[0].items);
      PairsOfMore(text, ps[1..]);
      PairsFirst(Print(ps), 0, ps[0].key, text, rest);
    }
  }

  lemma {:induction false} DictOf(pairs: seq<Pair>, i: nat)
    requires i < |pairs| && forall a, b :: 0 <= a < b < |pairs| ==> pairs[a].key != pairs[b].key
    ensures pairs[i].key in Dict(pairs) && Dict(pairs)[pairs[i].key] == pairs[i].text
    decreases |pairs|
  {
    if i < |pairs| - 1 {
      DictOf(pairs[..|pairs| - 1], i);
    }
  }

  lemma {:induction false} DictKeys(pairs: seq<Pair>)
    ensures forall k :: k in Dict(pairs) ==> exists i :: 0 <= i < |pairs| && pairs[i].key == k
  {
    if pairs != [] {
      var front := pairs[..|pairs| - 1];
      DictKeys(front);
      forall k | k in Dict(pairs) ensures exists i :: 0 <= i < |pairs| && pairs[i].key == k {
        if k != pairs[|pairs| - 1].key {
          assert k in Dict(front);
          var i :| 0 <= i < |front| && front[i].key == k;
          assert pairs[i].key == k;
        } else {
          assert pairs[|pairs| - 1].key == k;
        }
      }
    }
  }

  lemma {:induction false} ItemsBack(items: seq<string>)
    requires |items| >= 1 && forall i :: 0 <= i < |items| ==> Plain(items[i])
    ensures Split(Join(items, ','), ',') == items && StripAll(items) == items
    ensures ValueOf(Join(items, ',')) == if |items| > 1 then Many(items) else One(items[0])
  {
    SplitJoin(items, ',');
  }

  /** Printed parameters with distinct keys are found again: the same keys, and under each its one
      item or its list of items. */
  lemma {:induction false} RoundTrip(ps: seq<Param>)
    requires AllPrintable(ps) && forall a, b :: 0 <= a < b < |ps| ==> ps[a].key != ps[b].key
    ensures var dict := Dict(Pairs(Print(ps)));
      && (forall k :: k in dict ==> exists i :: 0 <= i < |ps| && ps[i].key == k)
      && (forall i :: 0 <= i < |ps| ==>
            && ps[i].key in dict && Split(dict[ps[i].key], ',') == ps[i].items
            && ValueOf(dict[ps[i].key]) == if |ps[i].items| > 1 then Many(ps[i].items) else One(ps[i].items[0]))
  {
    PairsOfPrinted(ps);
    DictKeys(PairsOf(ps));
    forall i | 0 <= i < |ps|
      ensures ps[i].key in Dict(PairsOf(ps)) && Dict(PairsOf(ps))[ps[i].key] == Join(ps[i].items, ',')
    {
      DictOf(PairsOf(ps), i);
    }
    forall i | 0 <= i < |ps|
      ensures Split(Join(ps[i].items, ','), ',') == ps[i].items
      ensures ValueOf(Join(ps[i].items, ',')) == if |ps[i].items| > 1 then Many(ps[i].items) else One(ps[i].items[0])
    {
      ItemsBack(ps[i].items);
    }
  }

  // ----- printing ranges

  datatype Bounds = Single(n: nat) | Span(first: nat, last: nat)
  {
    function Lo(): nat { if Single? then n else first }

    function Hi(): nat { if Single? then n else last }

    function Print(): string {
      if Single? then ToText(n) else Join([ToText(first), ToText(last)], '-')
    }
  }

  function PrintAll(ranges: seq<Bounds>): (r: seq<string>)
    ensures |r| == |ranges| && forall i :: 0 <= i < |r| ==> r[i] == ranges[i].Print()
  {
    seq(|ranges|, i requires 0 <= i < |ranges| => ranges[i].Print())
  }

  lemma {:induction false} NumberText(n: nat)
    ensures Strip(ToText(n)) == ToText(n) && '-' !in ToText(n)
  {
    assert ToText(n)[0] in ToText(n) && ToText(n)[|ToText(n)| - 1] in ToText(n);
  }

  lemma {:induction false} BoundsBack(r: Bounds)
    ensures BoundsIn(r.Print()) == (Some(r.Lo()), Some(r.Hi()))
  {
    NumberText(r.Lo());
    NumberText(r.Hi());
    ParseText(r.Lo());
    ParseText(r.Hi());
    if r.Single? {
      SplitOne(ToText(r.n), '-');
    } else {
      SplitJoin([ToText(r.first), ToText(r.last)], '-');
    }
  }

  ghost predicate InSome(n: nat, ranges: seq<Bounds>) {
    exists i :: 0 <= i < |ranges| && ranges[i].Lo() <= n <= ranges[i].Hi()
  }

  lemma {:induction false} InFrontOrLast(n: nat, ranges: seq<Bounds>)
    requires ranges != []
    ensures var last := ranges[|ranges| - 1];
      InSome(n, ranges) <==> InSome(n, ranges[..|ranges| - 1]) || last.Lo() <= n <= last.Hi()
  {
    if InSome(n, ranges[..|ranges| - 1]) {
      var i :| 0 <= i < |ranges| - 1 && ranges[..|ranges| - 1][i].Lo() <= n <= ranges[..|ranges| - 1][i].Hi();
      assert ranges[i].Lo() <= n <= ranges[i].Hi();
    }
    if InSome(n, ranges) {
      var i :| 0 <= i < |ranges| && ranges[i].Lo() <= n <= ranges[i].Hi();
      assert i < |ranges| - 1 ==> ranges[..|ranges| - 1][i] == ranges[i];
    }
  }

  lemma {:induction false} MembersLast(numbers: set<nat>, ranges: seq<Bounds>)
    requires ranges != [] && forall n: nat :: n in numbers <==> InSome(n, ranges[..|ranges| - 1])
    ensures var last := ranges[|ranges| - 1];
      forall n: nat :: n in numbers + Range(last.Lo(), last.Hi()) <==> InSome(n, ranges)
  {
    var last := ranges[|ranges| - 1];
    forall n: nat ensures n in numbers + Range(last.Lo(), last.Hi()) <==> InSome(n, ranges) {
      InFrontOrLast(n, ranges);
    }
  }

  lemma {:induction false} PrintLast(ranges: seq<Bounds>)
    requires ranges != []
    ensures PrintAll(ranges) == PrintAll(ranges[..|ranges| - 1]) + [ranges[|ranges| - 1].Print()]
  {
  }

  /** The buckets of printed ranges are exactly the numbers inside them. */
  lemma {:induction false} BucketsOfRanges(ranges: seq<Bounds>)
    ensures Buckets(PrintAll(ranges)).Some?
    ensures forall n: nat :: n in Buckets(PrintAll(ranges)).value <==> InSome(n, ranges)
  {
    if ranges != [] {
      var front, last := ranges[..|ranges| - 1], ranges[|ranges| - 1];
      BucketsOfRanges(front);
      BoundsBack(last);
      BucketsLast(PrintAll(front), last.Print(), last.Lo(), last.Hi());
      PrintLast(ranges);
      MembersLast(Buckets(PrintAll(front)).value, ranges);
    }
  }

  /** Printed ranges under "vbuckets" are found again as the union of their numbers. */
  lemma {:induction false} RangesRoundTrip(ps: seq<Param>, i: nat, ranges: seq<Bounds>)
    requires AllPrintable(ps) && forall a, b :: 0 <= a < b < |ps| ==> ps[a].key != ps[b].key
    requires i < |ps| && ps[i] == Param("vbuckets", PrintAll(ranges))
    ensures var dict := Dict(Pairs(Print(ps)));
      "vbuckets" in dict && Buckets(Split(dict["vbuckets"], ',')).Some?
      && forall n: nat :: n in Buckets(Split(dict["vbuckets"], ',')).value <==> InSome(n, ranges)
  {
    RoundTrip(ps);
    assert ps[i].key == "vbuckets";
    BucketsOfRanges(ranges);
  }
}
