/** The arithmetic of the deterministic load generator: how a growing mutation index is
    mapped to a key, which indexes share a key, and where those indexes lie.

    Out of every `create + nocreate` consecutive mutations, the key advances by `create`
    only, so `nocreate` of them rewrite keys that already exist. */
module MutationKeys {
  import opened Arithmetic

  /** mutation index -> key */
  function MutationKey(create: nat, nocreate: nat, index: nat): (key: nat)
    requires create + nocreate > 0
    ensures key <= index
  {
    RoundForm(create, nocreate, index);
    index - nocreate * (index / (create + nocreate))
  }

  /** The start of the scan for the indexes of a key. */
  function ScanCentre(create: nat, nocreate: nat, key: nat): nat
    requires create > 0
  {
    key * (nocreate + create) / create
  }

  /** `hits` lists, in ascending order, exactly the indexes up to `last` that are mapped to `key`. */
  ghost predicate IsPreimage(create: nat, nocreate: nat, last: nat, key: nat, hits: seq<nat>)
    requires create + nocreate > 0
  {
    && (forall a, b :: 0 <= a < b < |hits| ==> hits[a] < hits[b])
    && (forall i: nat :: i in hits <==> i <= last && MutationKey(create, nocreate, i) == key)
  }

  /** The last index below `bound` that is mapped to `key`. */
  datatype Write = Never | At(index: nat)

  function LatestBefore(create: nat, nocreate: nat, key: nat, bound: nat): (w: Write)
    requires create + nocreate > 0
    ensures w.At? ==> w.index < bound && MutationKey(create, nocreate, w.index) == key
    ensures forall j: nat :: (w.At? ==> w.index < j) && j < bound ==> MutationKey(create, nocreate, j) != key
  {
    if bound == 0 then Never
    else if MutationKey(create, nocreate, bound - 1) == key then At(bound - 1)
    else LatestBefore(create, nocreate, key, bound - 1)
  }

  // ----- the shape of an index

  /** Splitting an index into its round and its place in the round. */
  lemma {:induction false} RoundForm(create: nat, nocreate: nat, index: nat)
    requires create + nocreate > 0
    ensures var p := create + nocreate; var q, r := index / p, index % p;
      0 <= q && 0 <= r < p && index == q * create + q * nocreate + r &&
      index - nocreate * q == q * create + r >= 0
  {
    var p := create + nocreate;
    var q, r := index / p, index % p;
    assert index == p * q + r;
    assert p * q == q * create + q * nocreate;
    assert q * create >= 0;
  }

  // ----- the shape of a preimage

  /** An index of `key` is `key` plus a whole number of skips, one per round. */
  lemma {:induction false} PreimageIsRound(create: nat, nocreate: nat, index: nat, key: nat)
    requires create + nocreate > 0
    requires MutationKey(create, nocreate, index) == key
    ensures var q := index / (create + nocreate);
      0 <= q && index == key + nocreate * q && q * create <= key < q * create + create + nocreate
  {
    RoundForm(create, nocreate, index);
  }

  lemma {:induction false} RoundIsPreimage(create: nat, nocreate: nat, key: nat, q: nat)
    requires create + nocreate > 0
    requires q * create <= key < q * create + create + nocreate
    ensures key + nocreate * q >= 0 && MutationKey(create, nocreate, key + nocreate * q) == key
  {
    var p := create + nocreate;
    assert key + nocreate * q == q * p + (key - q * create);
    DivIs(p, q, key - q * create);
  }

  /** The indexes of `key` are exactly the points `key + nocreate * q` for the rounds `q` that
      contain it: an arithmetic progression of stride `nocreate`. */
  lemma {:induction false} PreimageIffRound(create: nat, nocreate: nat, index: nat, key: nat)
    requires create + nocreate > 0
    ensures MutationKey(create, nocreate, index) == key <==>
            exists q: nat :: index == key + nocreate * q && q * create <= key < q * create + create + nocreate
  {
    if MutationKey(create, nocreate, index) == key {
      PreimageIsRound(create, nocreate, index, key);
    }
    forall q: nat | index == key + nocreate * q && q * create <= key < q * create + create + nocreate
      ensures MutationKey(create, nocreate, index) == key
    {
      RoundIsPreimage(create, nocreate, key, q);
    }
  }

  /** The two sides of the window, before the division by `create`. */
  lemma {:induction false} WindowBounds(c: nat, n: nat, k: nat, q: nat)
    requires c >= 1 && n >= 1
    requires q * c <= k < q * c + c + n
    ensures (k + n * q) * c <= k * (n + c) < (k + n * q + n * n + 1) * c
  {
    ExpandWindow(c, n, k, q);
    ScaleLess(q * c, k, n);
    ScaleLess(k, q * c + c + n - 1, n);
    ScaleLess(1, c, n * (n - 1));
  }

  lemma {:induction false} ExpandWindow(c: nat, n: nat, k: nat, q: nat)
    ensures k * (n + c) == k * c + n * k
    ensures (k + n * q) * c == k * c + n * (q * c)
    ensures n * (q * c + c + n - 1) == n * (q * c) + n * c + n * (n - 1)
    ensures (k + n * q + n * n + 1) * c == (k + n * q) * c + (n * (n - 1)) * c + n * c + c
  {
    Regroup(n, q, c);
    assert n * (q * c + c + (n - 1)) == n * (q * c) + n * c + n * (n - 1);
    assert (k + n * q + n * n + 1) * c == (k + n * q) * c + (n * n) * c + c;
    assert (n * n) * c == (n * (n - 1) + n) * c;
  }

  lemma {:induction false} Regroup(n: nat, q: nat, c: nat)
    ensures (n * q) * c == n * (q * c)
  {
  }

  /** Every index of `key` lies in the scanned window, and never above its centre. */
  lemma {:induction false} PreimageInWindow(create: nat, nocreate: nat, index: nat, key: nat)
    requires create >= 1 && nocreate >= 1
    requires MutationKey(create, nocreate, index) == key
    ensures var s := ScanCentre(create, nocreate, key);
      s - nocreate * nocreate <= index <= s
  {
    PreimageIsRound(create, nocreate, index, key);
    var q := index / (create + nocreate);
    WindowBounds(create, nocreate, key, q);
    AtMostQuotient(key * (nocreate + create), create, index);
    QuotientBelow(key * (nocreate + create), create, index + nocreate * nocreate);
  }

  /** Between two neighbouring points of the progression there is no index of `key`. */
  lemma {:induction false} NoPreimageBetween(create: nat, nocreate: nat, key: nat, q: nat, index: nat)
    requires create >= 1 && nocreate >= 1
    requires key + nocreate * q < index < key + nocreate * q + nocreate
    ensures MutationKey(create, nocreate, index) != key
  {
    PreimageIffRound(create, nocreate, index, key);
    forall q': nat ensures index != key + nocreate * q' {
      assert nocreate * (q' - q) == nocreate * q' - nocreate * q;
      Scale(nocreate, q' - q);
    }
  }

  // ----- which keys exist after some mutations

  /** The largest key written by the mutations below `bound`. */
  function MaxKey(create: nat, nocreate: nat, bound: nat): (k: nat)
    requires create + nocreate > 0 && bound > 0
    ensures forall i: nat :: i < bound ==> MutationKey(create, nocreate, i) <= k
    ensures exists i: nat :: i < bound && MutationKey(create, nocreate, i) == k
  {
    var here := MutationKey(create, nocreate, bound - 1);
    if bound == 1 then here
    else
      var before := MaxKey(create, nocreate, bound - 1);
      if here > before then here else before
  }

  /** From one mutation to the next the key grows by one, or falls back to start the next round. */
  lemma {:induction false} NextKey(create: nat, nocreate: nat, index: nat)
    requires create >= 1
    ensures var k := MutationKey(create, nocreate, index);
      var k' := MutationKey(create, nocreate, index + 1);
      if (index + 1) % (create + nocreate) == 0 then k' == k + 1 - nocreate else k' == k + 1
  {
    var p := create + nocreate;
    var q, r := index / p, index % p;
    if r + 1 < p {
      DivIs(p, q, r + 1);
      SameRound(p, index, q, r);
    } else {
      DivIs(p, q + 1, 0);
      SameRound(p, index, q + 1, -1);
      assert nocreate * (q + 1) == nocreate * q + nocreate;
    }
  }

  lemma {:induction false} SameRound(p: nat, index: nat, q: nat, r: int)
    requires index == q * p + r
    ensures index + 1 == q * p + (r + 1)
  {
  }

  /** A key below the one about to be written has been written before. */
  lemma {:induction false} SmallerKeyWritten(create: nat, nocreate: nat, index: nat, key: nat)
    requires create >= 1
    requires key < MutationKey(create, nocreate, index)
    ensures LatestBefore(create, nocreate, key, index).At?
  {
    if index > 0 {
      NextKey(create, nocreate, index - 1);
      var before := MutationKey(create, nocreate, index - 1);
      if key < before {
        SmallerKeyWritten(create, nocreate, index - 1, key);
      }
    }
  }

  /** Key coverage: some mutation below `bound` wrote `key` exactly when `key` is at most the
      largest key written; and a new mutation extends that range by at most one key. */
  lemma {:induction false} KeyCoverage(create: nat, nocreate: nat, bound: nat, key: nat)
    requires create >= 1 && bound > 0
    ensures LatestBefore(create, nocreate, key, bound).At? <==> key <= MaxKey(create, nocreate, bound)
    ensures MaxKey(create, nocreate, bound) <= MaxKey(create, nocreate, bound + 1) <= MaxKey(create, nocreate, bound) + 1
  {
    var top := MaxKey(create, nocreate, bound);
    var i: nat :| i < bound && MutationKey(create, nocreate, i) == top;
    if key < top {
      SmallerKeyWritten(create, nocreate, i, key);
      var w := LatestBefore(create, nocreate, key, i);
      assert MutationKey(create, nocreate, w.index) == key;
    }
    NextKey(create, nocreate, bound - 1);
    assert MutationKey(create, nocreate, bound - 1) <= top;
  }

  /** The number of distinct keys is one more than the largest. */
  lemma {:induction false} DistinctKeys(create: nat, nocreate: nat, bound: nat, keys: set<nat>)
    requires create >= 1 && bound > 0
    requires forall k: nat :: k in keys <==> exists i: nat :: i < bound && MutationKey(create, nocreate, i) == k
    ensures |keys| == MaxKey(create, nocreate, bound) + 1
  {
    var top := MaxKey(create, nocreate, bound);
    forall k: nat
      ensures k in keys <==> k < top + 1
    {
      KeyCoverage(create, nocreate, bound, k);
      if k < top + 1 {
        var w := LatestBefore(create, nocreate, k, bound);
        assert w.index < bound && MutationKey(create, nocreate, w.index) == k;
      }
    }
    Initial(keys, top + 1);
  }

  lemma {:induction false} Initial(keys: set<nat>, n: nat)
    requires forall k: nat :: k in keys <==> k < n
    ensures |keys| == n
  {
    if n == 0 {
      assert keys == {};
    } else {
      var rest := keys - {n - 1};
      Initial(rest, n - 1);
      assert keys == rest + {n - 1};
    }
  }

  // ----- the total size of the live values

  /** The value size at an index: the sequence of sizes is used cyclically. */
  function DataSize(sizes: seq<nat>, index: nat): (size: nat)
    requires |sizes| > 0
    ensures size in sizes
  {
    sizes[index % |sizes|]
  }

  /** Every cycle of indexes has the configured sizes, in their order. */
  lemma {:induction false} DataSizeCycles(sizes: seq<nat>, q: nat, r: nat)
    requires r < |sizes|
    ensures DataSize(sizes, q * |sizes| + r) == sizes[r]
  {
    DivIs(|sizes|, q, r);
  }

  function SizeOfWrite(sizes: seq<nat>, w: Write): nat
    requires |sizes| > 0
  {
    if w.At? then DataSize(sizes, w.index) else 0
  }

  /** The total size of the latest value of every key below `keys`, after the mutations below `bound`. */
  ghost function LiveSize(create: nat, nocreate: nat, sizes: seq<nat>, bound: nat, keys: nat): nat
    requires create + nocreate > 0 && |sizes| > 0
    decreases keys
  {
    if keys == 0 then 0
    else LiveSize(create, nocreate, sizes, bound, keys - 1)
         + SizeOfWrite(sizes, LatestBefore(create, nocreate, keys - 1, bound))
  }

  /** The accounting that subtracts the size of the value being overwritten. */
  ghost function AccountedSize(create: nat, nocreate: nat, sizes: seq<nat>, bound: nat): int
    requires create + nocreate > 0 && |sizes| > 0
  {
    if bound == 0 then 0
    else
      var key := MutationKey(create, nocreate, bound - 1);
      AccountedSize(create, nocreate, sizes, bound - 1)
      + DataSize(sizes, bound - 1)
      - SizeOfWrite(sizes, LatestBefore(create, nocreate, key, bound - 1))
  }

  /** One more mutation changes the term of its own key only. */
  lemma {:induction false} LiveSizeStep(create: nat, nocreate: nat, sizes: seq<nat>, bound: nat, keys: nat)
    requires create + nocreate > 0 && |sizes| > 0
    ensures var key := MutationKey(create, nocreate, bound);
      LiveSize(create, nocreate, sizes, bound + 1, keys) ==
      LiveSize(create, nocreate, sizes, bound, keys) +
      (if key < keys
       then DataSize(sizes, bound) - SizeOfWrite(sizes, LatestBefore(create, nocreate, key, bound))
       else 0)
    decreases keys
  {
    if keys > 0 {
      LiveSizeStep(create, nocreate, sizes, bound, keys - 1);
    }
  }

  lemma {:induction false} LiveSizeAtStart(create: nat, nocreate: nat, sizes: seq<nat>, keys: nat)
    requires create + nocreate > 0 && |sizes| > 0
    ensures LiveSize(create, nocreate, sizes, 0, keys) == 0
  {
    if keys > 0 {
      LiveSizeAtStart(create, nocreate, sizes, keys - 1);
    }
  }

  lemma {:induction false} AccountedStep(create: nat, nocreate: nat, sizes: seq<nat>, bound: nat)
    requires create + nocreate > 0 && |sizes| > 0
    ensures var key := MutationKey(create, nocreate, bound);
      key <= bound &&
      AccountedSize(create, nocreate, sizes, bound + 1) ==
      AccountedSize(create, nocreate, sizes, bound)
      + DataSize(sizes, bound) - SizeOfWrite(sizes, LatestBefore(create, nocreate, key, bound))
  {
  }

  /** Subtracting the second-to-largest index accounts for exactly the live data, after every
      number of mutations and for any bound on the keys that covers them. */
  lemma {:induction false} AccountingIsLiveSize(create: nat, nocreate: nat, sizes: seq<nat>, bound: nat, keys: nat)
    requires create + nocreate > 0 && |sizes| > 0
    requires keys >= bound
    ensures AccountedSize(create, nocreate, sizes, bound) == LiveSize(create, nocreate, sizes, bound, keys)
    decreases bound
  {
    if bound == 0 {
      LiveSizeAtStart(create, nocreate, sizes, keys);
    } else {
      var b := bound - 1;
      AccountingIsLiveSize(create, nocreate, sizes, b, keys);
      AccountedStep(create, nocreate, sizes, b);
      LiveSizeStep(create, nocreate, sizes, b, keys);
    }
  }

  lemma {:induction false} LiveSizeAtLeast(create: nat, nocreate: nat, sizes: seq<nat>, bound: nat, keys: nat, key: nat)
    requires create + nocreate > 0 && |sizes| > 0
    requires key < keys
    ensures LiveSize(create, nocreate, sizes, bound, keys) >= SizeOfWrite(sizes, LatestBefore(create, nocreate, key, bound))
    decreases keys
  {
    if key < keys - 1 {
      LiveSizeAtLeast(create, nocreate, sizes, bound, keys - 1, key);
    }
  }

  lemma {:induction false} LiveSizeOfEmptyValues(create: nat, nocreate: nat, sizes: seq<nat>, bound: nat, keys: nat)
    requires create + nocreate > 0 && |sizes| > 0
    requires forall v :: v in sizes ==> v == 0
    ensures LiveSize(create, nocreate, sizes, bound, keys) == 0
    decreases keys
  {
    if keys > 0 {
      LiveSizeOfEmptyValues(create, nocreate, sizes, bound, keys - 1);
    }
  }

  lemma {:induction false} NonzeroSizeShows(create: nat, nocreate: nat, sizes: seq<nat>, j: nat)
    requires create + nocreate > 0
    requires j < |sizes| && sizes[j] != 0
    ensures LiveSize(create, nocreate, sizes, j + 1, j + 1) != 0
  {
    LiveSizeAtLeast(create, nocreate, sizes, j + 1, j + 1, MutationKey(create, nocreate, j));
    JustWritten(create, nocreate, j);
    SizeInFirstCycle(sizes, j);
  }

  lemma {:induction false} JustWritten(create: nat, nocreate: nat, index: nat)
    requires create + nocreate > 0
    ensures LatestBefore(create, nocreate, MutationKey(create, nocreate, index), index + 1) == At(index)
  {
  }

  lemma {:induction false} SizeInFirstCycle(sizes: seq<nat>, j: nat)
    requires j < |sizes|
    ensures DataSize(sizes, j) == sizes[j]
  {
    DivIs(|sizes|, 0, j);
  }

  /** The size counter as written stays at 0 (see LoadThread). It is the live size in every
      state exactly when every configured value size is 0. */
  lemma {:induction false} ZeroIsLiveSizeIff(create: nat, nocreate: nat, sizes: seq<nat>)
    requires create + nocreate > 0 && |sizes| > 0
    ensures (forall bound: nat :: LiveSize(create, nocreate, sizes, bound, bound) == 0)
            <==> (forall v :: v in sizes ==> v == 0)
  {
    if forall v :: v in sizes ==> v == 0 {
      forall bound: nat ensures LiveSize(create, nocreate, sizes, bound, bound) == 0 {
        LiveSizeOfEmptyValues(create, nocreate, sizes, bound, bound);
      }
    } else {
      var v :| v in sizes && v != 0;
      var j :| 0 <= j < |sizes| && sizes[j] == v;
      NonzeroSizeShows(create, nocreate, sizes, j);
    }
  }

  // ----- the create percentage

  function Gcd(a: nat, b: nat): nat
    decreases b
  {
    if b == 0 then a else Gcd(b, a % b)
  }

  lemma {:induction false} CommonFactor(g: nat, y: nat, r: nat, d: nat)
    ensures (g * y) * d + g * r == g * (y * d + r)
  {
  }

  lemma {:induction false} GcdFactors(a: nat, b: nat) returns (x: nat, y: nat)
    ensures a == Gcd(a, b) * x && b == Gcd(a, b) * y
    decreases b
  {
    if b == 0 {
      x, y := 1, 0;
    } else {
      var m := a % b;
      var y', r := GcdFactors(b, m);
      CommonFactor(Gcd(b, m), y', r, a / b);
      x, y := y' * (a / b) + r, y';
    }
  }

  /** The reduced ratio of creating to rewriting mutations for a percentage. */
  function CreateShare(percent: nat): nat
    requires percent <= 100
  {
    var g := Gcd(percent, 100 - percent);
    if g == 0 then 0 else percent / g
  }

  function NocreateShare(percent: nat): nat
    requires percent <= 100
  {
    var g := Gcd(percent, 100 - percent);
    if g == 0 then 0 else (100 - percent) / g
  }

  /** The shares are in the ratio of the percentages, and both are positive, as the key map and
      its inversion need, exactly when the percentage is neither 0 nor 100. */
  lemma {:induction false} SharesPositiveIff(percent: nat)
    requires percent <= 100
    ensures CreateShare(percent) * (100 - percent) == NocreateShare(percent) * percent
    ensures CreateShare(percent) >= 1 && NocreateShare(percent) >= 1 <==> 1 <= percent <= 99
  {
    var g := Gcd(percent, 100 - percent);
    var x, y := GcdFactors(percent, 100 - percent);
    ExactQuotients(g, x, y);
  }

  lemma {:induction false} ExactQuotients(g: nat, x: nat, y: nat)
    requires g * x + g * y == 100
    ensures g > 0 && (g * x) / g == x && (g * y) / g == y
    ensures x * (g * y) == y * (g * x)
    ensures (x >= 1 <==> g * x >= 1) && (y >= 1 <==> g * y >= 1)
  {
    DivIs(g, x, 0);
    DivIs(g, y, 0);
    SwapFactors(g, x, y);
    ExactParts(g, x, y);
  }

  lemma {:induction false} ExactParts(g: nat, x: nat, y: nat)
    requires g > 0
    ensures (x >= 1 <==> g * x >= 1) && (y >= 1 <==> g * y >= 1)
  {
    Scale(g, x);
    Scale(g, y);
  }

  lemma {:induction false} SwapFactors(g: nat, x: nat, y: nat)
    ensures x * (g * y) == y * (g * x)
  {
    assert x * (g * y) == (x * g) * y;
  }

  /** The hits are the indexes of the key below the scanned index, in ascending order. */
  ghost predicate FoundBelow(create: nat, nocreate: nat, last: nat, key: nat, s: Scan)
    requires create + nocreate > 0
  {
    && s.index >= 0
    && (forall a, b :: 0 <= a < b < |s.hits| ==> s.hits[a] < s.hits[b])
    && (forall a :: 0 <= a < |s.hits| ==> s.hits[a] < s.index)
    && (forall i: nat :: i in s.hits <==> i < s.index && i <= last && MutationKey(create, nocreate, i) == key)
  }

  /** After the first hit the scan strides over numbers `key + nocreate * q`. */
  ghost predicate Strides(nocreate: nat, key: nat, s: Scan, q: nat) {
    s.incr == 1 || (nocreate >= 1 && s.incr == nocreate && s.index == key + nocreate * q)
  }

  predicate Hit(create: nat, nocreate: nat, last: nat, key: nat, index: int)
    requires create + nocreate > 0
  {
    0 <= index <= last && MutationKey(create, nocreate, index) == key
  }

  /** A turn keeps the stride and advances. */
  lemma {:induction false} StepStrides(create: nat, nocreate: nat, last: nat, key: nat, s: Scan, q: nat)
    returns (q': nat)
    requires create >= 1 && (nocreate >= 1 || key > last)
    requires s.index >= 0 && Strides(nocreate, key, s, q)
    ensures var s' := ScanStep(create, nocreate, last, key, s);
      && Strides(nocreate, key, s', q')
      && s'.incr >= 1 && s'.index == s.index + s'.incr
      && (s'.incr != 1 ==> nocreate >= 1 && s'.incr == nocreate && q' >= 1 && s.index == key + nocreate * (q' - 1))
  {
    var from := q;
    if Hit(create, nocreate, last, key, s.index) {
      var index: nat := s.index;
      if nocreate == 0 {
        KeyIsIndex(create, index);
        assert false;
      }
      PreimageIsRound(create, nocreate, index, key);
      from := index / (create + nocreate);
    }
    q' := from + 1;
    assert nocreate * q' == nocreate * from + nocreate;
  }

  /** No turn skips an index of the key. */
  lemma {:induction false} StepFinds(create: nat, nocreate: nat, last: nat, key: nat, s: Scan, q: nat)
    returns (q': nat)
    requires create >= 1 && (nocreate >= 1 || key > last)
    requires FoundBelow(create, nocreate, last, key, s) && Strides(nocreate, key, s, q)
    ensures var s' := ScanStep(create, nocreate, last, key, s);
      FoundBelow(create, nocreate, last, key, s') && Strides(nocreate, key, s', q') && s.index < s'.index
  {
    var s' := ScanStep(create, nocreate, last, key, s);
    q' := StepStrides(create, nocreate, last, key, s, q);
    forall i: nat | s.index < i < s'.index ensures MutationKey(create, nocreate, i) != key {
      NoPreimageBetween(create, nocreate, key, q' - 1, i);
    }
    FoundFurther(create, nocreate, last, key, s, s');
  }

  lemma {:induction false} FoundFurther(create: nat, nocreate: nat, last: nat, key: nat, s: Scan, s': Scan)
    requires create + nocreate > 0
    requires FoundBelow(create, nocreate, last, key, s) && s.index < s'.index
    requires s'.hits == if Hit(create, nocreate, last, key, s.index) then s.hits + [s.index] else s.hits
    requires forall i: nat :: s.index < i < s'.index ==> MutationKey(create, nocreate, i) != key
    ensures FoundBelow(create, nocreate, last, key, s')
  {
    forall i: nat
      ensures i in s'.hits <==> i < s'.index && i <= last && MutationKey(create, nocreate, i) == key
    {
      assert i in s'.hits <==> i in s.hits || (i == s.index && Hit(create, nocreate, last, key, s.index));
    }
  }

  // ----- the window

  lemma {:induction false} BeforeWindow(create: nat, nocreate: nat, last: nat, key: nat, start: int)
    requires create >= 1 && (nocreate >= 1 || key > last)
    requires var s := ScanCentre(create, nocreate, key) - nocreate * nocreate;
      start == if s < 0 then 0 else s
    ensures forall i: nat :: i < start && i <= last ==> MutationKey(create, nocreate, i) != key
  {
    forall i: nat | i < start && i <= last ensures MutationKey(create, nocreate, i) != key {
      if nocreate == 0 {
        KeyIsIndex(create, i);
      } else if MutationKey(create, nocreate, i) == key {
        PreimageInWindow(create, nocreate, i, key);
      }
    }
  }

  lemma {:induction false} AfterWindow(create: nat, nocreate: nat, last: nat, key: nat, end: int)
    requires create >= 1 && (nocreate >= 1 || key > last)
    requires end > ScanCentre(create, nocreate, key) + nocreate * nocreate
    ensures forall i: nat :: i >= end && i <= last ==> MutationKey(create, nocreate, i) != key
  {
    forall i: nat | i >= end && i <= last ensures MutationKey(create, nocreate, i) != key {
      if nocreate == 0 {
        KeyIsIndex(create, i);
      } else if MutationKey(create, nocreate, i) == key {
        PreimageInWindow(create, nocreate, i, key);
      }
    }
  }

  // ----- when the scan ends

  datatype Scan = Scan(index: int, incr: int, hits: seq<nat>)

  /** One turn of the scanning loop. */
  function ScanStep(create: nat, nocreate: nat, last: nat, key: nat, s: Scan): Scan
    requires create + nocreate > 0
  {
    if Hit(create, nocreate, last, key, s.index)
    then Scan(s.index + nocreate, nocreate, s.hits + [s.index])
    else s.(index := s.index + s.incr)
  }

  function ScanStart(create: nat, nocreate: nat, key: nat): nat
    requires create > 0
  {
    var start := ScanCentre(create, nocreate, key) - nocreate * nocreate;
    if start < 0 then 0 else start
  }

  function ScanAfter(create: nat, nocreate: nat, last: nat, key: nat, turns: nat): Scan
    requires create > 0
  {
    if turns == 0 then Scan(ScanStart(create, nocreate, key), 1, [])
    else ScanStep(create, nocreate, last, key, ScanAfter(create, nocreate, last, key, turns - 1))
  }

  /** The loop condition is false after some turn. */
  ghost predicate ScanEnds(create: nat, nocreate: nat, last: nat, key: nat)
    requires create > 0
  {
    exists turns: nat ::
      ScanAfter(create, nocreate, last, key, turns).index > ScanCentre(create, nocreate, key) + nocreate * nocreate
  }

  /** What has been found when the loop ends. */
  ghost predicate ScanFinds(create: nat, nocreate: nat, last: nat, key: nat, hits: seq<nat>)
    requires create > 0
  {
    exists turns: nat :: var s := ScanAfter(create, nocreate, last, key, turns);
      s.index > ScanCentre(create, nocreate, key) + nocreate * nocreate && s.hits == hits
  }

  /** With nothing but creating mutations the scan for a written key never ends: after any
      number of turns it stands on the same hit, with the loop condition still true. */
  lemma {:induction false} ScanDivergesWithoutRewrites(create: nat, last: nat, key: nat, turns: nat)
    requires create >= 1 && key <= last
    ensures ScanAfter(create, 0, last, key, turns).index == key <= ScanCentre(create, 0, key)
    ensures |ScanAfter(create, 0, last, key, turns).hits| == turns
  {
    DivIs(create, key, 0);
    KeyIsIndex(create, key);
    if turns > 0 {
      ScanDivergesWithoutRewrites(create, last, key, turns - 1);
    }
  }

  lemma {:induction false} KeyIsIndex(create: nat, index: nat)
    requires create >= 1
    ensures MutationKey(create, 0, index) == index
  {
  }

  /** Otherwise every turn goes on by at least one index. */
  lemma {:induction false} ScanAdvances(create: nat, nocreate: nat, last: nat, key: nat, turns: nat)
    requires create >= 1 && (nocreate >= 1 || key > last)
    ensures var s := ScanAfter(create, nocreate, last, key, turns);
      s.index >= turns && s.incr >= 1
  {
    if turns > 0 {
      var before := ScanAfter(create, nocreate, last, key, turns - 1);
      ScanAdvances(create, nocreate, last, key, turns - 1);
      if nocreate == 0 && before.index <= last {
        KeyIsIndex(create, before.index);
      }
    }
  }

  /** The scan ends if and only if some mutations rewrite keys, or the key has not been written. */
  lemma {:induction false} ScanEndsIff(create: nat, nocreate: nat, last: nat, key: nat)
    requires create >= 1
    ensures ScanEnds(create, nocreate, last, key) <==> nocreate >= 1 || key > last
  {
    if nocreate >= 1 || key > last {
      var turns: nat := ScanCentre(create, nocreate, key) + nocreate * nocreate + 1;
      ScanAdvances(create, nocreate, last, key, turns);
    } else {
      forall turns: nat
        ensures ScanAfter(create, nocreate, last, key, turns).index <= ScanCentre(create, nocreate, key) + nocreate * nocreate
      {
        ScanDivergesWithoutRewrites(create, last, key, turns);
      }
    }
  }

  /** The scan after a set is made, for the key just written, if and only if both shares are
      positive; with no creating mutation its centre is not defined. */
  lemma {:induction false} OwnScanEndsIff(create: nat, nocreate: nat, index: nat)
    requires create + nocreate > 0
    ensures create > 0 && ScanEnds(create, nocreate, index, MutationKey(create, nocreate, index))
            <==> create >= 1 && nocreate >= 1
  {
    if create > 0 {
      ScanEndsIff(create, nocreate, index, MutationKey(create, nocreate, index));
    }
  }
}
