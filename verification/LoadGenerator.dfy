/** The load thread: a run of set and get operations against a key-value server, in which every
    get is checked against the value the thread predicts from its own counters. */
module LoadGenerator {
  import opened Arithmetic
  import opened MutationKeys
  import Decimal

  datatype Operation = SetOp | GetOp | OtherOp

  /** What a call to the server did. A call that raises MemcachedError may have been applied. */
  datatype Outcome = Done | Raised(applied: bool)

  datatype StopReason = ItemsLimit | OperationsLimit | SizeLimit | Interrupted

  /** The fixed parameters of a thread. `uuid` stands for `str(uuid3(..))`, a limit of 0 means none. */
  datatype Config = Config(
    create: nat, nocreate: nat,
    operations: seq<Operation>, sizes: seq<nat>,
    cacheData: bool, uuid: nat -> string,
    limitItems: nat, limitOperations: nat, limitSize: nat)
  {
    /** A thread can be made: both sequences are cycled through, and indexes have keys. */
    ghost predicate Legal() {
      create + nocreate > 0 && |operations| > 0 && |sizes| > 0
    }

    /** See `RunsAreDefinedIff`. */
    ghost predicate Ok() {
      create >= 1 && nocreate >= 1 && |operations| > 0 && !operations[0].GetOp? && |sizes| > 0
    }

    function Key(index: nat): nat
      requires create + nocreate > 0
    {
      MutationKey(create, nocreate, index)
    }

    /** The operations are cycled through, one further with every success. */
    function OperationAt(m: nat, g: nat): Operation
      requires |operations| > 0
    {
      operations[(m + g) % |operations|]
    }

    function Latest(key: nat, bound: nat): Write
      requires create + nocreate > 0
    {
      LatestBefore(create, nocreate, key, bound)
    }

    function Size(index: nat): nat
      requires |sizes| > 0
    {
      DataSize(sizes, index)
    }

    /** The generated part of a value: the text of the uuid repeated and cut to size. */
    function Filler(index: nat): string
      requires |sizes| > 0
    {
      var s := Repeat(uuid(index), 1 + Size(index) / 36);
      if Size(index) <= |s| then s[..Size(index)] else s
    }
  }

  function Repeat(s: string, times: nat): (r: string)
    ensures |r| == times * |s|
  {
    if times == 0 then [] else Repeat(s, times - 1) + s
  }

  lemma {:induction false} RepeatAt(s: string, times: nat, q: nat, r: nat)
    requires r < |s| && q < times
    ensures q * |s| + r < times * |s| && Repeat(s, times)[q * |s| + r] == s[r]
  {
    var n := times - 1;
    assert times * |s| == n * |s| + |s|;
    if q < n {
      RepeatAt(s, n, q, r);
    }
  }

  /** A text is `size` characters of an identifier that is repeated as often as it takes. */
  ghost predicate Repeats(text: string, id: string, size: nat) {
    |text| == size && |id| > 0 && forall j :: 0 <= j < |text| ==> text[j] == id[j % |id|]
  }

  lemma {:induction false} FillerRepeats(cfg: Config, index: nat)
    requires |cfg.sizes| > 0 && |cfg.uuid(index)| == 36
    ensures Repeats(cfg.Filler(index), cfg.uuid(index), cfg.sizes[index % |cfg.sizes|])
  {
    var id, size := cfg.uuid(index), cfg.Size(index);
    var text := cfg.Filler(index);
    forall j | 0 <= j < |text| ensures text[j] == id[j % |id|] {
      RepeatAt(id, 1 + size / 36, j / 36, j % 36);
    }
  }

  type Cache = map<nat, string>

  ghost predicate Cached(cfg: Config, cache: Cache, index: nat)
    requires cfg.Ok()
  {
    cfg.cacheData ==> cfg.Size(index) in cache
  }

  /** The value of the mutation at `index`. */
  ghost function DataAt(cfg: Config, cache: Cache, index: nat): string
    requires cfg.Ok() && Cached(cfg, cache, index)
  {
    if cfg.cacheData then Decimal.ToText(index) + cache[cfg.Size(index)] else cfg.Filler(index)
  }

  /** Every cached filler has its size, when the texts it is cut from have 36 characters. */
  ghost predicate CacheIsSized(cache: Cache) {
    forall v :: v in cache ==> |cache[v]| == v
  }

  /** The announced size of a mutation is the length of its value exactly when values are not
      cached: a cached value carries its index in front. */
  lemma {:induction false} AnnouncedSizeIffUncached(cfg: Config, cache: Cache, index: nat)
    requires cfg.Ok() && Cached(cfg, cache, index) && CacheIsSized(cache)
    requires |cfg.uuid(index)| == 36
    ensures |DataAt(cfg, cache, index)| == cfg.Size(index) <==> !cfg.cacheData
  {
    FillerSize(cfg, index);
  }

  lemma {:induction false} FillerSize(cfg: Config, index: nat)
    requires cfg.Ok() && |cfg.uuid(index)| == 36
    ensures |cfg.Filler(index)| == cfg.Size(index)
  {
  }

  /** A set the server has acknowledged. */
  datatype Put = Put(key: nat, value: string)

  /** The value of the latest put to `key`. */
  ghost function LatestValue(history: seq<Put>, key: nat): Decimal.Option<string> {
    if history == [] then Decimal.None
    else if history[|history| - 1].key == key then Decimal.Some(history[|history| - 1].value)
    else LatestValue(history[..|history| - 1], key)
  }

  /** The server holds the latest acknowledged value of every key, and nothing else; only the
      key of a set that raised may already hold the value of that set. */
  ghost predicate StoreIsCurrent(db: map<nat, string>, history: seq<Put>, pending: Decimal.Option<Put>) {
    forall k: nat ::
      || (if k in db then LatestValue(history, k) == Decimal.Some(db[k]) else LatestValue(history, k).None?)
      || (pending.Some? && k == pending.value.key && k in db && db[k] == pending.value.value)
  }

  /** Put number `i` was the mutation at index `i`. */
  ghost predicate IsHistory(cfg: Config, cache: Cache, history: seq<Put>)
    requires cfg.Ok()
  {
    forall i :: 0 <= i < |history| ==> IsPut(cfg, cache, i, history[i])
  }

  ghost predicate IsPut(cfg: Config, cache: Cache, index: nat, put: Put)
    requires cfg.Ok()
  {
    Cached(cfg, cache, index) && put == Put(cfg.Key(index), DataAt(cfg, cache, index))
  }

  ghost predicate Extends(cache: Cache, cache': Cache) {
    forall v :: v in cache ==> v in cache' && cache'[v] == cache[v]
  }

  /** A larger cache changes no value already written. */
  lemma {:induction false} PutUnderLargerCache(cfg: Config, cache: Cache, cache': Cache, index: nat, put: Put)
    requires cfg.Ok() && Extends(cache, cache') && IsPut(cfg, cache, index, put)
    ensures IsPut(cfg, cache', index, put)
  {
  }

  lemma {:induction false} HistoryUnderLargerCache(cfg: Config, cache: Cache, cache': Cache, history: seq<Put>)
    requires cfg.Ok() && Extends(cache, cache') && IsHistory(cfg, cache, history)
    ensures IsHistory(cfg, cache', history)
  {
    forall i | 0 <= i < |history| ensures IsPut(cfg, cache', i, history[i]) {
      PutUnderLargerCache(cfg, cache, cache', i, history[i]);
    }
  }

  lemma {:induction false} StoreAfterPut(db: map<nat, string>, history: seq<Put>, pending: Decimal.Option<Put>, put: Put)
    requires StoreIsCurrent(db, history, pending)
    requires pending.Some? ==> pending.value.key == put.key
    ensures StoreIsCurrent(db[put.key := put.value], history, Decimal.Some(put))
    ensures StoreIsCurrent(db[put.key := put.value], history + [put], Decimal.None)
  {
    assert (history + [put])[..|history|] == history;
  }

  /** The latest value of a key is that of the latest mutation index mapped to it. */
  lemma {:induction false} LatestPutIsLatestIndex(cfg: Config, cache: Cache, history: seq<Put>, key: nat)
    requires cfg.Ok() && IsHistory(cfg, cache, history)
    ensures var w := cfg.Latest(key, |history|);
      LatestValue(history, key) == if w.At? then Decimal.Some(history[w.index].value) else Decimal.None
  {
    if history != [] {
      var n := |history| - 1;
      assert IsPut(cfg, cache, n, history[n]);
      LatestPutIsLatestIndex(cfg, cache, history[..n], key);
    }
  }

  /** Every key below the next one has been put, and its latest put is the last of all indexes up
      to and including the next that are mapped to it. */
  lemma {:induction false} ReadYourWrites(cfg: Config, cache: Cache, history: seq<Put>, key: nat, hits: seq<nat>)
    requires cfg.Ok() && IsHistory(cfg, cache, history)
    requires key < cfg.Key(|history|)
    requires IsPreimage(cfg.create, cfg.nocreate, |history|, key, hits)
    ensures hits != [] && hits[|hits| - 1] < |history|
    ensures LatestValue(history, key) == Decimal.Some(history[hits[|hits| - 1]].value)
  {
    var m := |history|;
    SmallerKeyWritten(cfg.create, cfg.nocreate, m, key);
    LatestPutIsLatestIndex(cfg, cache, history, key);
    LastHit(cfg, m, key, hits);
  }

  lemma {:induction false} LastHit(cfg: Config, bound: nat, key: nat, hits: seq<nat>)
    requires cfg.Ok() && key < cfg.Key(bound)
    requires IsPreimage(cfg.create, cfg.nocreate, bound, key, hits)
    requires cfg.Latest(key, bound).At?
    ensures hits != [] && hits[|hits| - 1] == cfg.Latest(key, bound).index
  {
    var latest := cfg.Latest(key, bound).index;
    assert latest in hits;
    LastIsMax(hits, latest);
    assert hits[|hits| - 1] in hits;
  }

  /** The mutation and get indexes after some operations: an operation that raises is repeated. */
  ghost function Progress(cfg: Config, m: nat, g: nat, outcomes: seq<Outcome>): (nat, nat)
    requires cfg.operations != []
    decreases |outcomes|
  {
    if outcomes == [] then (m, g)
    else
      var (a, b) := Progress(cfg, m, g, outcomes[..|outcomes| - 1]);
      NextIndexes(cfg, a, b, outcomes[|outcomes| - 1])
  }

  ghost function NextIndexes(cfg: Config, m: nat, g: nat, outcome: Outcome): (nat, nat)
    requires cfg.operations != []
  {
    var operation := cfg.OperationAt(m, g);
    if outcome.Raised? then (m, g)
    else if operation.SetOp? then (m + 1, g)
    else if operation.GetOp? then (m, g + 1)
    else (m, g)
  }

  lemma {:induction false} ProgressNext(cfg: Config, m: nat, g: nat, outcomes: seq<Outcome>, t: nat)
    requires cfg.operations != [] && t < |outcomes|
    ensures var (a, b) := Progress(cfg, m, g, outcomes[..t]);
      Progress(cfg, m, g, outcomes[..t + 1]) == NextIndexes(cfg, a, b, outcomes[t])
  {
    assert outcomes[..t + 1][..t] == outcomes[..t];
  }

  /** The scan for the indexes of a key, made after `last`: its centre is a quotient by the
      creating share, and its loop has to end. */
  ghost predicate ScanDefined(cfg: Config, last: nat, key: nat)
    requires cfg.Legal()
  {
    cfg.create > 0 && ScanEnds(cfg.create, cfg.nocreate, last, key)
  }

  /** A turn at these indexes neither divides by 0 nor goes on for ever. */
  ghost predicate TurnDefined(cfg: Config, m: nat, g: nat, outcome: Outcome)
    requires cfg.Legal()
  {
    match cfg.OperationAt(m, g)
    case SetOp => outcome.Done? ==> ScanDefined(cfg, m, cfg.Key(m))
    case GetOp => cfg.Key(m) > 0 && (outcome.Done? ==> ScanDefined(cfg, m, g % cfg.Key(m)))
    case OtherOp => true
  }

  ghost predicate NextTurnDefined(cfg: Config, outcomes: seq<Outcome>, outcome: Outcome)
    requires cfg.Legal()
  {
    var (m, g) := Progress(cfg, 0, 0, outcomes);
    TurnDefined(cfg, m, g, outcome)
  }

  /** Every turn of every run of a new thread is defined if and only if the cycle starts with a
      set and both shares are positive, or it starts with neither a set nor a get, where the
      thread never leaves its first operation. */
  lemma {:induction false} RunsAreDefinedIff(cfg: Config)
    requires cfg.Legal()
    ensures (forall outcomes: seq<Outcome>, outcome: Outcome :: NextTurnDefined(cfg, outcomes, outcome))
            <==> cfg.operations[0].OtherOp? || (cfg.operations[0].SetOp? && cfg.create >= 1 && cfg.nocreate >= 1)
  {
    DivIs(|cfg.operations|, 0, 0);
    if cfg.operations[0].OtherOp? || (cfg.operations[0].SetOp? && cfg.create >= 1 && cfg.nocreate >= 1) {
      forall outcomes: seq<Outcome>, outcome: Outcome ensures NextTurnDefined(cfg, outcomes, outcome) {
        SetsComeFirst(cfg, outcomes);
        var (m, g) := Progress(cfg, 0, 0, outcomes);
        TurnIsDefined(cfg, m, g, outcome);
      }
    } else {
      OwnScanEndsIff(cfg.create, cfg.nocreate, 0);
      assert !NextTurnDefined(cfg, [], Done);
    }
  }

  /** No get succeeds before the first set. */
  lemma {:induction false} SetsComeFirst(cfg: Config, outcomes: seq<Outcome>)
    requires cfg.Legal() && !cfg.operations[0].GetOp?
    ensures var (m, g) := Progress(cfg, 0, 0, outcomes);
      (m == 0 ==> g == 0) && (cfg.operations[0].OtherOp? ==> m == 0)
    decreases |outcomes|
  {
    if outcomes != [] {
      SetsComeFirst(cfg, outcomes[..|outcomes| - 1]);
      DivIs(|cfg.operations|, 0, 0);
    }
  }

  lemma {:induction false} TurnIsDefined(cfg: Config, m: nat, g: nat, outcome: Outcome)
    requires cfg.Legal() && (m == 0 ==> g == 0)
    requires if cfg.operations[0].OtherOp? then m == 0
             else cfg.operations[0].SetOp? && cfg.create >= 1 && cfg.nocreate >= 1
    ensures TurnDefined(cfg, m, g, outcome)
  {
    DivIs(|cfg.operations|, 0, 0);
    if m > 0 {
      KeyIsPositive(cfg.create, cfg.nocreate, m);
      ScanEndsIff(cfg.create, cfg.nocreate, m, cfg.Key(m));
      ScanEndsIff(cfg.create, cfg.nocreate, m, g % cfg.Key(m));
    } else if cfg.operations[0].SetOp? {
      ScanEndsIff(cfg.create, cfg.nocreate, m, cfg.Key(m));
    }
  }

  // ----- the cycle of operations

  function DoneCount(outcomes: seq<Outcome>): nat {
    if outcomes == [] then 0
    else DoneCount(outcomes[..|outcomes| - 1]) + (if outcomes[|outcomes| - 1].Done? then 1 else 0)
  }

  /** With sets and gets only, the operations that have succeeded are counted by the indexes. */
  lemma {:induction false} IndexesCount(cfg: Config, outcomes: seq<Outcome>)
    requires cfg.Legal() && forall i :: 0 <= i < |cfg.operations| ==> !cfg.operations[i].OtherOp?
    ensures var (m, g) := Progress(cfg, 0, 0, outcomes); m + g == DoneCount(outcomes)
    decreases |outcomes|
  {
    if outcomes != [] {
      IndexesCount(cfg, outcomes[..|outcomes| - 1]);
    }
  }

  /** And the next operation is the one of the cycle that many successes after its start. */
  lemma {:induction false} OperationsCycle(cfg: Config, outcomes: seq<Outcome>, q: nat, r: nat)
    requires cfg.Legal() && forall i :: 0 <= i < |cfg.operations| ==> !cfg.operations[i].OtherOp?
    requires r < |cfg.operations| && DoneCount(outcomes) == q * |cfg.operations| + r
    ensures var (m, g) := Progress(cfg, 0, 0, outcomes);
      cfg.OperationAt(m, g) == cfg.operations[r] &&
      Progress(cfg, 0, 0, outcomes + [Done]) == if cfg.operations[r].SetOp? then (m + 1, g) else (m, g + 1)
  {
    IndexesCount(cfg, outcomes);
    DivIs(|cfg.operations|, q, r);
    assert (outcomes + [Done])[..|outcomes|] == outcomes;
  }

  // ----- the limits

  /** More items or operations than the configured limits; a limit of 0 is none. */
  ghost predicate OverItems(cfg: Config, m: nat)
    requires cfg.Legal()
  {
    cfg.limitItems > 0 && m > 0 && MaxKey(cfg.create, cfg.nocreate, m) > cfg.limitItems
  }

  ghost predicate OverOperations(cfg: Config, m: nat, g: nat) {
    cfg.limitOperations > 0 && m + g > cfg.limitOperations
  }

  /** Neither limit was exceeded before any of the first turns. */
  ghost predicate WithinLimits(cfg: Config, m: nat, g: nat, outcomes: seq<Outcome>, turns: nat)
    requires cfg.Legal() && turns <= |outcomes|
  {
    forall t :: 0 <= t < turns ==>
      var (a, b) := Progress(cfg, m, g, outcomes[..t]); !OverItems(cfg, a) && !OverOperations(cfg, a, b)
  }

  class LoadThread {
    const cfg: Config

    var mutationIndex: nat
    var getIndex: nat
    var valueFailures: nat
    var backoff: int
    var mutationIndexMax: nat
    var items: nat
    var operations: nat
    var size: int
    var dataCache: Cache
    /** The thread has died on a value it did not expect. */
    var crashed: bool
    /** The contents of the server, for the keys of this thread. */
    var db: map<nat, string>
    /** The sets the server has acknowledged, oldest first. */
    ghost var history: seq<Put>
    /** The last set, if it raised after being applied. */
    ghost var pending: Decimal.Option<Put>

    ghost predicate CountersOk()
      requires cfg.Ok()
      reads this
    {
      && (mutationIndex == 0 ==> getIndex == 0)
      && operations == mutationIndex + getIndex
      && backoff <= 31
      && size == 0
      && items == mutationIndexMax
      && mutationIndexMax == (if mutationIndex == 0 then 0 else MaxKey(cfg.create, cfg.nocreate, mutationIndex))
    }

    ghost predicate StoreOk()
      requires cfg.Ok()
      reads this
    {
      && |history| == mutationIndex && IsHistory(cfg, dataCache, history)
      && (pending.Some? ==> pending.value.key == cfg.Key(mutationIndex))
      && StoreIsCurrent(db, history, pending)
    }

    /** The state of the thread and of the server between two operations. */
    ghost predicate Valid()
      reads this
    {
      cfg.Ok() && !crashed && valueFailures == 0 && CountersOk() && StoreOk()
    }

    constructor (cfg: Config)
      requires cfg.Legal()
      ensures this.cfg == cfg && (cfg.Ok() ==> Valid())
      ensures mutationIndex == getIndex == 0 && db == map[] && history == []
    {
      this.cfg := cfg;
      mutationIndex, getIndex, valueFailures, backoff := 0, 0, 0, 0;
      mutationIndexMax, items, operations, size := 0, 0, 0, 0;
      dataCache, db, crashed, history, pending := map[], map[], false, [], Decimal.None;
    }

    function GetOperation(): Operation
      requires cfg.Ok()
      reads this
    {
      cfg.OperationAt(mutationIndex, getIndex)
    }

    /** get index -> key, over the keys below the one written next. */
    function GetKey(): (key: nat)
      requires cfg.Ok() && cfg.Key(mutationIndex) > 0
      reads this
      ensures key < cfg.Key(mutationIndex)
    {
      getIndex % cfg.Key(mutationIndex)
    }

    /** Inverts the key map by scanning a window around a computed centre, one index at a time
        up to the first hit and `nocreate` indexes at a time after it. Where the scan ends, it
        finds exactly the indexes of the key. */
    method GetMutationIndexes(key: nat) returns (hits: seq<nat>)
      requires cfg.create >= 1 && (cfg.nocreate >= 1 || key > mutationIndex)
      ensures IsPreimage(cfg.create, cfg.nocreate, mutationIndex, key, hits)
      ensures ScanFinds(cfg.create, cfg.nocreate, mutationIndex, key, hits)
    {
      var c, n := cfg.create, cfg.nocreate;
      var s: int := ScanCentre(c, n, key);
      hits := [];
      var index := s - n * n;
      if index < 0 {
        index := 0;
      }
      var indexMax := s + n * n;
      var incr := 1;
      ghost var q: nat, turns: nat := 0, 0;
      BeforeWindow(c, n, mutationIndex, key, index);
      while index <= indexMax
        invariant Scan(index, incr, hits) == ScanAfter(c, n, mutationIndex, key, turns)
        invariant FoundBelow(c, n, mutationIndex, key, Scan(index, incr, hits))
        invariant Strides(n, key, Scan(index, incr, hits), q)
        decreases indexMax - index
      {
        q := StepFinds(c, n, mutationIndex, key, Scan(index, incr, hits), q);
        if index >= 0 && index <= mutationIndex && MutationKey(c, n, index) == key {
          incr := n;
          hits := hits + [index];
        }
        index := index + incr;
        turns := turns + 1;
      }
      AfterWindow(c, n, mutationIndex, key, index);
    }

    /** The value of the mutation at `index`; with caching the filler of a size is the one
        generated when that size was first needed. */
    method GetData(index: nat) returns (data: string)
      requires cfg.Ok()
      modifies this`dataCache
      ensures Cached(cfg, dataCache, index) && data == DataAt(cfg, dataCache, index)
      ensures Extends(old(dataCache), dataCache)
      ensures !cfg.cacheData ==> dataCache == old(dataCache)
      ensures CacheIsSized(old(dataCache)) && |cfg.uuid(index)| == 36 ==> CacheIsSized(dataCache)
      ensures var size := cfg.sizes[index % |cfg.sizes|];
        && (cfg.cacheData ==> size in dataCache && data == Decimal.ToText(index) + dataCache[size])
        && (cfg.cacheData && size !in old(dataCache) && |cfg.uuid(index)| == 36 ==>
              Repeats(dataCache[size], cfg.uuid(index), size))
        && (!cfg.cacheData && |cfg.uuid(index)| == 36 ==> Repeats(data, cfg.uuid(index), size))
    {
      var valuesize := cfg.Size(index);
      if |cfg.uuid(index)| == 36 {
        FillerRepeats(cfg, index);
      }
      if cfg.cacheData {
        if valuesize !in dataCache {
          dataCache := dataCache[valuesize := cfg.Filler(index)];
        }
        data := Decimal.ToText(index) + dataCache[valuesize];
      } else {
        data := cfg.Filler(index);
      }
    }

    method Backoff()
      requires backoff <= 31
      modifies this`backoff
      ensures 1 <= backoff <= 31
    {
      if backoff < 0 {
        backoff := 0;
      }
      if backoff > 30 {
        backoff := 30;
      }
      backoff := backoff + 1;
    }

    /** One set: on success the counters advance; when the call raises only the server may have
        changed, and the same set is tried again. */
    method DoSet(outcome: Outcome)
      requires Valid() && GetOperation() == SetOp
      modifies this
      ensures Valid()
      ensures getIndex == old(getIndex)
      ensures mutationIndex == old(mutationIndex) + (if outcome.Done? then 1 else 0)
      ensures outcome.Raised? ==> history == old(history) && mutationIndex == old(mutationIndex)
      ensures outcome.Done? ==> |history| == |old(history)| + 1 && history[..|old(history)|] == old(history)
    {
      SendSet(outcome);
      if outcome.Raised? {
        Backoff();
      } else {
        AfterSet();
      }
    }

    /** The call to the server. */
    method SendSet(outcome: Outcome)
      requires cfg.Ok() && StoreOk()
      modifies this`dataCache, this`db, this`history, this`pending
      ensures outcome.Raised? ==> StoreOk() && history == old(history)
      ensures outcome.Done? ==>
                && |history| == mutationIndex + 1 && history[..mutationIndex] == old(history)
                && IsHistory(cfg, dataCache, history) && StoreIsCurrent(db, history, pending) && pending.None?
    {
      var key := cfg.Key(mutationIndex);
      var data := GetData(mutationIndex);
      HistoryUnderLargerCache(cfg, old(dataCache), dataCache, history);
      StoreAfterPut(db, history, pending, Put(key, data));
      if outcome.Done? || outcome.applied {
        db := db[key := data];
        pending := Decimal.Some(Put(key, data));
      }
      if outcome.Done? {
        history, pending := history + [Put(key, data)], Decimal.None;
      }
    }

    /** The accounting after a successful set. */
    method AfterSet()
      requires cfg.Ok() && CountersOk()
      modifies this`operations, this`backoff, this`mutationIndexMax, this`items, this`size, this`mutationIndex
      ensures CountersOk()
      ensures mutationIndex == old(mutationIndex) + 1
      ensures old(mutationIndexMax) <= mutationIndexMax <= old(mutationIndexMax) + 1
    {
      var key := cfg.Key(mutationIndex);
      operations := operations + 1;
      backoff := backoff - 1;
      NewMaximum(cfg, mutationIndex);
      if key > mutationIndexMax {
        mutationIndexMax := key;
        items := items + 1;
      }
      var prevIndexes := GetMutationIndexes(key);
      CurrentIsLast(cfg, mutationIndex, prevIndexes);
      var prevSize := 0;
      if prevIndexes != [] {
        prevSize := cfg.Size(prevIndexes[|prevIndexes| - 1]);
      }
      size := size + cfg.Size(mutationIndex) - prevSize;
      mutationIndex := mutationIndex + 1;
    }

    /** The value predicted for a key below the next one is the one the server holds. */
    method Expected(key: nat) returns (expected: string)
      requires cfg.Ok() && StoreOk() && key < cfg.Key(mutationIndex)
      modifies this`dataCache
      ensures StoreOk()
      ensures LatestValue(history, key) == Decimal.Some(expected)
      ensures key in db && db[key] == expected
    {
      var indexes := GetMutationIndexes(key);
      ReadYourWrites(cfg, dataCache, history, key, indexes);
      var last := indexes[|indexes| - 1];
      expected := GetData(last);
      HistoryUnderLargerCache(cfg, old(dataCache), dataCache, history);
      assert IsPut(cfg, dataCache, last, history[last]);
    }

    /** One get: it asks for a key that has been set, and finds the value of the latest set. */
    method DoGet(outcome: Outcome) returns (key: nat, data: string)
      requires Valid() && GetOperation() == GetOp
      modifies this`dataCache, this`operations, this`backoff, this`valueFailures, this`crashed, this`getIndex
      ensures Valid()
      ensures getIndex == old(getIndex) + (if outcome.Done? then 1 else 0)
      ensures cfg.Key(mutationIndex) > 0 && key == old(getIndex) % cfg.Key(mutationIndex)
      ensures outcome.Done? ==> key in db && data == db[key] && LatestValue(history, key) == Decimal.Some(data)
    {
      GetIsDefined();
      key, data := GetKey(), "";
      if outcome.Raised? {
        Backoff();
        return;
      }
      data := Compare(key);
      AfterGet();
    }

    /** The accounting after a successful get. */
    method AfterGet()
      requires cfg.Ok() && CountersOk() && mutationIndex > 0
      modifies this`operations, this`backoff, this`getIndex
      ensures CountersOk()
      ensures getIndex == old(getIndex) + 1
    {
      operations := operations + 1;
      backoff := backoff - 1;
      getIndex := getIndex + 1;
    }

    /** Fetches a value and compares it with the predicted one; a difference ends the thread. */
    method Compare(key: nat) returns (data: string)
      requires cfg.Ok() && StoreOk() && !crashed && valueFailures == 0 && key < cfg.Key(mutationIndex)
      modifies this`dataCache, this`valueFailures, this`crashed
      ensures StoreOk() && !crashed && valueFailures == 0
      ensures key in db && data == db[key] && LatestValue(history, key) == Decimal.Some(data)
    {
      var expected := Expected(key);
      data := db[key];
      var mismatch := data != expected;
      valueFailures := valueFailures + (if mismatch then 1 else 0);
      crashed := mismatch;
    }

    /** The first operation of the cycle is not a get, so a get has a mutation before it, and there
        is a key to ask for. */
    lemma {:induction false} GetIsDefined()
      requires Valid() && GetOperation() == GetOp
      ensures mutationIndex > 0 && cfg.Key(mutationIndex) > 0
    {
      DivIs(|cfg.operations|, 0, 0);
      if mutationIndex > 0 {
        KeyIsPositive(cfg.create, cfg.nocreate, mutationIndex);
      }
    }

    /** One operation of the cycle. */
    method Turn(outcome: Outcome)
      requires Valid()
      modifies this
      ensures Valid() && old(history) <= history
      ensures (mutationIndex, getIndex) == NextIndexes(cfg, old(mutationIndex), old(getIndex), outcome)
    {
      match GetOperation() {
        case SetOp => DoSet(outcome);
        case GetOp => var _, _ := DoGet(outcome);
        case OtherOp =>
      }
    }

    /** The work of the thread under any behaviour of the server: no value failure, no crash,
        no acknowledged set is lost, the indexes count exactly the successful operations, and the
        size limit is never what ends it. */
    method Run(outcomes: seq<Outcome>) returns (reason: StopReason, turns: nat)
      requires Valid()
      modifies this
      ensures Valid()
      ensures valueFailures == 0 && !crashed
      ensures turns <= |outcomes| && (reason == Interrupted <==> turns == |outcomes|)
      ensures (mutationIndex, getIndex) == Progress(cfg, old(mutationIndex), old(getIndex), outcomes[..turns])
      ensures old(history) <= history
      ensures reason != SizeLimit
      ensures WithinLimits(cfg, old(mutationIndex), old(getIndex), outcomes, turns)
      ensures reason == ItemsLimit ==> OverItems(cfg, mutationIndex)
      ensures reason == OperationsLimit ==> !OverItems(cfg, mutationIndex) && OverOperations(cfg, mutationIndex, getIndex)
    {
      turns := 0;
      while turns < |outcomes|
        invariant turns <= |outcomes|
        invariant Valid()
        invariant (mutationIndex, getIndex) == Progress(cfg, old(mutationIndex), old(getIndex), outcomes[..turns])
        invariant old(history) <= history
        invariant WithinLimits(cfg, old(mutationIndex), old(getIndex), outcomes, turns)
      {
        if cfg.limitItems != 0 && items > cfg.limitItems {
          return ItemsLimit, turns;
        }
        if cfg.limitOperations != 0 && operations > cfg.limitOperations {
          return OperationsLimit, turns;
        }
        if cfg.limitSize != 0 && size > cfg.limitSize {
          return SizeLimit, turns;
        }
        ProgressNext(cfg, old(mutationIndex), old(getIndex), outcomes, turns);
        Turn(outcomes[turns]);
        turns := turns + 1;
      }
      reason := Interrupted;
    }
  }

  /** The last element of an ascending sequence is at least every element of it. */
  lemma {:induction false} LastIsMax(s: seq<nat>, x: nat)
    requires forall a, b :: 0 <= a < b < |s| ==> s[a] < s[b]
    requires x in s
    ensures x <= s[|s| - 1]
  {
  }

  /** The indexes of the current key include the current index itself, so the largest of them
      is the current one. */
  lemma {:induction false} CurrentIsLast(cfg: Config, index: nat, hits: seq<nat>)
    requires cfg.Ok()
    requires IsPreimage(cfg.create, cfg.nocreate, index, cfg.Key(index), hits)
    ensures hits != [] && hits[|hits| - 1] == index
  {
    assert index in hits;
    LastIsMax(hits, index);
    assert hits[|hits| - 1] in hits;
  }

  /** The second-to-largest of them is the mutation being overwritten. */
  lemma {:induction false} SecondToLastIsOverwritten(cfg: Config, index: nat, hits: seq<nat>)
    requires cfg.Ok()
    requires IsPreimage(cfg.create, cfg.nocreate, index, cfg.Key(index), hits)
    ensures cfg.Latest(cfg.Key(index), index) == if |hits| >= 2 then At(hits[|hits| - 2]) else Never
  {
    CurrentIsLast(cfg, index, hits);
    var w := cfg.Latest(cfg.Key(index), index);
    assert w.At? ==> w.index in hits;
    assert |hits| >= 2 ==> hits[|hits| - 2] in hits;
  }

  /** A mutation either stays within the keys written so far or adds the next one. */
  lemma {:induction false} NewMaximum(cfg: Config, index: nat)
    requires cfg.Ok()
    ensures index == 0 ==> cfg.Key(index) == 0 == MaxKey(cfg.create, cfg.nocreate, 1)
    ensures index > 0 ==> var m, k := MaxKey(cfg.create, cfg.nocreate, index), cfg.Key(index);
      MaxKey(cfg.create, cfg.nocreate, index + 1) == (if k > m then k else m) && k <= m + 1
  {
    if index > 0 {
      KeyCoverage(cfg.create, cfg.nocreate, index, 0);
    }
  }

  lemma {:induction false} KeyIsPositive(create: nat, nocreate: nat, index: nat)
    requires create >= 1 && index > 0
    ensures MutationKey(create, nocreate, index) > 0
  {
    RoundForm(create, nocreate, index);
    Scale(create, index / (create + nocreate));
  }
}
