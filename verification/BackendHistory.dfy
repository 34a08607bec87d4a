/** What a get answers, told from the commands and answers before it alone: which write it reads,
    and exactly when it still finds it. */
module BackendHistory {
  import opened DictBackend
  import opened CasTokens

  /** Event `i` was a successful write of `key`. */
  ghost predicate StoredAt(trace: seq<Event>, i: nat, key: string)
    requires i < |trace|
  {
    Writes(trace[i].cmd) && trace[i].cmd.key == key && ReplyTo(trace, i).Stored?
  }

  datatype LastOne = Never | At(index: nat)

  /** The last successful write of a key before event `k`. */
  ghost function LastWrite(trace: seq<Event>, k: nat, key: string): (w: LastOne)
    requires k <= |trace|
    ensures w.At? ==> w.index < k && StoredAt(trace, w.index, key)
    ensures forall m :: (w.At? ==> w.index < m) && 0 <= m < k ==> !StoredAt(trace, m, key)
  {
    if k == 0 then Never
    else if StoredAt(trace, k - 1, key) then At(k - 1)
    else LastWrite(trace, k - 1, key)
  }

  datatype Content = Content(flags: nat, expiry: real, data: string)

  /** What a write leaves under its key: append and prepend extend what the write before them left,
      and keep its flags and its time of expiry. */
  ghost function ContentOf(trace: seq<Event>, i: nat): Content
    requires i < |trace|
    decreases i
  {
    var now := trace[i].now;
    match trace[i].cmd
    case Set(_, flags, exp, data, _) => Content(flags, Expires(now, exp), data)
    case Add(_, flags, exp, data) => Content(flags, Expires(now, exp), data)
    case Replace(_, flags, exp, data) => Content(flags, Expires(now, exp), data)
    case Append(key, data, _) =>
      var w := LastWrite(trace, i, key);
      if w.Never? then Content(0, now, data)
      else var c := ContentOf(trace, w.index); c.(data := c.data + data)
    case Prepend(key, data, _) =>
      var w := LastWrite(trace, i, key);
      if w.Never? then Content(0, now, data)
      else var c := ContentOf(trace, w.index); c.(data := data + c.data)
    case _ => Content(0, now, "")
  }

  ghost predicate HasContent(e: Entry, c: Content) {
    e.flags == c.flags && e.expiry == c.expiry && e.data == c.data
  }

  // ----- the entry of a key is that of the last write

  lemma {:induction false} OriginIsLast(trace: seq<Event>, k: nat, key: string)
    requires k <= |trace| && key in Before(trace, k).storage
    ensures var w := LastWrite(trace, k, key);
      w.At? && UntouchedSince(trace, w.index, k, key, Before(trace, k).storage[key])
  {
    var e := Before(trace, k).storage[key];
    var i := Origin(trace, k, key);
    forall m | i < m < k ensures !StoredAt(trace, m, key) {
      StepHasShape(Before(trace, m), trace[m].now, trace[m].cmd);
      RunIsDistinct(trace, m);
      assert Before(trace, m).storage[key] == e && Before(trace, m + 1).storage[key] == e;
    }
    assert StoredAt(trace, i, key);
    assert LastWrite(trace, k, key) == At(i);
  }

  lemma {:induction false} WriteStores(s: State, now: real, cmd: Command)
    requires Writes(cmd) && Step(s, now, cmd).1.Stored?
    ensures var key, s' := cmd.key, Step(s, now, cmd).0;
      key in s'.storage && var e := s'.storage[key];
      match cmd
      case Set(_, flags, exp, data, _) => HasContent(e, Content(flags, Expires(now, exp), data))
      case Add(_, flags, exp, data) => HasContent(e, Content(flags, Expires(now, exp), data))
      case Replace(_, flags, exp, data) => HasContent(e, Content(flags, Expires(now, exp), data))
      case Append(_, data, _) =>
        key in s.storage && var was := s.storage[key]; HasContent(e, Content(was.flags, was.expiry, was.data + data))
      case Prepend(_, data, _) =>
        key in s.storage && var was := s.storage[key]; HasContent(e, Content(was.flags, was.expiry, data + was.data))
      case _ => true
  {
  }

  lemma {:induction false} ContentStored(trace: seq<Event>, i: nat, key: string)
    requires i < |trace| && StoredAt(trace, i, key)
    ensures key in Before(trace, i + 1).storage && HasContent(Before(trace, i + 1).storage[key], ContentOf(trace, i))
    decreases i
  {
    var s, cmd := Before(trace, i), trace[i].cmd;
    WriteStores(s, trace[i].now, cmd);
    if cmd.Append? || cmd.Prepend? {
      OriginIsLast(trace, i, key);
      ContentStored(trace, LastWrite(trace, i, key).index, key);
    }
  }

  lemma {:induction false} EntryIsLastWrite(trace: seq<Event>, k: nat, key: string)
    requires k <= |trace| && key in Before(trace, k).storage
    ensures var w, e := LastWrite(trace, k, key), Before(trace, k).storage[key];
      w.At? && ReplyTo(trace, w.index) == Stored(e.token) && HasContent(e, ContentOf(trace, w.index))
  {
    OriginIsLast(trace, k, key);
    ContentStored(trace, LastWrite(trace, k, key).index, key);
  }

  // ----- delayed flushes

  lemma {:induction false} RunDueSched(s: State, now: real)
    requires Ascending(s.sched)
    ensures Ascending(RunDue(s, now).sched)
    ensures forall x :: x in RunDue(s, now).sched <==> x in s.sched && x > now
    ensures RunDue(s, now).storage == if s.sched != [] && s.sched[0] <= now then map[] else s.storage
    decreases |s.sched|
  {
    if s.sched != [] {
      assert s.sched == [s.sched[0]] + s.sched[1..];
      if s.sched[0] <= now {
        RunDueSched(State(map[], s.sched[1..], s.nextToken), now);
      } else {
        assert forall i :: 0 <= i < |s.sched| ==> s.sched[0] <= s.sched[i];
      }
    }
  }

  ghost predicate DelayedFlush(trace: seq<Event>, m: nat, due: real)
    requires m < |trace|
  {
    trace[m].cmd.Flush? && trace[m].cmd.delay > 0 && due == trace[m].now + trace[m].cmd.delay as real
  }

  /** The flush of event `m` is still to come when event `k` arrives. */
  ghost predicate Pending(trace: seq<Event>, m: int, k: nat, due: real)
    requires k <= |trace|
  {
    0 <= m < k && DelayedFlush(trace, m, due) && (m == k - 1 || trace[k - 1].now < due)
  }

  lemma {:induction false} SchedAscends(trace: seq<Event>, k: nat)
    requires k <= |trace|
    ensures Ascending(Before(trace, k).sched)
  {
    if k > 0 {
      var p := k - 1;
      SchedAscends(trace, p);
      RunDueSched(Before(trace, p), trace[p].now);
      if trace[p].cmd.Flush? {
        PushKeepsOrder(RunDue(Before(trace, p), trace[p].now).sched, trace[p].now + trace[p].cmd.delay as real);
      }
    }
  }

  lemma {:induction false} SchedStep(trace: seq<Event>, k: nat, due: real)
    requires k < |trace|
    ensures due in Before(trace, k + 1).sched <==>
            (due in Before(trace, k).sched && due > trace[k].now) || DelayedFlush(trace, k, due)
  {
    SchedAscends(trace, k);
    RunDueSched(Before(trace, k), trace[k].now);
  }

  /** The queue holds exactly the flushes still to come. */
  lemma {:induction false} SchedIs(trace: seq<Event>, k: nat, due: real)
    requires k <= |trace| && Timed(trace)
    ensures due in Before(trace, k).sched <==> exists m :: Pending(trace, m, k, due)
  {
    if k > 0 {
      var p := k - 1;
      SchedIs(trace, p, due);
      SchedStep(trace, p, due);
      if due in Before(trace, p).sched && due > trace[p].now {
        var m :| Pending(trace, m, p, due);
        assert Pending(trace, m, k, due);
      } else if DelayedFlush(trace, p, due) {
        assert Pending(trace, p, k, due);
      }
      forall m | Pending(trace, m, k, due) && m != p ensures Pending(trace, m, p, due) {
      }
    }
  }

  /** The flush of event `m` runs when event `j` arrives. */
  ghost predicate Fires(trace: seq<Event>, m: int, j: nat, due: real)
    requires j < |trace|
  {
    Pending(trace, m, j, due) && due <= trace[j].now
  }

  lemma {:induction false} DueStorage(trace: seq<Event>, j: nat)
    requires j < |trace| && Timed(trace)
    ensures RunDue(Before(trace, j), trace[j].now).storage ==
            if exists m, due :: Fires(trace, m, j, due) then map[] else Before(trace, j).storage
  {
    var s, now := Before(trace, j), trace[j].now;
    SchedAscends(trace, j);
    RunDueSched(s, now);
    if s.sched != [] && s.sched[0] <= now {
      SchedIs(trace, j, s.sched[0]);
      var m :| Pending(trace, m, j, s.sched[0]);
      assert Fires(trace, m, j, s.sched[0]);
    }
    forall m, due | Fires(trace, m, j, due) ensures s.sched != [] && s.sched[0] <= now {
      SchedIs(trace, j, due);
    }
  }

  // ----- when the last write is still there

  /** The flush of event `m` empties the storage after event `i`, and not later than event `k`. */
  ghost predicate Empties(trace: seq<Event>, m: nat, i: nat, k: nat)
    requires m < |trace| && i < |trace| && k < |trace|
  {
    trace[m].cmd.Flush? &&
    if trace[m].cmd.delay == 0 then i < m
    else
      var due := trace[m].now + trace[m].cmd.delay as real;
      due <= trace[k].now && !(m < i && due <= trace[i].now)
  }

  ghost predicate DeletedAt(trace: seq<Event>, m: nat, key: string)
    requires m < |trace|
  {
    trace[m].cmd.Delete? && trace[m].cmd.key == key && ReplyTo(trace, m).Raised?
  }

  ghost predicate Survives(trace: seq<Event>, i: nat, k: nat, key: string)
    requires i < |trace| && k < |trace|
  {
    && (forall m :: i < m < k ==> !DeletedAt(trace, m, key))
    && (forall m :: 0 <= m < k ==> !Empties(trace, m, i, k))
  }

  lemma {:induction false} FireEmpties(trace: seq<Event>, m: int, i: nat, k: nat, due: real)
    requires Timed(trace) && i < k < |trace| && Fires(trace, m, k, due)
    ensures 0 <= m < k && Empties(trace, m, i, k)
  {
  }

  lemma {:induction false} NothingFires(trace: seq<Event>, i: nat, k: nat, key: string)
    requires Timed(trace) && i < k < |trace| && Survives(trace, i, k, key)
    ensures RunDue(Before(trace, k), trace[k].now).storage == Before(trace, k).storage
  {
    DueStorage(trace, k);
    forall m, due ensures !Fires(trace, m, k, due) {
      if Fires(trace, m, k, due) {
        FireEmpties(trace, m, i, k, due);
      }
    }
  }

  lemma {:induction false} SurvivesLess(trace: seq<Event>, i: nat, k: nat, key: string)
    requires Timed(trace) && i < k && k + 1 < |trace| && Survives(trace, i, k + 1, key)
    ensures Survives(trace, i, k, key)
  {
    forall m | 0 <= m < k ensures !Empties(trace, m, i, k) {
      assert !Empties(trace, m, i, k + 1);
    }
  }

  /** An unexpired entry outlives every command that does not write, delete or flush it. */
  lemma {:induction false} KeepsEntry(s: State, now: real, cmd: Command, key: string)
    requires key in RunDue(s, now).storage && now < RunDue(s, now).storage[key].expiry
    requires !(Writes(cmd) && cmd.key == key && Step(s, now, cmd).1.Stored?)
    requires !(cmd.Delete? && cmd.key == key && Step(s, now, cmd).1.Raised?)
    requires !(cmd.Flush? && cmd.delay == 0)
    ensures var s' := Step(s, now, cmd).0;
      key in s'.storage && s'.storage[key] == RunDue(s, now).storage[key]
  {
  }

  /** The entry is there when event `k` is handled. */
  ghost predicate ThereAt(trace: seq<Event>, k: nat, key: string, e: Entry)
    requires k < |trace|
  {
    var d := RunDue(Before(trace, k), trace[k].now).storage;
    key in d && d[key] == e
  }

  lemma {:induction false} CarriedOver(trace: seq<Event>, i: nat, p: nat, k: nat, key: string, e: Entry)
    requires Timed(trace) && i < p && p + 1 == k < |trace| && ThereAt(trace, p, key, e) && trace[p].now < e.expiry
    requires !StoredAt(trace, p, key) && Survives(trace, i, k, key)
    ensures ThereAt(trace, k, key, e)
  {
    assert !DeletedAt(trace, p, key) && !Empties(trace, p, i, k);
    KeepsEntry(Before(trace, p), trace[p].now, trace[p].cmd, key);
    NothingFires(trace, i, k, key);
  }

  lemma {:induction false} StillThere(trace: seq<Event>, i: nat, k: nat, key: string, e: Entry)
    requires Timed(trace) && i < k < |trace| && LastWrite(trace, k, key) == At(i)
    requires Survives(trace, i, k, key) && trace[k].now < e.expiry
    requires key in Before(trace, i + 1).storage && Before(trace, i + 1).storage[key] == e
    ensures ThereAt(trace, k, key, e)
    decreases k
  {
    var p := k - 1;
    if i < p {
      SurvivesLess(trace, i, p, key);
      StillThere(trace, i, p, key, e);
      CarriedOver(trace, i, p, k, key, e);
    } else {
      NothingFires(trace, i, k, key);
    }
  }

  /** A delayed flush that empties the storage after event `i` runs at some event after `i`. */
  lemma {:induction false} FindFire(trace: seq<Event>, m: nat, i: nat, k: nat, due: real) returns (j: nat)
    requires Timed(trace) && m < k && i < k < |trace| && DelayedFlush(trace, m, due) && Empties(trace, m, i, k)
    ensures i < j <= k && Fires(trace, m, j, due)
    decreases k
  {
    if m == k - 1 || trace[k - 1].now < due {
      j := k;
    } else {
      j := FindFire(trace, m, i, k - 1, due);
    }
  }

  /** A key that is not there comes back only by a successful write. */
  lemma {:induction false} GoneStep(s: State, now: real, cmd: Command, key: string)
    requires key !in RunDue(s, now).storage
    requires !(Writes(cmd) && cmd.key == key && Step(s, now, cmd).1.Stored?)
    ensures key !in Step(s, now, cmd).0.storage
  {
  }

  lemma {:induction false} GoneOver(trace: seq<Event>, p: nat, k: nat, key: string)
    requires p + 1 == k < |trace| && key !in RunDue(Before(trace, p), trace[p].now).storage && !StoredAt(trace, p, key)
    ensures key !in RunDue(Before(trace, k), trace[k].now).storage
  {
    GoneStep(Before(trace, p), trace[p].now, trace[p].cmd, key);
  }

  lemma {:induction false} StaysGone(trace: seq<Event>, i: nat, j: nat, k: nat, key: string)
    requires i < j <= k < |trace| && LastWrite(trace, k, key) == At(i)
    requires key !in RunDue(Before(trace, j), trace[j].now).storage
    ensures key !in RunDue(Before(trace, k), trace[k].now).storage
    decreases k
  {
    if j < k {
      var p := k - 1;
      StaysGone(trace, i, j, p, key);
      GoneOver(trace, p, k, key);
    }
  }

  lemma {:induction false} RemovedByStep(s: State, now: real, cmd: Command, key: string)
    requires (cmd.Delete? && cmd.key == key && Step(s, now, cmd).1.Raised?) || (cmd.Flush? && cmd.delay == 0)
    ensures key !in Step(s, now, cmd).0.storage
  {
  }

  lemma {:induction false} GoneAfter(trace: seq<Event>, m: nat, j: nat, key: string)
    requires m + 1 == j < |trace| && (DeletedAt(trace, m, key) || (trace[m].cmd.Flush? && trace[m].cmd.delay == 0))
    ensures key !in RunDue(Before(trace, j), trace[j].now).storage
  {
    RemovedByStep(Before(trace, m), trace[m].now, trace[m].cmd, key);
  }

  lemma {:induction false} FiredIsGone(trace: seq<Event>, m: nat, due: real, i: nat, j: nat, k: nat, key: string)
    requires Timed(trace) && i < j <= k < |trace| && LastWrite(trace, k, key) == At(i) && Fires(trace, m, j, due)
    ensures key !in RunDue(Before(trace, k), trace[k].now).storage
  {
    DueStorage(trace, j);
    StaysGone(trace, i, j, k, key);
  }

  lemma {:induction false} EmptiedIsGone(trace: seq<Event>, m: nat, i: nat, k: nat, key: string)
    requires Timed(trace) && i < k < |trace| && m < k && LastWrite(trace, k, key) == At(i)
    requires Empties(trace, m, i, k)
    ensures key !in RunDue(Before(trace, k), trace[k].now).storage
  {
    if trace[m].cmd.delay == 0 {
      var j := m + 1;
      GoneAfter(trace, m, j, key);
      StaysGone(trace, i, j, k, key);
    } else {
      var due := trace[m].now + trace[m].cmd.delay as real;
      var j := FindFire(trace, m, i, k, due);
      FiredIsGone(trace, m, due, i, j, k, key);
    }
  }

  lemma {:induction false} FoundSurvives(trace: seq<Event>, k: nat, key: string)
    requires Timed(trace) && k < |trace| && key in RunDue(Before(trace, k), trace[k].now).storage
    ensures var w := LastWrite(trace, k, key);
      w.At? && Survives(trace, w.index, k, key)
  {
    OriginIsLast(trace, k, key);
    var i := LastWrite(trace, k, key).index;
    forall m | i < m < k ensures !DeletedAt(trace, m, key) {
      if DeletedAt(trace, m, key) {
        var j := m + 1;
        GoneAfter(trace, m, j, key);
        StaysGone(trace, i, j, k, key);
      }
    }
    forall m | 0 <= m < k ensures !Empties(trace, m, i, k) {
      if Empties(trace, m, i, k) {
        EmptiedIsGone(trace, m, i, k, key);
      }
    }
  }

  /** For every run with a clock that does not go back: a get finds its key if and only if there
      is a last successful write of it, which has not expired, and after which the key has not
      been deleted and no flush, at once or delayed, has run. */
  lemma {:induction false} HitIff(trace: seq<Event>, k: nat)
    requires Timed(trace) && k < |trace| && (trace[k].cmd.Get? || trace[k].cmd.GetQ?)
    ensures var key := trace[k].cmd.key;
      var w := LastWrite(trace, k, key);
      ReplyTo(trace, k).Value? <==>
      w.At? && trace[k].now < ContentOf(trace, w.index).expiry && Survives(trace, w.index, k, key)
  {
    var key, s := trace[k].cmd.key, RunDue(Before(trace, k), trace[k].now);
    var w := LastWrite(trace, k, key);
    if key in s.storage {
      FoundSurvives(trace, k, key);
      EntryIsLastWrite(trace, k, key);
    } else if w.At? && trace[k].now < ContentOf(trace, w.index).expiry && Survives(trace, w.index, k, key) {
      ContentStored(trace, w.index, key);
      StillThere(trace, w.index, k, key, Before(trace, w.index + 1).storage[key]);
    }
  }

  /** What it finds is the token, the flags and the data of that write. */
  lemma {:induction false} HitIsLastWrite(trace: seq<Event>, k: nat)
    requires k < |trace| && (trace[k].cmd.Get? || trace[k].cmd.GetQ?) && ReplyTo(trace, k).Value?
    ensures var w, r := LastWrite(trace, k, trace[k].cmd.key), ReplyTo(trace, k);
      w.At? && ReplyTo(trace, w.index) == Stored(r.token)
      && r.flags == ContentOf(trace, w.index).flags && r.data == ContentOf(trace, w.index).data
  {
    var key := trace[k].cmd.key;
    assert key in RunDue(Before(trace, k), trace[k].now).storage;
    EntryIsLastWrite(trace, k, key);
  }

  // ----- lifetimes and values written out

  /** Event `i` is the last successful write of the key of event `k`, and nothing has removed what
      it has left but time. */
  ghost predicate LastLives(trace: seq<Event>, i: nat, k: nat, key: string)
    requires i < |trace| && k < |trace|
  {
    Timed(trace) && i < k && LastWrite(trace, k, key) == At(i) && Survives(trace, i, k, key)
  }

  /** After a set, add or replace that nothing removes a get hits if and only if the time of expiry
      has not passed: the seconds given, or 2 to the power 31 if 0 is given. */
  lemma {:induction false} LifetimeIff(trace: seq<Event>, i: nat, k: nat)
    requires i < k < |trace| && (trace[k].cmd.Get? || trace[k].cmd.GetQ?)
    requires LastLives(trace, i, k, trace[k].cmd.key)
    requires trace[i].cmd.Set? || trace[i].cmd.Add? || trace[i].cmd.Replace?
    ensures var exp := trace[i].cmd.exp;
      ReplyTo(trace, k).Value? <==>
      if exp == 0 then trace[k].now < trace[i].now + 2147483648.0 else trace[k].now < trace[i].now + exp as real
  {
    HitIff(trace, k);
  }

  /** And then it answers with the flags and the data of the write, and the token it was answered. */
  lemma {:induction false} ReadBack(trace: seq<Event>, i: nat, k: nat)
    requires i < k < |trace| && (trace[k].cmd.Get? || trace[k].cmd.GetQ?) && ReplyTo(trace, k).Value?
    requires LastWrite(trace, k, trace[k].cmd.key) == At(i)
    requires trace[i].cmd.Set? || trace[i].cmd.Add? || trace[i].cmd.Replace?
    ensures ReplyTo(trace, i).Stored?
    ensures ReplyTo(trace, k) == Value(ReplyTo(trace, i).token, trace[i].cmd.flags, trace[i].cmd.data)
  {
    HitIsLastWrite(trace, k);
  }

  /** After an append or a prepend to such a write it answers with both data, in this order, and the
      flags of the write, and hits as long as the write would. */
  lemma {:induction false} ReadBackExtended(trace: seq<Event>, j: nat, i: nat, k: nat)
    requires j < i < k < |trace| && (trace[k].cmd.Get? || trace[k].cmd.GetQ?)
    requires LastLives(trace, i, k, trace[k].cmd.key) && LastWrite(trace, i, trace[k].cmd.key) == At(j)
    requires trace[i].cmd.Append? || trace[i].cmd.Prepend?
    requires trace[j].cmd.Set? || trace[j].cmd.Add? || trace[j].cmd.Replace?
    ensures var r, first, more := ReplyTo(trace, k), trace[j].cmd, trace[i].cmd;
      && (r.Value? <==> trace[k].now < trace[j].now + if first.exp == 0 then 2147483648.0 else first.exp as real)
      && (r.Value? ==> r.flags == first.flags)
      && (r.Value? ==> r.data == if more.Append? then first.data + more.data else more.data + first.data)
  {
    HitIff(trace, k);
    if ReplyTo(trace, k).Value? {
      HitIsLastWrite(trace, k);
    }
  }

  /** For every run: a set with a token is stored if and only if the last successful write of its
      key was answered with that token, has not expired, and nothing has removed it since; it is
      answered with 2 if that write was answered with another token, and with 1 otherwise. */
  lemma {:induction false} ConditionalSetIff(trace: seq<Event>, k: nat)
    requires Timed(trace) && k < |trace| && trace[k].cmd.Set? && trace[k].cmd.cas != 0
    ensures var cas, w, r := trace[k].cmd.cas, LastWrite(trace, k, trace[k].cmd.key), ReplyTo(trace, k);
      var there := w.At? && trace[k].now < ContentOf(trace, w.index).expiry && Survives(trace, w.index, k, trace[k].cmd.key);
      && (r.Stored? <==> there && ReplyTo(trace, w.index) == Stored(cas))
      && (r == Error(2) <==> there && ReplyTo(trace, w.index) != Stored(cas))
      && (r == Error(1) <==> !there)
  {
    var key, s := trace[k].cmd.key, RunDue(Before(trace, k), trace[k].now);
    var w := LastWrite(trace, k, key);
    if key in s.storage {
      FoundSurvives(trace, k, key);
      EntryIsLastWrite(trace, k, key);
    } else if w.At? && trace[k].now < ContentOf(trace, w.index).expiry && Survives(trace, w.index, k, key) {
      ContentStored(trace, w.index, key);
      StillThere(trace, w.index, k, key, Before(trace, w.index + 1).storage[key]);
    }
  }
}
