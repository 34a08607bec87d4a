/** Lazy expiry is unobservable: the backend answers like one that removes every expired entry
    at once, exactly as long as no handler that skips the expiry check meets an expired entry. */
module LazyExpiry {
  import opened DictBackend

  /** The storage without what has expired. */
  ghost function Purge(storage: Storage, now: real): Storage {
    map k | k in storage && now < storage[k].expiry :: storage[k]
  }

  /** The reference: due flushes run and every expired entry goes before each command, and no
      handler looks at expiry. */
  ghost function EagerStep(s: State, now: real, cmd: Command): (State, Reply) {
    var due := RunDue(s, now);
    Handle(due.(storage := Purge(due.storage, now)), now, cmd, false)
  }

  ghost function EagerBefore(trace: seq<Event>, k: nat): State
    requires k <= |trace|
  {
    if k == 0 then START else EagerStep(EagerBefore(trace, k - 1), trace[k - 1].now, trace[k - 1].cmd).0
  }

  ghost function EagerReplyTo(trace: seq<Event>, k: nat): Reply
    requires k < |trace|
  {
    EagerStep(EagerBefore(trace, k), trace[k].now, trace[k].cmd).1
  }

  /** The handlers that go past the expiry check, with the answer depending on the entry. */
  predicate Bypasses(cmd: Command) {
    cmd.Add? || cmd.Replace? || cmd.Append? || cmd.Prepend? || (cmd.Delete? && cmd.cas != 0)
  }

  /** The command is such a handler, and finds an entry that has expired but is still stored. */
  ghost predicate FindsStale(s: State, now: real, cmd: Command) {
    var storage := RunDue(s, now).storage;
    Bypasses(cmd) && cmd.key in storage && now >= storage[cmd.key].expiry
  }

  /** The eager state is the lazy one without what has expired. */
  ghost predicate Agree(lazy: State, eager: State, now: real) {
    lazy.sched == eager.sched && lazy.nextToken == eager.nextToken
    && Purge(lazy.storage, now) == Purge(eager.storage, now)
  }

  lemma {:induction false} DueAgrees(lazy: State, eager: State, now: real)
    requires Agree(lazy, eager, now)
    ensures Agree(RunDue(lazy, now), RunDue(eager, now), now)
    decreases |lazy.sched|
  {
    if !(lazy.sched == [] || lazy.sched[0] > now) {
      DueAgrees(State(map[], lazy.sched[1..], lazy.nextToken), State(map[], eager.sched[1..], eager.nextToken), now);
    }
  }

  lemma {:induction false} PurgeLater(s: Storage, t: Storage, now: real, later: real)
    requires Purge(s, now) == Purge(t, now) && now <= later
    ensures Purge(s, later) == Purge(t, later)
  {
    forall k | k in Purge(s, later) ensures k in Purge(t, later) && Purge(t, later)[k] == s[k] {
      assert k in Purge(s, now);
    }
    forall k | k in Purge(t, later) ensures k in Purge(s, later) {
      assert k in Purge(t, now);
    }
  }

  lemma {:induction false} PurgeStore(s: Storage, key: string, e: Entry, now: real)
    requires e.expiry > now
    ensures Purge(s[key := e], now) == Purge(s, now)[key := e]
  {
  }

  lemma {:induction false} PurgeRemove(s: Storage, key: string, now: real)
    ensures Purge(s - {key}, now) == Purge(s, now) - {key}
  {
  }

  lemma {:induction false} PurgeTwice(s: Storage, now: real)
    ensures Purge(Purge(s, now), now) == Purge(s, now)
  {
  }

  /** A look-up only drops what a purge would drop. */
  lemma {:induction false} LookupAgrees(s: State, key: string, now: real)
    ensures var l := Lookup(s, key, now);
      Purge(l.storage, now) == Purge(s.storage, now)
      && (key in l.storage <==> key in Purge(s.storage, now))
      && (key in l.storage ==> l.storage[key] == Purge(s.storage, now)[key])
  {
    PurgeRemove(s.storage, key, now);
  }

  /** The two handlers, after the due flushes have run on both sides. */
  ghost predicate Purged(lazy: State, eager: State, now: real) {
    eager == lazy.(storage := Purge(lazy.storage, now))
  }

  ghost predicate Stale(lazy: State, now: real, cmd: Command) {
    Bypasses(cmd) && cmd.key in lazy.storage && now >= lazy.storage[cmd.key].expiry
  }

  lemma {:induction false} ReadAgrees(lazy: State, eager: State, now: real, cmd: Command)
    requires Purged(lazy, eager, now) && (cmd.Get? || cmd.GetQ?)
    ensures var (l, a), (e, b) := Handle(lazy, now, cmd, true), Handle(eager, now, cmd, false);
      a == b && Agree(l, e, now)
  {
    LookupAgrees(lazy, cmd.key, now);
    PurgeTwice(lazy.storage, now);
  }

  lemma {:induction false} SetAgrees(lazy: State, eager: State, now: real, cmd: Command)
    requires Purged(lazy, eager, now) && cmd.Set?
    ensures var (l, a), (e, b) := Handle(lazy, now, cmd, true), Handle(eager, now, cmd, false);
      a == b && Agree(l, e, now)
  {
    LookupAgrees(lazy, cmd.key, now);
    PurgeTwice(lazy.storage, now);
    var entry := Entry(cmd.flags, Expires(now, cmd.exp), cmd.data, lazy.nextToken);
    PurgeStore(Lookup(lazy, cmd.key, now).storage, cmd.key, entry, now);
    PurgeStore(eager.storage, cmd.key, entry, now);
  }

  lemma {:induction false} OtherAgrees(lazy: State, eager: State, now: real, cmd: Command)
    requires Purged(lazy, eager, now) && (cmd.Flush? || cmd.Noop? || (cmd.Delete? && cmd.cas == 0))
    ensures var (l, a), (e, b) := Handle(lazy, now, cmd, true), Handle(eager, now, cmd, false);
      a == b && Agree(l, e, now)
  {
    PurgeTwice(lazy.storage, now);
    if cmd.Delete? {
      PurgeRemove(lazy.storage, cmd.key, now);
      PurgeRemove(eager.storage, cmd.key, now);
    }
  }

  lemma {:induction false} BypassAgrees(lazy: State, eager: State, now: real, cmd: Command)
    requires Purged(lazy, eager, now) && Bypasses(cmd) && !Stale(lazy, now, cmd)
    ensures var (l, a), (e, b) := Handle(lazy, now, cmd, true), Handle(eager, now, cmd, false);
      a == b && Agree(l, e, now)
  {
    PurgeTwice(lazy.storage, now);
    assert cmd.key in lazy.storage <==> cmd.key in eager.storage;
    if cmd.Delete? {
      PurgeRemove(lazy.storage, cmd.key, now);
      PurgeRemove(eager.storage, cmd.key, now);
    } else {
      forall entry: Entry | entry.expiry > now
        ensures Purge(lazy.storage[cmd.key := entry], now) == Purge(eager.storage[cmd.key := entry], now)
      {
        PurgeStore(lazy.storage, cmd.key, entry, now);
        PurgeStore(eager.storage, cmd.key, entry, now);
      }
    }
  }

  lemma {:induction false} StaleDiffers(lazy: State, eager: State, now: real, cmd: Command)
    requires Purged(lazy, eager, now) && Stale(lazy, now, cmd)
    ensures Handle(lazy, now, cmd, true).1 != Handle(eager, now, cmd, false).1
  {
    assert cmd.key !in eager.storage;
  }

  /** One command: if it does not find a stale entry the two answer the same and stay in
      agreement, and if it does they answer differently. */
  lemma {:induction false} StepAgrees(lazy: State, eager: State, now: real, cmd: Command)
    requires Agree(lazy, eager, now)
    ensures !FindsStale(lazy, now, cmd) ==>
              Step(lazy, now, cmd).1 == EagerStep(eager, now, cmd).1
              && Agree(Step(lazy, now, cmd).0, EagerStep(eager, now, cmd).0, now)
    ensures FindsStale(lazy, now, cmd) ==> Step(lazy, now, cmd).1 != EagerStep(eager, now, cmd).1
  {
    DueAgrees(lazy, eager, now);
    var l, d := RunDue(lazy, now), RunDue(eager, now);
    var e := d.(storage := Purge(d.storage, now));
    assert Purged(l, e, now);
    if Stale(l, now, cmd) {
      StaleDiffers(l, e, now, cmd);
    } else if Bypasses(cmd) {
      BypassAgrees(l, e, now, cmd);
    } else if cmd.Get? || cmd.GetQ? {
      ReadAgrees(l, e, now, cmd);
    } else if cmd.Set? {
      SetAgrees(l, e, now, cmd);
    } else {
      OtherAgrees(l, e, now, cmd);
    }
  }

  lemma {:induction false} AgreeLater(lazy: State, eager: State, now: real, later: real)
    requires Agree(lazy, eager, now) && now <= later
    ensures Agree(lazy, eager, later)
  {
    PurgeLater(lazy.storage, eager.storage, now, later);
  }

  ghost predicate StaleAt(trace: seq<Event>, k: nat)
    requires k < |trace|
  {
    FindsStale(Before(trace, k), trace[k].now, trace[k].cmd)
  }

  lemma {:induction false} OneMore(trace: seq<Event>, k: nat)
    requires Timed(trace) && k + 1 < |trace| && !StaleAt(trace, k)
    requires Agree(Before(trace, k), EagerBefore(trace, k), trace[k].now)
    ensures Agree(Before(trace, k + 1), EagerBefore(trace, k + 1), trace[k + 1].now)
  {
    var now, cmd := trace[k].now, trace[k].cmd;
    StepAgrees(Before(trace, k), EagerBefore(trace, k), now, cmd);
    AgreeLater(Step(Before(trace, k), now, cmd).0, EagerStep(EagerBefore(trace, k), now, cmd).0, now, trace[k + 1].now);
  }

  lemma {:induction false} StartAgrees(now: real)
    ensures Agree(START, START, now)
  {
  }

  /** The two runs agree up to the first command that finds a stale entry. */
  lemma {:induction false} RunsAgree(trace: seq<Event>, k: nat)
    requires Timed(trace) && k < |trace|
    requires forall i :: 0 <= i < k ==> !StaleAt(trace, i)
    ensures Agree(Before(trace, k), EagerBefore(trace, k), trace[k].now)
  {
    if k == 0 {
      StartAgrees(trace[0].now);
    } else {
      var before := k - 1;
      RunsAgree(trace, before);
      OneMore(trace, before);
    }
  }

  /** For every run with a clock that does not go back: all its answers are those of the eager
      backend if and only if no command of it finds a stale entry. */
  lemma {:induction false} LazyIsEagerIff(trace: seq<Event>)
    requires Timed(trace)
    ensures (forall k :: 0 <= k < |trace| ==> ReplyTo(trace, k) == EagerReplyTo(trace, k)) <==>
            (forall k :: 0 <= k < |trace| ==> !StaleAt(trace, k))
  {
    var marks := seq(|trace|, k requires 0 <= k < |trace| => StaleAt(trace, k));
    if true in marks {
      var k := FirstTrue(marks);
      StaleShows(trace, marks, k);
    } else {
      forall k | 0 <= k < |trace|
        ensures ReplyTo(trace, k) == EagerReplyTo(trace, k) && !StaleAt(trace, k)
      {
        assert marks[k] in marks;
        FreshAgrees(trace, marks, k);
      }
    }
  }

  lemma {:induction false} FreshAgrees(trace: seq<Event>, marks: seq<bool>, k: nat)
    requires Timed(trace) && |marks| == |trace| && k < |trace| && true !in marks
    requires forall i :: 0 <= i < |trace| ==> marks[i] == StaleAt(trace, i)
    ensures ReplyTo(trace, k) == EagerReplyTo(trace, k)
  {
    forall i | 0 <= i <= k ensures !StaleAt(trace, i) {
      assert marks[i] in marks;
    }
    assert !StaleAt(trace, k);
    RunsAgree(trace, k);
    StepAgrees(Before(trace, k), EagerBefore(trace, k), trace[k].now, trace[k].cmd);
  }

  lemma {:induction false} StaleShows(trace: seq<Event>, marks: seq<bool>, k: nat)
    requires Timed(trace) && |marks| == |trace| && k < |trace| && marks[k]
    requires forall i :: 0 <= i < k ==> !marks[i]
    requires forall i :: 0 <= i < |trace| ==> marks[i] == StaleAt(trace, i)
    ensures ReplyTo(trace, k) != EagerReplyTo(trace, k) && StaleAt(trace, k)
  {
    forall i | 0 <= i < k ensures !StaleAt(trace, i) {
      assert !marks[i];
    }
    assert marks[k] == StaleAt(trace, k);
    RunsAgree(trace, k);
    StepAgrees(Before(trace, k), EagerBefore(trace, k), trace[k].now, trace[k].cmd);
  }

  lemma {:induction false} FirstTrue(marks: seq<bool>) returns (k: nat)
    requires true in marks
    ensures k < |marks| && marks[k] && forall i :: 0 <= i < k ==> !marks[i]
  {
    if marks[0] {
      k := 0;
    } else {
      var j := FirstTrue(marks[1..]);
      k := j + 1;
      assert forall i :: 0 < i < k ==> marks[i] == marks[1..][i - 1];
    }
  }

  /** In particular, runs of gets, sets, flushes and noops cannot be told apart at all. */
  lemma {:induction false} CheckedRunsAreEager(trace: seq<Event>)
    requires Timed(trace) && forall k :: 0 <= k < |trace| ==> !Bypasses(trace[k].cmd)
    ensures forall k :: 0 <= k < |trace| ==> ReplyTo(trace, k) == EagerReplyTo(trace, k)
  {
    LazyIsEagerIff(trace);
  }

  /** And an add after an expiry tells them apart. */
  lemma {:induction false} StaleAdd()
    ensures var trace := [Event(0.0, Set("k", 0, 1, "v", 0)), Event(1.0, Add("k", 0, 0, "w"))];
      ReplyTo(trace, 1) == Error(ERR_EXISTS) && EagerReplyTo(trace, 1) == Stored(2)
  {
    var trace := [Event(0.0, Set("k", 0, 1, "v", 0)), Event(1.0, Add("k", 0, 0, "w"))];
    assert Before(trace, 1) == Step(START, 0.0, trace[0].cmd).0;
    assert EagerBefore(trace, 1) == EagerStep(START, 0.0, trace[0].cmd).0;
  }
}
