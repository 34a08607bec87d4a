/** The dictionary backend of the test server: entries that expire lazily, compare-and-swap
    tokens, and a queue of delayed flushes. */
module DictBackend {

  const ERR_NOT_FOUND: nat := 0x1
  const ERR_EXISTS: nat := 0x2

  /** A stored tuple; `token` stands for its `id()`, and is never used twice. */
  datatype Entry = Entry(flags: nat, expiry: real, data: string, token: nat)

  datatype Command =
    | Get(key: string)
    | GetQ(key: string)
    | Set(key: string, flags: nat, exp: nat, data: string, cas: nat)
    | Add(key: string, flags: nat, exp: nat, data: string)
    | Replace(key: string, flags: nat, exp: nat, data: string)
    | Append(key: string, data: string, cas: nat)
    | Prepend(key: string, data: string, cas: nat)
    | Delete(key: string, cas: nat)
    | Flush(delay: nat)
    | Noop

  datatype Reply =
    | Value(token: nat, flags: nat, data: string)
    | Stored(token: nat)
    | Done
    | Error(status: nat)
    | Swallowed
    | Raised

  type Storage = map<string, Entry>

  datatype State = State(storage: Storage, sched: seq<real>, nextToken: nat)

  // ----- delayed flushes

  ghost predicate Ascending(sched: seq<real>) {
    forall i, j :: 0 <= i < j < |sched| ==> sched[i] <= sched[j]
  }

  /** Adds a job to the time-ordered queue. */
  function Push(sched: seq<real>, at: real): (r: seq<real>)
    ensures |r| == |sched| + 1 && forall x :: x in r <==> x in sched || x == at
  {
    if sched == [] then [at]
    else if at <= sched[0] then [at] + sched
    else [sched[0]] + Push(sched[1..], at)
  }

  lemma {:induction false} PushKeepsOrder(sched: seq<real>, at: real)
    requires Ascending(sched)
    ensures Ascending(Push(sched, at))
  {
    if sched != [] && at > sched[0] {
      PushKeepsOrder(sched[1..], at);
      var rest := Push(sched[1..], at);
      assert forall i :: 0 <= i < |rest| ==> rest[i] in rest;
    }
  }

  /** Runs every job that is due: each of them empties the storage. */
  function RunDue(s: State, now: real): (r: State)
    ensures r.nextToken == s.nextToken
    ensures r.storage == s.storage || r.storage == map[]
    ensures r.sched == [] || r.sched[0] > now
    decreases |s.sched|
  {
    if s.sched == [] || s.sched[0] > now then s
    else RunDue(State(map[], s.sched[1..], s.nextToken), now)
  }

  // ----- handlers

  function Expires(now: real, exp: nat): (t: real)
    ensures t > now
  {
    now + (if exp == 0 then 2147483648.0 else exp as real)
  }

  function Store(s: State, key: string, flags: nat, expiry: real, data: string): (State, Reply) {
    (State(s.storage[key := Entry(flags, expiry, data, s.nextToken)], s.sched, s.nextToken + 1), Stored(s.nextToken))
  }

  /** Drops the entry of `key` if it has expired. */
  function Lookup(s: State, key: string, now: real): State {
    if key in s.storage && now >= s.storage[key].expiry then s.(storage := s.storage - {key}) else s
  }

  /** Whether a command with this cas may go ahead, and the error otherwise. */
  function CasError(storage: Storage, key: string, cas: nat): nat {
    if cas == 0 || (key in storage && storage[key].token == cas) then 0
    else if key in storage then ERR_EXISTS
    else ERR_NOT_FOUND
  }

  function HandleGet(s: State, key: string): Reply {
    if key in s.storage then var e := s.storage[key]; Value(e.token, e.flags, e.data) else Error(ERR_NOT_FOUND)
  }

  function HandleSet(s: State, now: real, key: string, flags: nat, exp: nat, data: string, cas: nat): (State, Reply) {
    var err := CasError(s.storage, key, cas);
    if err == 0 then Store(s, key, flags, Expires(now, exp), data) else (s, Error(err))
  }

  /** Append and prepend; with no entry the handler fails on the missing tuple. */
  function HandleExtend(s: State, key: string, before: string, after: string, cas: nat): (State, Reply) {
    var err := CasError(s.storage, key, cas);
    if err != 0 then (s, Error(err))
    else if key !in s.storage then (s, Raised)
    else var e := s.storage[key]; Store(s, key, e.flags, e.expiry, before + e.data + after)
  }

  /** Delete removes the entry and then fails on its empty header. */
  function HandleDelete(s: State, key: string, cas: nat): (State, Reply) {
    var err := CasError(s.storage, key, cas);
    if err != 0 then (s, Error(err)) else (s.(storage := s.storage - {key}), Raised)
  }

  function HandleFlush(s: State, now: real, delay: nat): (State, Reply) {
    if delay > 0 then (s.(sched := Push(s.sched, now + delay as real)), Done)
    else (s.(storage := map[]), Done)
  }

  function Quiet(r: Reply): Reply {
    if r == Error(ERR_NOT_FOUND) then Swallowed else r
  }

  /** A command on a storage in which nothing has expired, except that only `lazy` handlers look
      for expiry themselves. */
  function Handle(s: State, now: real, cmd: Command, lazy: bool): (State, Reply) {
    match cmd
    case Get(key) => var l := if lazy then Lookup(s, key, now) else s; (l, HandleGet(l, key))
    case GetQ(key) => var l := if lazy then Lookup(s, key, now) else s; (l, Quiet(HandleGet(l, key)))
    case Set(key, flags, exp, data, cas) =>
      HandleSet(if lazy then Lookup(s, key, now) else s, now, key, flags, exp, data, cas)
    case Add(key, flags, exp, data) =>
      if key in s.storage then (s, Error(ERR_EXISTS)) else Store(s, key, flags, Expires(now, exp), data)
    case Replace(key, flags, exp, data) =>
      if key !in s.storage then (s, Error(ERR_NOT_FOUND)) else Store(s, key, flags, Expires(now, exp), data)
    case Append(key, data, cas) => HandleExtend(s, key, "", data, cas)
    case Prepend(key, data, cas) => HandleExtend(s, key, data, "", cas)
    case Delete(key, cas) => HandleDelete(s, key, cas)
    case Flush(delay) => HandleFlush(s, now, delay)
    case Noop => (s, Done)
  }

  /** One command as the backend processes it. */
  function Step(s: State, now: real, cmd: Command): (State, Reply) {
    Handle(RunDue(s, now), now, cmd, true)
  }

  class Backend {
    var storage: Storage
    var sched: seq<real>
    var nextToken: nat

    ghost function Abstract(): State
      reads this
    {
      State(storage, sched, nextToken)
    }

    ghost predicate Valid()
      reads this
    {
      Ascending(sched) && nextToken > 0
    }

    constructor ()
      ensures Valid() && Abstract() == State(map[], [], 1)
    {
      storage, sched, nextToken := map[], [], 1;
    }

    method RunDelayed(now: real)
      requires Valid()
      modifies this
      ensures Valid() && Abstract() == RunDue(old(Abstract()), now)
    {
      while sched != [] && sched[0] <= now
        invariant Valid()
        invariant RunDue(Abstract(), now) == RunDue(old(Abstract()), now)
        decreases |sched|
      {
        sched := sched[1..];
        storage := map[];
      }
    }

    method LookUp(key: string, now: real) returns (found: bool)
      requires Valid()
      modifies this`storage
      ensures Abstract() == Lookup(old(Abstract()), key, now)
      ensures found <==> key in storage
    {
      found := key in storage;
      if found && now >= storage[key].expiry {
        storage := storage - {key};
        found := false;
      }
    }

    method Put(key: string, flags: nat, expiry: real, data: string) returns (r: Reply)
      requires Valid()
      modifies this`storage, this`nextToken
      ensures Valid() && (Abstract(), r) == Store(old(Abstract()), key, flags, expiry, data)
    {
      storage := storage[key := Entry(flags, expiry, data, nextToken)];
      r := Stored(nextToken);
      nextToken := nextToken + 1;
    }

    /** Append and prepend. */
    method Extend(key: string, before: string, after: string, cas: nat) returns (r: Reply)
      requires Valid()
      modifies this`storage, this`nextToken
      ensures Valid() && (Abstract(), r) == HandleExtend(old(Abstract()), key, before, after, cas)
    {
      var err := CasError(storage, key, cas);
      if err != 0 {
        return Error(err);
      }
      if key !in storage {
        return Raised;
      }
      var e := storage[key];
      r := Put(key, e.flags, e.expiry, before + e.data + after);
    }

    /** Processes one command at time `now`. */
    method ProcessCommand(now: real, cmd: Command) returns (r: Reply)
      requires Valid()
      modifies this
      ensures Valid() && (Abstract(), r) == Step(old(Abstract()), now, cmd)
    {
      RunDelayed(now);
      match cmd {
        case Get(key) =>
          var found := LookUp(key, now);
          r := if found then Value(storage[key].token, storage[key].flags, storage[key].data) else Error(ERR_NOT_FOUND);
        case GetQ(key) =>
          var found := LookUp(key, now);
          r := if found then Value(storage[key].token, storage[key].flags, storage[key].data) else Swallowed;
        case Set(key, flags, exp, data, cas) =>
          var _ := LookUp(key, now);
          var err := CasError(storage, key, cas);
          if err == 0 {
            r := Put(key, flags, Expires(now, exp), data);
          } else {
            r := Error(err);
          }
        case Add(key, flags, exp, data) =>
          if key in storage {
            r := Error(ERR_EXISTS);
          } else {
            r := Put(key, flags, Expires(now, exp), data);
          }
        case Replace(key, flags, exp, data) =>
          if key !in storage {
            r := Error(ERR_NOT_FOUND);
          } else {
            r := Put(key, flags, Expires(now, exp), data);
          }
        case Append(key, data, cas) =>
          r := Extend(key, "", data, cas);
        case Prepend(key, data, cas) =>
          r := Extend(key, data, "", cas);
        case Delete(key, cas) =>
          var err := CasError(storage, key, cas);
          if err == 0 {
            storage := storage - {key};
            r := Raised;
          } else {
            r := Error(err);
          }
        case Flush(delay) =>
          if delay > 0 {
            PushKeepsOrder(sched, now + delay as real);
            sched := Push(sched, now + delay as real);
          } else {
            storage := map[];
          }
          r := Done;
        case Noop =>
          r := Done;
      }
    }
  }

  // ----- runs

  datatype Event = Event(now: real, cmd: Command)

  const START: State := State(map[], [], 1)

  /** The clock never goes back. */
  ghost predicate Timed(trace: seq<Event>) {
    forall i, j :: 0 <= i < j < |trace| ==> trace[i].now <= trace[j].now
  }

  /** The state before event `k`. */
  ghost function Before(trace: seq<Event>, k: nat): State
    requires k <= |trace|
  {
    if k == 0 then START else Step(Before(trace, k - 1), trace[k - 1].now, trace[k - 1].cmd).0
  }

  ghost function ReplyTo(trace: seq<Event>, k: nat): Reply
    requires k < |trace|
  {
    Step(Before(trace, k), trace[k].now, trace[k].cmd).1
  }

  // ----- what is answered

  /** The entry of a key after the delayed flushes that are due, and after the check of its expiry
      if the command makes one. */
  ghost function FoundBy(s: State, now: real, cmd: Command, key: string): set<Entry> {
    var d := RunDue(s, now).storage;
    if key in d && ((cmd.Get? || cmd.GetQ? || cmd.Set?) ==> now < d[key].expiry) then {d[key]} else {}
  }

  /** A command with a token goes through if and only if the entry it finds has that token; it is
      answered with 2 if and only if the entry has another one, and with 1 if and only if there is
      no entry. A command without a token is not refused; only append and prepend need an entry. */
  lemma {:induction false} ConditionalIff(s: State, now: real, cmd: Command)
    requires cmd.Set? || cmd.Append? || cmd.Prepend? || cmd.Delete?
    ensures var r, found := Step(s, now, cmd).1, FoundBy(s, now, cmd, cmd.key);
      if cmd.cas != 0 then
        && ((if cmd.Delete? then r.Raised? else r.Stored?) <==> exists e :: e in found && e.token == cmd.cas)
        && (r == Error(2) <==> exists e :: e in found && e.token != cmd.cas)
        && (r == Error(1) <==> found == {})
      else if cmd.Set? then r.Stored?
      else if cmd.Delete? then r.Raised?
      else if found == {} then r.Raised? else r.Stored?
  {
    var d := RunDue(s, now).storage;
    if cmd.key in d {
      assert d[cmd.key] in {d[cmd.key]};
    }
  }

  /** The other commands: a get answers with what it finds, or with 1, which a quiet get swallows;
      an add is answered with 2 if the key is taken, and a replace with 1 if it is not. */
  lemma {:induction false} UnconditionalIff(s: State, now: real, cmd: Command)
    requires cmd.Get? || cmd.GetQ? || cmd.Add? || cmd.Replace?
    ensures var r, found := Step(s, now, cmd).1, FoundBy(s, now, cmd, cmd.key);
      && (cmd.Get? ==> (r == Error(1) <==> found == {}))
      && (cmd.GetQ? ==> (r == Swallowed <==> found == {}))
      && (cmd.Get? || cmd.GetQ? ==> forall e :: e in found ==> r == Value(e.token, e.flags, e.data))
      && (cmd.Add? ==> if found == {} then r.Stored? else r == Error(2))
      && (cmd.Replace? ==> if found == {} then r == Error(1) else r.Stored?)
  {
    var d := RunDue(s, now).storage;
    if cmd.key in d {
      assert d[cmd.key] in {d[cmd.key]};
    }
  }
}
