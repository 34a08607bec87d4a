/** The global table of reserved VM counts, one counter per label. */
module Reservations {

  datatype Label = NoLabel | Named(name: string)

  type Table = map<Label, int>

  /** The counters a request touches: one per label, or the default one if it has none. */
  function Counters(labels: seq<string>): (ls: seq<Label>)
    ensures labels == [] ==> ls == [NoLabel]
    ensures labels != [] ==> |ls| == |labels| && forall i :: 0 <= i < |ls| ==> ls[i] == Named(labels[i])
  {
    if labels == [] then [NoLabel] else seq(|labels|, i requires 0 <= i < |labels| => Named(labels[i]))
  }

  function Amount(t: Table, l: Label): int {
    if l in t then t[l] else 0
  }

  function Max(a: int, b: int): int {
    if a >= b then a else b
  }

  function AddOne(t: Table, count: int, l: Label): Table {
    t[l := Amount(t, l) + count]
  }

  /** A counter never falls below 0, and one that does not exist is left so. */
  function SubOne(t: Table, count: int, l: Label): Table {
    if l in t then t[l := Max(0, t[l] - count)] else t
  }

  function Increase(t: Table, count: int, ls: seq<Label>): Table
    decreases |ls|
  {
    if ls == [] then t else Increase(AddOne(t, count, ls[0]), count, ls[1..])
  }

  function Decrease(t: Table, count: int, ls: seq<Label>): Table
    decreases |ls|
  {
    if ls == [] then t else Decrease(SubOne(t, count, ls[0]), count, ls[1..])
  }

  function Largest(t: Table, ls: seq<Label>, from: int): int
    decreases |ls|
  {
    if ls == [] then from
    else Largest(t, ls[1..], if ls[0] in t then Max(from, t[ls[0]]) else from)
  }

  /** The largest counter of some labels: none of theirs is larger, and it is one of theirs, unless
      all of them are below 0 or missing. */
  ghost predicate IsLargest(t: Table, labels: seq<string>, r: int) {
    && r >= 0
    && (forall l :: l in labels && Named(l) in t ==> t[Named(l)] <= r)
    && (r > 0 ==> exists l :: l in labels && Named(l) in t && t[Named(l)] == r)
  }

  lemma {:induction false} LargestIs(t: Table, ls: seq<Label>, from: int)
    ensures var r := Largest(t, ls, from);
      && r >= from && (forall l :: l in ls && l in t ==> t[l] <= r)
      && (r > from ==> exists l :: l in ls && l in t && t[l] == r)
    decreases |ls|
  {
    if ls != [] {
      LargestIs(t, ls[1..], if ls[0] in t then Max(from, t[ls[0]]) else from);
      assert ls == [ls[0]] + ls[1..];
    }
  }

  lemma {:induction false} LargestOfLabels(t: Table, labels: seq<string>)
    requires labels != []
    ensures IsLargest(t, labels, Largest(t, Counters(labels), 0))
  {
    var ls, r := Counters(labels), Largest(t, Counters(labels), 0);
    LargestIs(t, ls, 0);
    forall l | l in labels && Named(l) in t ensures t[Named(l)] <= r {
      var i :| 0 <= i < |labels| && labels[i] == l;
      assert ls[i] == Named(l) && Named(l) in ls;
    }
    if r > 0 {
      var l :| l in ls && l in t && t[l] == r;
      var i :| 0 <= i < |ls| && ls[i] == l;
      assert labels[i] in labels;
    }
  }

  class ReservationTable {
    var counts: Table

    constructor ()
      ensures counts == map[]
    {
      counts := map[];
    }

    method IncreaseReserved(count: int, labels: seq<string>)
      modifies this
      ensures counts == Increase(old(counts), count, Counters(labels))
    {
      var ls := Counters(labels);
      var i := 0;
      while i < |ls|
        invariant 0 <= i <= |ls|
        invariant Increase(counts, count, ls[i..]) == Increase(old(counts), count, ls)
      {
        if ls[i] in counts {
          counts := counts[ls[i] := counts[ls[i]] + count];
        } else {
          counts := counts[ls[i] := count];
        }
        i := i + 1;
      }
    }

    method DecreaseReserved(count: int, labels: seq<string>)
      modifies this
      ensures counts == Decrease(old(counts), count, Counters(labels))
    {
      var ls := Counters(labels);
      var i := 0;
      while i < |ls|
        invariant 0 <= i <= |ls|
        invariant Decrease(counts, count, ls[i..]) == Decrease(old(counts), count, ls)
      {
        if ls[i] in counts {
          counts := counts[ls[i] := Max(0, counts[ls[i]] - count)];
        }
        i := i + 1;
      }
    }

    method GetReserved(labels: seq<string>) returns (reserved: int)
      ensures labels != [] ==> reserved == Largest(counts, Counters(labels), 0)
      ensures labels != [] ==> IsLargest(counts, labels, reserved)
      ensures labels == [] ==> reserved == if NoLabel in counts then counts[NoLabel] else 0
    {
      if labels == [] {
        return if NoLabel in counts then counts[NoLabel] else 0;
      }
      var ls := Counters(labels);
      LargestOfLabels(counts, labels);
      reserved := 0;
      var i := 0;
      while i < |ls|
        invariant 0 <= i <= |ls|
        invariant Largest(counts, ls[i..], reserved) == Largest(counts, ls, 0)
      {
        if ls[i] in counts {
          reserved := Max(reserved, counts[ls[i]]);
        }
        i := i + 1;
      }
    }
  }

  // ----- a class of requests with the same labels is one counter

  ghost predicate NoRepeats(ls: seq<Label>) {
    forall i, j :: 0 <= i < j < |ls| ==> ls[i] != ls[j]
  }

  lemma {:induction false} IncreaseAmount(t: Table, count: int, ls: seq<Label>, l: Label)
    requires NoRepeats(ls)
    ensures Amount(Increase(t, count, ls), l) == Amount(t, l) + (if l in ls then count else 0)
    decreases |ls|
  {
    if ls != [] {
      IncreaseAmount(AddOne(t, count, ls[0]), count, ls[1..], l);
    }
  }

  lemma {:induction false} DecreaseAmount(t: Table, count: int, ls: seq<Label>, l: Label)
    requires NoRepeats(ls)
    ensures l in ls && l in t ==> Amount(Decrease(t, count, ls), l) == Max(0, Amount(t, l) - count)
    ensures l !in ls || l !in t ==> Amount(Decrease(t, count, ls), l) == Amount(t, l)
    ensures l in Decrease(t, count, ls) <==> l in t
    decreases |ls|
  {
    if ls != [] {
      DecreaseAmount(SubOne(t, count, ls[0]), count, ls[1..], l);
    }
  }

  /** All counters of the class hold the same value. */
  ghost predicate Level(t: Table, ls: seq<Label>, n: int) {
    forall i :: 0 <= i < |ls| ==> ls[i] in t && t[ls[i]] == n
  }

  lemma {:induction false} LargestOfLevel(t: Table, ls: seq<Label>, n: int, from: int)
    requires Level(t, ls, n)
    ensures Largest(t, ls, from) == if ls == [] then from else Max(from, n)
    decreases |ls|
  {
    if ls != [] {
      LargestOfLevel(t, ls[1..], n, Max(from, n));
    }
  }

  /** On a class of requests that all carry the same distinct labels, the table acts as a single
      counter: raising, lowering with a floor of 0, and reading keep all its counters level. */
  lemma {:induction false} ClassIsOneCounter(t: Table, ls: seq<Label>, n: int, count: int)
    requires NoRepeats(ls) && Level(t, ls, n) && ls != [] && n >= 0
    ensures Level(Increase(t, count, ls), ls, n + count)
    ensures Level(Decrease(t, count, ls), ls, Max(0, n - count))
    ensures Largest(t, ls, 0) == n
  {
    forall i | 0 <= i < |ls|
      ensures ls[i] in Increase(t, count, ls) && Increase(t, count, ls)[ls[i]] == n + count
      ensures ls[i] in Decrease(t, count, ls) && Decrease(t, count, ls)[ls[i]] == Max(0, n - count)
    {
      IncreaseAmount(t, count, ls, ls[i]);
      IncreaseKeeps(t, count, ls, ls[i]);
      DecreaseAmount(t, count, ls, ls[i]);
    }
    LargestOfLevel(t, ls, n, 0);
  }

  lemma {:induction false} IncreaseKeeps(t: Table, count: int, ls: seq<Label>, l: Label)
    ensures l in Increase(t, count, ls) <==> l in t || l in ls
    decreases |ls|
  {
    if ls != [] {
      IncreaseKeeps(AddOne(t, count, ls[0]), count, ls[1..], l);
    }
  }

  // ----- labels that differ between request and host

  /** VMs created on a host give back reservations under the labels of the host. */
  function CreatedOn(t: Table, created: nat, host: seq<Label>): Table
    decreases created
  {
    if created == 0 then t else CreatedOn(Decrease(t, 1, host), created - 1, host)
  }

  /** The table after a whole request: reserve, create on one host, give back the rest. */
  function WholeRequest(t: Table, count: nat, created: nat, request: seq<Label>, host: seq<Label>): Table
    requires created <= count
  {
    Decrease(CreatedOn(Increase(t, count, request), created, host), count - created, request)
  }

  lemma {:induction false} CreatedOnAmount(t: Table, created: nat, host: seq<Label>, l: Label)
    requires NoRepeats(host) && Amount(t, l) >= 0
    ensures l in CreatedOn(t, created, host) <==> l in t
    ensures Amount(CreatedOn(t, created, host), l) ==
            if l in host && l in t then Max(0, Amount(t, l) - created) else Amount(t, l)
    decreases created
  {
    if created > 0 {
      DecreaseAmount(t, 1, host, l);
      CreatedOnAmount(Decrease(t, 1, host), created - 1, host, l);
    }
  }

  /** What a request leaves in a counter: one of its own keeps a reservation for every VM created
      on a host without that label; one that only the host has loses reservations of others. */
  lemma {:induction false} WholeRequestAmount(t: Table, count: nat, created: nat, request: seq<Label>, host: seq<Label>, l: Label)
    requires NoRepeats(request) && NoRepeats(host) && created <= count && Amount(t, l) >= 0
    ensures Amount(WholeRequest(t, count, created, request, host), l) ==
            if l in request then Amount(t, l) + (if l in host then 0 else created)
            else if l in host then Max(0, Amount(t, l) - created)
            else Amount(t, l)
  {
    var raised := Increase(t, count, request);
    IncreaseAmount(t, count, request, l);
    IncreaseKeeps(t, count, request, l);
    CreatedOnAmount(raised, created, host, l);
    DecreaseAmount(CreatedOn(raised, created, host), count - created, request, l);
  }

  ghost predicate NothingNegative(t: Table) {
    forall l :: Amount(t, l) >= 0
  }

  ghost predicate SameAmounts(t: Table, t': Table) {
    forall l :: Amount(t, l) == Amount(t', l)
  }

  /** A request leaves every counter as it was if and only if it creates nothing, or its host has
      all its labels and no reservation of anyone else under a further one. */
  lemma {:induction false} ReservationReturnedIff(t: Table, count: nat, created: nat, request: seq<Label>, host: seq<Label>)
    requires NoRepeats(request) && NoRepeats(host) && created <= count && NothingNegative(t)
    ensures SameAmounts(WholeRequest(t, count, created, request, host), t) <==>
            || created == 0
            || ((forall l :: l in request ==> l in host) && (forall l :: l in host ==> l in request || Amount(t, l) == 0))
  {
    forall l
      ensures Amount(WholeRequest(t, count, created, request, host), l) == Amount(t, l) <==>
              created == 0 || (if l in request then l in host else l in host ==> Amount(t, l) == 0)
    {
      WholeRequestAmount(t, count, created, request, host, l);
    }
  }
}
