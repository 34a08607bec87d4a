/** How many VMs each host has room for, and the loop that spreads a request over the hosts. */
module Placement {
  import opened Arithmetic
  import opened Decimal

  // ----- names

  /** The names of the VMs of a request. */
  function GenerateVmNames(name: string, count: nat): (names: seq<string>)
    ensures |names| == count
  {
    if count == 0 then []
    else if count == 1 then [name]
    else seq(count, i requires 0 <= i < count => name + ToText(i + 1))
  }

  ghost predicate Distinct<T>(s: seq<T>) {
    forall i, j :: 0 <= i < j < |s| ==> s[i] != s[j]
  }

  /** No name is generated twice. */
  lemma {:induction false} NamesDistinct(name: string, count: nat)
    ensures Distinct(GenerateVmNames(name, count))
  {
    var names := GenerateVmNames(name, count);
    forall i, j | 0 <= i < j < count
      ensures names[i] != names[j]
    {
      ParseText(i + 1);
      ParseText(j + 1);
      assert names[i][|name|..] == ToText(i + 1) && names[j][|name|..] == ToText(j + 1);
    }
  }

  /** One VM gets the name itself; several get the numbers from 1 on behind it. */
  lemma {:induction false} NamesAre(name: string, count: nat, i: nat)
    requires i < count
    ensures var vm := GenerateVmNames(name, count)[i];
      if count == 1 then vm == name
      else name < vm && vm[|name|] != '0' && Parse(vm[|name|..]) == Some(i + 1)
  {
    ParseText(i + 1);
    NoLeadingZero(i + 1);
    if count > 1 {
      var vm := GenerateVmNames(name, count)[i];
      assert vm == name + ToText(i + 1) && vm[|name|..] == ToText(i + 1) && vm[|name|] == ToText(i + 1)[0];
    }
  }

  // ----- room on a host

  /** What a host reports, and what one VM of the requested kind takes. */
  datatype Host = Host(
    freeCpus: nat, freeMemoryGb: nat, freeDiskBytes: nat, provisioned: nat, maxVms: Option<nat>,
    vmCpus: nat, vmMemoryGb: nat, vmDiskGb: nat)
  {
    predicate Ok() {
      vmCpus > 0 && vmMemoryGb > 0 && vmDiskGb > 0
    }
  }

  const GB: nat := 1073741824

  function Min(a: nat, b: nat): nat {
    if a <= b then a else b
  }

  /** The free disk, less a buffer of a tenth. */
  function UsableDisk(h: Host): nat {
    h.freeDiskBytes - h.freeDiskBytes / 10
  }

  function DiskCount(h: Host): nat
    requires h.Ok()
  {
    var n := UsableDisk(h) / GB / h.vmDiskGb;
    if n > 0 then n - 1 else 0
  }

  /** How many VMs fit the free resources. */
  function ResourceCount(h: Host): nat
    requires h.Ok()
  {
    Min(Min(h.freeCpus / h.vmCpus, h.freeMemoryGb / h.vmMemoryGb), DiskCount(h))
  }

  /** And the configured maximum. */
  function AvailableCount(h: Host): nat
    requires h.Ok()
  {
    if h.maxVms.Some? then
      Min(if h.maxVms.value > h.provisioned then h.maxVms.value - h.provisioned else 0, ResourceCount(h))
    else ResourceCount(h)
  }

  /** `n` more VMs fit the host, with the disk of one base copy and a tenth of what is free to
      spare. */
  ghost predicate Fits(h: Host, n: nat) {
    && n * h.vmCpus <= h.freeCpus
    && n * h.vmMemoryGb <= h.freeMemoryGb
    && (n > 0 ==> (n + 1) * h.vmDiskGb * 1073741824 + h.freeDiskBytes / 10 <= h.freeDiskBytes)
    && (h.maxVms.Some? && n > 0 ==> h.provisioned + n <= h.maxVms.value)
  }

  lemma {:induction false} QuotientFits(n: nat, unit: nat, total: nat)
    requires unit > 0
    ensures n <= total / unit <==> n * unit <= total
  {
    if n * unit <= total {
      AtMostQuotient(total, unit, n);
    }
    if n <= total / unit {
      ScaleLess(n, total / unit, unit);
      assert total == unit * (total / unit) + total % unit;
    }
  }

  /** The available count of a host is exactly the largest number of VMs that fit it. */
  lemma {:induction false} AvailableIffFits(h: Host, n: nat)
    requires h.Ok()
    ensures n <= AvailableCount(h) <==> Fits(h, n)
  {
    QuotientFits(n, h.vmCpus, h.freeCpus);
    QuotientFits(n, h.vmMemoryGb, h.freeMemoryGb);
    QuotientFits(n + 1, h.vmDiskGb, UsableDisk(h) / GB);
    QuotientFits((n + 1) * h.vmDiskGb, GB, UsableDisk(h));
  }

  function Sum(s: seq<nat>): nat {
    if s == [] then 0 else s[0] + Sum(s[1..])
  }

  lemma {:induction false} SumAppend(s: seq<nat>, x: nat)
    ensures Sum(s + [x]) == Sum(s) + x
  {
    if s == [] {
      assert [] + [x] == [x];
    } else {
      assert (s + [x])[1..] == s[1..] + [x];
      SumAppend(s[1..], x);
    }
  }

  /** The hosts that could be asked, in order: a host that cannot be reached is skipped, and one
      for whose VMs no size is given, as the division by it raises. */
  function Reachable(hosts: seq<Option<Host>>): seq<Host>
    decreases |hosts|
  {
    if hosts == [] then []
    else
      var before, last := Reachable(hosts[..|hosts| - 1]), hosts[|hosts| - 1];
      if last.Some? && last.value.Ok() then before + [last.value] else before
  }

  lemma {:induction false} ReachableOne(host: Option<Host>)
    ensures Reachable([host]) ==
            if host.Some? && host.value.vmCpus > 0 && host.value.vmMemoryGb > 0 && host.value.vmDiskGb > 0
            then [host.value] else []
  {
    assert [host][..0] == [];
  }

  lemma {:induction false} ReachableJoin(a: seq<Option<Host>>, b: seq<Option<Host>>)
    ensures Reachable(a + b) == Reachable(a) + Reachable(b)
    decreases |b|
  {
    if b == [] {
      assert a + b == a;
    } else {
      ReachableJoin(a, b[..|b| - 1]);
      assert (a + b)[..|a + b| - 1] == a + b[..|b| - 1];
    }
  }

  /** One count per host that could be asked, and their sum. */
  method GetAllAvailableCount(hosts: seq<Option<Host>>) returns (count: nat, counts: seq<nat>)
    ensures |counts| == |Reachable(hosts)|
    ensures forall i, n: nat :: 0 <= i < |counts| ==> (n <= counts[i] <==> Fits(Reachable(hosts)[i], n))
    ensures count == Sum(counts)
  {
    count, counts := 0, [];
    for k := 0 to |hosts|
      invariant |counts| == |Reachable(hosts[..k])|
      invariant forall i, n: nat :: 0 <= i < |counts| ==> (n <= counts[i] <==> Fits(Reachable(hosts[..k])[i], n))
      invariant count == Sum(counts)
    {
      assert hosts[..k + 1][..k] == hosts[..k];
      if hosts[k].Some? && hosts[k].value.Ok() {
        var available := AvailableCount(hosts[k].value);
        forall n: nat ensures n <= available <==> Fits(hosts[k].value, n) {
          AvailableIffFits(hosts[k].value, n);
        }
        SumAppend(counts, available);
        counts := counts + [available];
        count := count + available;
      }
    }
    assert hosts[..|hosts|] == hosts;
  }

  // ----- spreading the names over the hosts

  /** What a host does with the names it is asked to create: it creates some and answers with the
      addresses of those that are counted, or it raises after it has created some. */
  datatype HostResult = Made(names: set<string>, addressed: set<string>) | FailedAfter(names: set<string>)
  {
    function Counted(): set<string> {
      if Made? then addressed else {}
    }
  }

  type Hosts = (nat, set<string>) -> HostResult

  /** A host creates nothing it was not asked for, and has addresses of what it created only. */
  ghost predicate Honest(hosts: Hosts) {
    forall i: nat, asked: set<string> :: hosts(i, asked).Counted() <= hosts(i, asked).names <= asked
  }

  /** Every host creates all it is asked for. */
  ghost predicate Reliable(hosts: Hosts) {
    forall i: nat, asked: set<string> :: hosts(i, asked) == Made(asked, asked)
  }

  /** One host of the loop: its room, the names it was asked for, those it created, and those of
      them that the loop counts. */
  datatype Turn = Turn(room: nat, asked: set<string>, made: set<string>, counted: set<string>)
  {
    /** What a turn does to the names still needed: what is not counted is asked for again. */
    function Left(need: set<string>): set<string> {
      need - counted
    }

    ghost predicate Legal(need: set<string>) {
      asked <= need && |asked| == Min(|need|, room) && counted <= made <= asked
    }
  }

  /** Any `n` of the names. */
  method PickSome(names: set<string>, n: nat) returns (some: set<string>)
    requires n <= |names|
    ensures some <= names && |some| == n
  {
    some := {};
    var rest := names;
    while |some| < n
      invariant some + rest == names && some !! rest && |some| <= n
    {
      assert |names| == |some| + |rest|;
      var name :| name in rest;
      rest := rest - {name};
      some := some + {name};
    }
  }

  ghost function Union(sets: seq<set<string>>): set<string> {
    if sets == [] then {} else Union(sets[..|sets| - 1]) + sets[|sets| - 1]
  }

  ghost predicate Disjoint(sets: seq<set<string>>) {
    forall i, j :: 0 <= i < j < |sets| ==> sets[i] !! sets[j]
  }

  lemma {:induction false} InUnion(sets: seq<set<string>>, i: nat)
    requires i < |sets|
    ensures sets[i] <= Union(sets)
  {
    if i < |sets| - 1 {
      InUnion(sets[..|sets| - 1], i);
    }
  }

  lemma {:induction false} UnionAppend(sets: seq<set<string>>, s: set<string>)
    ensures Union(sets + [s]) == Union(sets) + s
  {
    assert (sets + [s])[..|sets|] == sets;
  }

  /** The names needed before turn `k`. */
  ghost function NeedBefore(vmNames: set<string>, turns: seq<Turn>, k: nat): set<string>
    requires k <= |turns|
  {
    if k == 0 then vmNames else turns[k - 1].Left(NeedBefore(vmNames, turns, k - 1))
  }

  /** The hosts asked in turn, each for names needed at that time. */
  ghost predicate Asked(vmNames: set<string>, turns: seq<Turn>) {
    forall k :: 0 <= k < |turns| ==> turns[k].Legal(NeedBefore(vmNames, turns, k))
  }

  function RoomsOf(turns: seq<Turn>): (r: seq<nat>)
    ensures |r| == |turns| && forall i :: 0 <= i < |r| ==> r[i] == turns[i].room
  {
    seq(|turns|, i requires 0 <= i < |turns| => turns[i].room)
  }

  lemma {:induction false} RoomsAppend(turns: seq<Turn>, turn: Turn, available: seq<nat>)
    requires RoomsOf(turns) <= available && |turns| < |available| && turn.room == available[|turns|]
    ensures RoomsOf(turns + [turn]) <= available
  {
    assert RoomsOf(turns + [turn]) == RoomsOf(turns) + [turn.room];
  }

  function CountedOf(turns: seq<Turn>): (r: seq<set<string>>)
    ensures |r| == |turns| && forall i :: 0 <= i < |r| ==> r[i] == turns[i].counted
  {
    seq(|turns|, i requires 0 <= i < |turns| => turns[i].counted)
  }

  /** One turn of the loop: a host is asked for what is needed, up to its room. */
  method AskHost(index: nat, room: nat, need: set<string>, hosts: Hosts) returns (turn: Turn)
    requires Honest(hosts)
    ensures turn.room == room && turn.Legal(need)
    ensures turn.asked != {} ==>
      turn.made == hosts(index, turn.asked).names && turn.counted == hosts(index, turn.asked).Counted()
    ensures Reliable(hosts) ==> turn.counted == turn.asked
  {
    var perHost := room;
    if perHost > 0 {
      if |need| <= perHost {
        perHost := |need|;
      }
      var asked := PickSome(need, perHost);
      var result := hosts(index, asked);
      turn := Turn(room, asked, result.names, result.Counted());
    } else {
      turn := Turn(room, {}, {}, {});
    }
  }

  /** What has been counted and what is still needed make up the request, with no name twice and
      no host over its room. */
  ghost predicate Placed(vmNames: set<string>, turns: seq<Turn>, need: set<string>) {
    var counted := CountedOf(turns);
    Disjoint(counted) && Union(counted) + need == vmNames && Union(counted) !! need
  }

  lemma {:induction false} CountedAppend(turns: seq<Turn>, turn: Turn)
    ensures CountedOf(turns + [turn]) == CountedOf(turns) + [turn.counted]
  {
  }

  lemma {:induction false} MoveCounted(all: set<string>, placed: set<string>, need: set<string>, counted: set<string>)
    requires placed + need == all && placed !! need && counted <= need
    ensures placed + counted + (need - counted) == all && placed + counted !! need - counted
  {
  }

  lemma {:induction false} DisjointAppend(sets: seq<set<string>>, s: set<string>)
    requires Disjoint(sets) && Union(sets) !! s
    ensures Disjoint(sets + [s])
  {
    forall i | 0 <= i < |sets| ensures sets[i] !! s {
      InUnion(sets, i);
    }
  }

  lemma {:induction false} PlaceMore(vmNames: set<string>, turns: seq<Turn>, need: set<string>, turn: Turn)
    requires Placed(vmNames, turns, need) && turn.counted <= need
    ensures Placed(vmNames, turns + [turn], turn.Left(need))
  {
    var counted := CountedOf(turns);
    CountedAppend(turns, turn);
    UnionAppend(counted, turn.counted);
    DisjointAppend(counted, turn.counted);
    MoveCounted(vmNames, Union(counted), need, turn.counted);
  }

  lemma {:induction false} NeedOfFirst(vmNames: set<string>, turns: seq<Turn>, turn: Turn, k: nat)
    requires k <= |turns|
    ensures NeedBefore(vmNames, turns + [turn], k) == NeedBefore(vmNames, turns, k)
  {
    assert (turns + [turn])[..k] == turns[..k];
    SameTurns(vmNames, turns + [turn], turns, k);
  }

  lemma {:induction false} AskMore(vmNames: set<string>, turns: seq<Turn>, turn: Turn, need: set<string>)
    requires Asked(vmNames, turns) && need == NeedBefore(vmNames, turns, |turns|) && turn.Legal(need)
    ensures Asked(vmNames, turns + [turn])
    ensures NeedBefore(vmNames, turns + [turn], |turns| + 1) == turn.Left(need)
  {
    var more, n := turns + [turn], |turns|;
    NeedOfFirst(vmNames, turns, turn, n);
    forall k | 0 <= k <= n ensures more[k].Legal(NeedBefore(vmNames, more, k)) {
      NeedOfFirst(vmNames, turns, turn, k);
      if k < n {
        assert more[k] == turns[k] && turns[k].Legal(NeedBefore(vmNames, turns, k));
      }
    }
  }

  lemma {:induction false} SameTurns(vmNames: set<string>, a: seq<Turn>, b: seq<Turn>, k: nat)
    requires k <= |a| && k <= |b| && a[..k] == b[..k]
    ensures NeedBefore(vmNames, a, k) == NeedBefore(vmNames, b, k)
  {
    if k > 0 {
      var p := k - 1;
      assert a[..k][..p] == b[..k][..p] && a[..k][p] == b[..k][p];
      SameTurns(vmNames, a, b, p);
    }
  }

  /** The turns of the hosts, and the names they leave. */
  ghost predicate Going(vmNames: set<string>, turns: seq<Turn>, need: set<string>) {
    Asked(vmNames, turns) && need == NeedBefore(vmNames, turns, |turns|) && Placed(vmNames, turns, need)
  }

  lemma {:induction false} NextTurn(vmNames: set<string>, turns: seq<Turn>, need: set<string>, turn: Turn)
    requires Going(vmNames, turns, need) && turn.Legal(need)
    ensures Going(vmNames, turns + [turn], turn.Left(need))
  {
    PlaceMore(vmNames, turns, need, turn);
    AskMore(vmNames, turns, turn, need);
  }

  lemma {:induction false} LeftSize(turn: Turn, need: set<string>)
    requires turn.Legal(need) && turn.counted == turn.asked
    ensures |turn.Left(need)| == |need| - Min(|need|, turn.room)
  {
    Taken(need, turn.counted);
  }

  lemma {:induction false} NoTurn(vmNames: set<string>)
    ensures Going(vmNames, [], vmNames)
  {
  }

  /** The body of the loop, for the next host. */
  method OneTurn(available: seq<nat>, vmNames: set<string>, turns: seq<Turn>, need: set<string>, hosts: Hosts)
    returns (turns': seq<Turn>, need': set<string>)
    requires Honest(hosts) && Going(vmNames, turns, need) && RoomsOf(turns) <= available && |turns| < |available|
    ensures Going(vmNames, turns', need') && RoomsOf(turns') <= available
    ensures |turns'| == |turns| + 1 && turns'[..|turns|] == turns
    ensures Reliable(hosts) ==> |need'| == |need| - Min(|need|, available[|turns|])
  {
    var turn := AskHost(|turns|, available[|turns|], need, hosts);
    NextTurn(vmNames, turns, need, turn);
    RoomsAppend(turns, turn, available);
    if Reliable(hosts) {
      LeftSize(turn, need);
    }
    turns', need' := turns + [turn], turn.Left(need);
  }

  /** Asks the hosts in turn until nothing is needed; with hosts that all deliver, whatever there
      is room for is placed. */
  method Place(available: seq<nat>, vmNames: set<string>, hosts: Hosts)
    returns (turns: seq<Turn>, need: set<string>)
    requires Honest(hosts)
    ensures RoomsOf(turns) <= available
    ensures Going(vmNames, turns, need) && (need == {} || |turns| == |available|)
    ensures Reliable(hosts) ==> |need| == |vmNames| - Min(Sum(available), |vmNames|)
  {
    turns, need := [], vmNames;
    NoTurn(vmNames);
    assert available[..0] == [];
    for index := 0 to |available|
      invariant |turns| == index && RoomsOf(turns) <= available
      invariant Going(vmNames, turns, need)
      invariant Reliable(hosts) ==> |need| == |vmNames| - Min(Sum(available[..index]), |vmNames|)
    {
      if need == {} {
        SumPrefix(available, index);
        return;
      }
      SumNext(available, index);
      turns, need := OneTurn(available, vmNames, turns, need, hosts);
    }
    assert available[..|available|] == available;
  }

  lemma {:induction false} SumNext(s: seq<nat>, k: nat)
    requires k < |s|
    ensures Sum(s[..k + 1]) == Sum(s[..k]) + s[k]
  {
    assert s[..k + 1] == s[..k] + [s[k]];
    SumAppend(s[..k], s[k]);
  }

  lemma {:induction false} Taken(need: set<string>, made: set<string>)
    requires made <= need
    ensures |need - made| == |need| - |made|
  {
  }

  lemma {:induction false} SumPrefix(s: seq<nat>, k: nat)
    requires k <= |s|
    ensures Sum(s[..k]) <= Sum(s)
    decreases |s|
  {
    if k > 0 {
      SumPrefix(s[1..], k - 1);
      assert s[..k][1..] == s[1..][..k - 1];
    }
  }

  lemma {:induction false} SetOfDistinct(s: seq<string>)
    requires Distinct(s)
    ensures |set x | x in s| == |s|
  {
    if s != [] {
      SetOfDistinct(s[1..]);
      var rest := set x | x in s[1..];
      assert (set x | x in s) == {s[0]} + rest;
    }
  }

  lemma {:induction false} MadeWithinRoom(vmNames: set<string>, turns: seq<Turn>, available: seq<nat>, i: nat)
    requires Asked(vmNames, turns) && RoomsOf(turns) <= available && i < |turns|
    ensures |turns[i].made| <= available[i]
  {
    assert turns[i].Legal(NeedBefore(vmNames, turns, i)) && RoomsOf(turns)[i] == available[i];
    SubsetSize(turns[i].made, turns[i].asked);
  }

  lemma {:induction false} CountedAndNeeded(vmNames: set<string>, turns: seq<Turn>, need: set<string>)
    requires Placed(vmNames, turns, need)
    ensures |Union(CountedOf(turns))| + |need| == |vmNames|
  {
    assert |Union(CountedOf(turns)) + need| == |Union(CountedOf(turns))| + |need|;
  }

  datatype Served = Refused | Answered(turns: seq<Turn>, need: set<string>)

  function NameSet(username: string, vmCount: nat): set<string> {
    set name | name in GenerateVmNames(username, vmCount)
  }

  /** One request, with `others` VMs reserved by other requests: refused exactly when it asks for
      more than is left; otherwise what every host creates fits it, counted or not, and hosts that
      all deliver leave over only what there is no room for. */
  method Serve(username: string, vmCount: nat, hosts: seq<Option<Host>>, others: int, outcome: Hosts) returns (r: Served)
    requires Honest(outcome)
    ensures r.Refused? <==> vmCount > 0 && vmCount > Capacity(Reachable(hosts)) - others
    ensures r.Answered? ==>
      && |r.turns| <= |Reachable(hosts)| && Going(NameSet(username, vmCount), r.turns, r.need)
      && (forall i :: 0 <= i < |r.turns| ==> Fits(Reachable(hosts)[i], |r.turns[i].made|))
      && |Union(CountedOf(r.turns))| + |r.need| == vmCount
      && (Reliable(outcome) ==> |r.need| == vmCount - Min(Capacity(Reachable(hosts)), vmCount))
  {
    var names := GenerateVmNames(username, vmCount);
    NamesDistinct(username, vmCount);
    SetOfDistinct(names);
    var count, counts := GetAllAvailableCount(hosts);
    ReachableOk(hosts);
    SameCapacity(Reachable(hosts), counts);
    if vmCount > (if count - others > 0 then count - others else 0) {
      return Refused;
    }
    var turns, need := Place(counts, NameSet(username, vmCount), outcome);
    forall i | 0 <= i < |turns| ensures Fits(Reachable(hosts)[i], |turns[i].made|) {
      MadeWithinRoom(NameSet(username, vmCount), turns, counts, i);
    }
    CountedAndNeeded(NameSet(username, vmCount), turns, need);
    r := Answered(turns, need);
  }

  /** The largest number of VMs that fit a host. */
  ghost function Largest(h: Host, bound: nat): (n: nat)
    ensures n <= bound && (n > 0 ==> Fits(h, n))
    ensures forall m :: n < m <= bound ==> !Fits(h, m)
  {
    if bound == 0 || Fits(h, bound) then bound else Largest(h, bound - 1)
  }

  /** The most VMs that fit the hosts together. */
  ghost function Capacity(hosts: seq<Host>): nat {
    if hosts == [] then 0 else Largest(hosts[0], hosts[0].freeCpus) + Capacity(hosts[1..])
  }

  lemma {:induction false} LargestIsCount(h: Host, count: nat)
    requires h.vmCpus > 0 && forall n: nat :: n <= count <==> Fits(h, n)
    ensures Largest(h, h.freeCpus) == count
  {
    assert Fits(h, count);
    ScaleLess(1, h.vmCpus, count);
    var l := Largest(h, h.freeCpus);
    assert l > 0 ==> Fits(h, l);
    assert count <= h.freeCpus;
  }

  lemma {:induction false} SameCapacity(hosts: seq<Host>, counts: seq<nat>)
    requires |hosts| == |counts| && forall i :: 0 <= i < |hosts| ==> hosts[i].vmCpus > 0
    requires forall i, n: nat :: 0 <= i < |counts| ==> (n <= counts[i] <==> Fits(hosts[i], n))
    ensures Capacity(hosts) == Sum(counts)
    decreases |hosts|
  {
    if hosts != [] {
      LargestIsCount(hosts[0], counts[0]);
      SameCapacity(hosts[1..], counts[1..]);
    }
  }

  lemma {:induction false} ReachableOk(hosts: seq<Option<Host>>)
    ensures forall i :: 0 <= i < |Reachable(hosts)| ==> Reachable(hosts)[i].Ok()
    decreases |hosts|
  {
    if hosts != [] {
      ReachableOk(hosts[..|hosts| - 1]);
    }
  }

  // ----- names created twice

  function MadeOf(turns: seq<Turn>): (r: seq<set<string>>)
    ensures |r| == |turns| && forall i :: 0 <= i < |r| ==> r[i] == turns[i].made
  {
    seq(|turns|, i requires 0 <= i < |turns| => turns[i].made)
  }

  /** The hosts behave alike: the same room, and as many VMs created and counted. */
  ghost predicate SamePattern(a: seq<Turn>, b: seq<Turn>) {
    |a| == |b| && forall i :: 0 <= i < |a| ==>
      a[i].room == b[i].room && |a[i].made| == |b[i].made| && |a[i].counted| == |b[i].counted|
  }

  /** A host that leaves a VM uncounted, as one that raises after creating it does, is followed by
      one that creates some. */
  ghost predicate MoreAfterLoss(turns: seq<Turn>) {
    exists i, j :: 0 <= i < j < |turns| && |turns[i].counted| < |turns[i].made| && |turns[j].made| > 0
  }

  lemma {:induction false} NeedShrinks(vmNames: set<string>, turns: seq<Turn>, i: nat, j: nat)
    requires i < j <= |turns|
    ensures NeedBefore(vmNames, turns, j) <= turns[i].Left(NeedBefore(vmNames, turns, i))
  {
    if i + 1 < j {
      NeedShrinks(vmNames, turns, i, j - 1);
    }
  }

  lemma {:induction false} AllCounted(turn: Turn)
    requires turn.counted <= turn.made && |turn.counted| == |turn.made|
    ensures turn.counted == turn.made
  {
    Taken(turn.made, turn.counted);
    assert turn.made == turn.counted + (turn.made - turn.counted);
  }

  lemma {:induction false} DistinctWithout(vmNames: set<string>, turns: seq<Turn>)
    requires Asked(vmNames, turns) && !MoreAfterLoss(turns)
    ensures Disjoint(MadeOf(turns))
  {
    forall i, j | 0 <= i < j < |turns| ensures MadeOf(turns)[i] !! MadeOf(turns)[j] {
      assert turns[i].Legal(NeedBefore(vmNames, turns, i)) && turns[j].Legal(NeedBefore(vmNames, turns, j));
      if turns[j].made != {} {
        SubsetSize(turns[i].counted, turns[i].made);
        AllCounted(turns[i]);
        NeedShrinks(vmNames, turns, i, j);
      }
    }
  }

  lemma {:induction false} SameLosses(a: seq<Turn>, b: seq<Turn>)
    requires SamePattern(a, b) && MoreAfterLoss(a)
    ensures MoreAfterLoss(b)
  {
    var i, j :| 0 <= i < j < |a| && |a[i].counted| < |a[i].made| && |a[j].made| > 0;
    assert |b[i].counted| < |b[i].made| && |b[j].made| > 0;
  }

  /** A name that a host leaves uncounted is needed until some host creates it again. */
  lemma {:induction false} StillNeeded(vmNames: set<string>, turns: seq<Turn>, i: nat, j: nat, x: string)
    requires i < j <= |turns| && x in turns[i].Left(NeedBefore(vmNames, turns, i))
    requires forall k :: i < k < j ==> x !in turns[k].counted
    ensures x in NeedBefore(vmNames, turns, j)
  {
    if i + 1 < j {
      var p := j - 1;
      StillNeeded(vmNames, turns, i, p, x);
      assert x !in turns[p].counted;
    }
  }

  /** The set with two names exchanged. */
  function Swap(x: string, y: string, s: set<string>): set<string> {
    (s - {x, y}) + (if x in s then {y} else {}) + (if y in s then {x} else {})
  }

  lemma {:induction false} ExchangeSize(s: set<string>, x: string, y: string)
    requires x in s && y !in s
    ensures Swap(x, y, s) == (s - {x}) + {y} && |Swap(x, y, s)| == |s|
  {
    assert Swap(x, y, s) == (s - {x}) + {y};
  }

  lemma {:induction false} SwapSame(x: string, y: string, s: set<string>)
    requires x in s <==> y in s
    ensures Swap(x, y, s) == s
  {
    if x in s {
      assert Swap(x, y, s) == (s - {x, y}) + {y} + {x};
    }
  }

  lemma {:induction false} SwapOrder(x: string, y: string, s: set<string>)
    ensures Swap(x, y, s) == Swap(y, x, s)
  {
    assert s - {x, y} == s - {y, x};
  }

  lemma {:induction false} SwapSize(x: string, y: string, s: set<string>)
    ensures |Swap(x, y, s)| == |s|
  {
    if x in s && y !in s {
      ExchangeSize(s, x, y);
    } else if y in s && x !in s {
      ExchangeSize(s, y, x);
      SwapOrder(x, y, s);
    } else {
      SwapSame(x, y, s);
    }
  }

  lemma {:induction false} SwapSubset(x: string, y: string, a: set<string>, b: set<string>)
    requires a <= b
    ensures Swap(x, y, a) <= Swap(x, y, b)
  {
  }

  lemma {:induction false} SwapMinus(x: string, y: string, a: set<string>, b: set<string>)
    ensures Swap(x, y, a) - Swap(x, y, b) == Swap(x, y, a - b)
  {
  }

  function SwapTurn(x: string, y: string, t: Turn): Turn {
    t.(asked := Swap(x, y, t.asked), made := Swap(x, y, t.made), counted := Swap(x, y, t.counted))
  }

  lemma {:induction false} SwapLegal(x: string, y: string, t: Turn, need: set<string>)
    requires t.Legal(need)
    ensures SwapTurn(x, y, t).Legal(Swap(x, y, need))
  {
    SwapSize(x, y, need);
    SwapSize(x, y, t.asked);
    SwapSubset(x, y, t.asked, need);
    SwapSubset(x, y, t.made, t.asked);
    SwapSubset(x, y, t.counted, t.made);
  }

  lemma {:induction false} SwapLeft(x: string, y: string, t: Turn, need: set<string>)
    ensures SwapTurn(x, y, t).Left(Swap(x, y, need)) == Swap(x, y, t.Left(need))
  {
    SwapMinus(x, y, need, t.counted);
  }

  /** The same turns, but for two names exchanged from turn `j` on. */
  function SwapFrom(x: string, y: string, turns: seq<Turn>, j: nat): (r: seq<Turn>)
    requires j <= |turns|
    ensures |r| == |turns| && forall k :: 0 <= k < |r| ==> r[k] == if k < j then turns[k] else SwapTurn(x, y, turns[k])
  {
    seq(|turns|, k requires 0 <= k < |turns| => if k < j then turns[k] else SwapTurn(x, y, turns[k]))
  }

  lemma {:induction false} NeedAfter(vmNames: set<string>, turns: seq<Turn>, p: nat, k: nat)
    requires p + 1 == k <= |turns|
    ensures NeedBefore(vmNames, turns, k) == turns[p].Left(NeedBefore(vmNames, turns, p))
  {
  }

  lemma {:induction false} SwapNeed(vmNames: set<string>, turns: seq<Turn>, x: string, y: string, j: nat, k: nat)
    requires j <= k <= |turns|
    requires x in NeedBefore(vmNames, turns, j) && y in NeedBefore(vmNames, turns, j)
    ensures NeedBefore(vmNames, SwapFrom(x, y, turns, j), k) == Swap(x, y, NeedBefore(vmNames, turns, k))
    decreases k
  {
    var other := SwapFrom(x, y, turns, j);
    if k == j {
      assert other[..j] == turns[..j];
      SameTurns(vmNames, other, turns, j);
      SwapSame(x, y, NeedBefore(vmNames, turns, j));
    } else {
      var p := k - 1;
      SwapNeed(vmNames, turns, x, y, j, p);
      SwapLeft(x, y, turns[p], NeedBefore(vmNames, turns, p));
      NeedAfter(vmNames, turns, p, k);
      NeedAfter(vmNames, other, p, k);
    }
  }

  /** Turn `k` of the exchanged turns. */
  lemma {:induction false} SwapAt(vmNames: set<string>, turns: seq<Turn>, x: string, y: string, j: nat, k: nat)
    requires Asked(vmNames, turns) && j < |turns| && k < |turns|
    requires x in NeedBefore(vmNames, turns, j) && y in NeedBefore(vmNames, turns, j)
    ensures SwapFrom(x, y, turns, j)[k].Legal(NeedBefore(vmNames, SwapFrom(x, y, turns, j), k))
  {
    var need := NeedBefore(vmNames, turns, k);
    assert turns[k].Legal(need);
    if k < j {
      assert SwapFrom(x, y, turns, j)[..k] == turns[..k];
      SameTurns(vmNames, SwapFrom(x, y, turns, j), turns, k);
    } else {
      SwapNeed(vmNames, turns, x, y, j, k);
      SwapLegal(x, y, turns[k], need);
    }
  }

  lemma {:induction false} SwapPattern(turns: seq<Turn>, x: string, y: string, j: nat)
    requires j < |turns|
    ensures SamePattern(SwapFrom(x, y, turns, j), turns)
  {
    forall k | 0 <= k < |turns|
      ensures |SwapTurn(x, y, turns[k]).made| == |turns[k].made| && |SwapTurn(x, y, turns[k]).counted| == |turns[k].counted|
    {
      SwapSize(x, y, turns[k].made);
      SwapSize(x, y, turns[k].counted);
    }
  }

  lemma {:induction false} SwapAsked(vmNames: set<string>, turns: seq<Turn>, x: string, y: string, j: nat)
    requires Asked(vmNames, turns) && j < |turns|
    requires x in NeedBefore(vmNames, turns, j) && y in NeedBefore(vmNames, turns, j)
    ensures Asked(vmNames, SwapFrom(x, y, turns, j)) && SamePattern(SwapFrom(x, y, turns, j), turns)
  {
    SwapPattern(turns, x, y, j);
    var other := SwapFrom(x, y, turns, j);
    forall k | 0 <= k < |other| ensures other[k].Legal(NeedBefore(vmNames, other, k)) {
      SwapAt(vmNames, turns, x, y, j, k);
    }
  }

  lemma {:induction false} InBoth(turns: seq<Turn>, i: nat, j: nat, x: string)
    requires i < j < |turns| && x in turns[i].made && x in turns[j].made
    ensures !Disjoint(MadeOf(turns))
  {
    assert x in MadeOf(turns)[i] && x in MadeOf(turns)[j];
  }

  lemma {:induction false} NotAgain(turns: seq<Turn>, i: nat, j: nat, x: string)
    requires Disjoint(MadeOf(turns)) && i < j < |turns| && x in turns[i].made
    ensures x !in turns[j].made
  {
    assert MadeOf(turns)[i] !! MadeOf(turns)[j];
  }

  /** With a name that one host has created and the loop needs again, another host may be asked
      for it in place of one of its own. */
  lemma {:induction false} Exchanged(vmNames: set<string>, turns: seq<Turn>, i: nat, j: nat, x: string, y: string)
    requires Asked(vmNames, turns) && i < j < |turns| && x in turns[i].made && y in turns[j].made
    requires x in NeedBefore(vmNames, turns, j) && y in NeedBefore(vmNames, turns, j)
    ensures var other := SwapFrom(x, y, turns, j);
      Asked(vmNames, other) && SamePattern(other, turns) && !Disjoint(MadeOf(other))
  {
    SwapAsked(vmNames, turns, x, y, j);
    InBoth(SwapFrom(x, y, turns, j), i, j, x);
  }

  lemma {:induction false} Uncounted(turn: Turn) returns (x: string)
    requires turn.counted <= turn.made && |turn.counted| < |turn.made|
    ensures x in turn.made && x !in turn.counted
  {
    Taken(turn.made, turn.counted);
    x :| x in turn.made - turn.counted;
  }

  /** If a host creates VMs after one that has left some uncounted, the names may be picked so that
      one is created twice. */
  lemma {:induction false} TwiceAfterLoss(vmNames: set<string>, turns: seq<Turn>) returns (other: seq<Turn>)
    requires Asked(vmNames, turns) && MoreAfterLoss(turns)
    ensures Asked(vmNames, other) && SamePattern(other, turns) && !Disjoint(MadeOf(other))
  {
    if !Disjoint(MadeOf(turns)) {
      other := turns;
    } else {
      var i, j :| 0 <= i < j < |turns| && |turns[i].counted| < |turns[i].made| && |turns[j].made| > 0;
      assert turns[i].Legal(NeedBefore(vmNames, turns, i)) && turns[j].Legal(NeedBefore(vmNames, turns, j));
      var x := Uncounted(turns[i]);
      var y :| y in turns[j].made;
      forall k | i < k < j ensures x !in turns[k].counted {
        NotAgain(turns, i, k, x);
        assert turns[k].Legal(NeedBefore(vmNames, turns, k));
      }
      StillNeeded(vmNames, turns, i, j, x);
      Exchanged(vmNames, turns, i, j, x, y);
      other := SwapFrom(x, y, turns, j);
    }
  }

  /** Whatever names are picked, with hosts that behave this way no name is created twice, if and
      only if no host that leaves a VM uncounted is followed by one that creates some. */
  lemma {:induction false} NamesCreatedOnceIff(vmNames: set<string>, turns: seq<Turn>)
    requires Asked(vmNames, turns)
    ensures (forall other :: Asked(vmNames, other) && SamePattern(other, turns) ==> Disjoint(MadeOf(other)))
            <==> !MoreAfterLoss(turns)
  {
    if MoreAfterLoss(turns) {
      var other := TwiceAfterLoss(vmNames, turns);
    } else {
      forall other | Asked(vmNames, other) && SamePattern(other, turns) ensures Disjoint(MadeOf(other)) {
        if MoreAfterLoss(other) {
          SameLosses(other, turns);
        }
        DistinctWithout(vmNames, other);
      }
    }
  }
}
