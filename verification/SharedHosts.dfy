/** Admitted requests that place their VMs at the same time: each works through the hosts with the
    room it read for itself when it was admitted. */
module SharedHosts {
  import Placement

  /** A request with the names it still needs, the counts it has read, the host to be asked next,
      and the VMs made by the host it is asking. */
  datatype Placer = Placer(need: nat, counts: seq<nat>, next: nat, asking: bool, made: nat)
  {
    /** What it asks a host for. */
    function Share(host: nat): nat
      requires host < |counts|
    {
      Placement.Min(need, counts[host])
    }

    /** What it may still create on a host. */
    function Claim(host: nat): int {
      if host >= |counts| then 0
      else if host >= next then Share(host)
      else if asking && host + 1 == next then Share(host) - made
      else 0
    }

    ghost predicate Ok(hosts: nat) {
      && |counts| == hosts && next <= hosts
      && (if asking then next > 0 && made <= Share(next - 1) else made == 0)
    }
  }

  /** The VMs every host has room for, negative if there are too many, and the requests. */
  datatype State = State(rooms: seq<int>, placers: seq<Placer>)

  datatype Action =
    | Admit(need: nat, others: int)    // with what others have reserved
    | Ask(id: nat)
    | Create(id: nat)
    | Answer(id: nat, counted: nat)
    | Raise(id: nat)
    | Release(host: nat)

  /** The counts read from the hosts. */
  function Counts(rooms: seq<int>): (counts: seq<nat>)
    ensures |counts| == |rooms|
    ensures forall i :: 0 <= i < |rooms| ==> counts[i] == if rooms[i] > 0 then rooms[i] else 0
  {
    seq(|rooms|, i requires 0 <= i < |rooms| => if rooms[i] > 0 then rooms[i] else 0)
  }

  predicate Enabled(s: State, a: Action) {
    match a
    case Admit(need, others) => need == 0 || need <= Placement.Sum(Counts(s.rooms)) - others
    case Release(host) => host < |s.rooms|
    case Ask(id) =>
      id < |s.placers| && var p := s.placers[id]; !p.asking && p.need > 0 && p.next < |p.counts|
    case Create(id) =>
      && id < |s.placers| && var p := s.placers[id];
      p.asking && 0 < p.next <= |p.counts| && p.next <= |s.rooms| && p.made < p.Share(p.next - 1)
    case Answer(id, counted) =>
      id < |s.placers| && s.placers[id].asking && counted <= s.placers[id].made <= s.placers[id].need
    case Raise(id) => id < |s.placers| && s.placers[id].asking
  }

  function Next(s: State, a: Action): State
    requires Enabled(s, a)
  {
    match a
    case Admit(need, _) => s.(placers := s.placers + [Placer(need, Counts(s.rooms), 0, false, 0)])
    case Release(host) => s.(rooms := s.rooms[host := s.rooms[host] + 1])
    case Ask(id) =>
      var p := s.placers[id];
      s.(placers := s.placers[id := p.(next := p.next + 1, asking := true)])
    case Create(id) =>
      var p := s.placers[id];
      var host := p.next - 1;
      s.(rooms := s.rooms[host := s.rooms[host] - 1], placers := s.placers[id := p.(made := p.made + 1)])
    case Answer(id, counted) =>
      var p := s.placers[id];
      s.(placers := s.placers[id := p.(need := p.need - counted, asking := false, made := 0)])
    case Raise(id) => s.(placers := s.placers[id := s.placers[id].(asking := false, made := 0)])
  }

  /** All that may still be created on a host. */
  ghost function TotalClaim(ps: seq<Placer>, host: nat): int {
    if ps == [] then 0 else ps[0].Claim(host) + TotalClaim(ps[1..], host)
  }

  ghost predicate WellFormed(s: State) {
    forall i :: 0 <= i < |s.placers| ==> s.placers[i].Ok(|s.rooms|)
  }

  lemma {:induction false} UpdateClaim(ps: seq<Placer>, id: nat, p: Placer, host: nat)
    requires id < |ps|
    ensures TotalClaim(ps[id := p], host) == TotalClaim(ps, host) - ps[id].Claim(host) + p.Claim(host)
    decreases |ps|
  {
    if id > 0 {
      UpdateClaim(ps[1..], id - 1, p, host);
      assert ps[id := p][1..] == ps[1..][id - 1 := p];
    } else {
      assert ps[id := p][1..] == ps[1..];
    }
  }

  lemma {:induction false} AppendClaim(ps: seq<Placer>, p: Placer, host: nat)
    ensures TotalClaim(ps + [p], host) == TotalClaim(ps, host) + p.Claim(host)
    decreases |ps|
  {
    if ps != [] {
      AppendClaim(ps[1..], p, host);
      assert (ps + [p])[1..] == ps[1..] + [p];
    } else {
      assert [] + [p] == [p] && [p][1..] == [];
    }
  }

  lemma {:induction false} ClaimsAreNatural(ps: seq<Placer>, hosts: nat, host: nat)
    requires forall i :: 0 <= i < |ps| ==> ps[i].Ok(hosts)
    ensures TotalClaim(ps, host) >= 0
    decreases |ps|
  {
    if ps != [] {
      ClaimsAreNatural(ps[1..], hosts, host);
    }
  }

  lemma {:induction false} SomeClaim(ps: seq<Placer>, host: nat) returns (id: nat)
    requires TotalClaim(ps, host) > 0
    ensures id < |ps| && ps[id].Claim(host) > 0
  {
    if ps[0].Claim(host) > 0 {
      id := 0;
    } else {
      var rest := SomeClaim(ps[1..], host);
      id := rest + 1;
    }
  }

  // ----- one step

  /** Every host has room for all that may still be created on it. */
  ghost predicate Safe(s: State) {
    forall h: nat :: h < |s.rooms| ==> TotalClaim(s.placers, h) <= s.rooms[h]
  }

  ghost predicate Overfilled(s: State) {
    exists h :: 0 <= h < |s.rooms| && s.rooms[h] < 0
  }

  lemma {:induction false} StepWellFormed(s: State, a: Action)
    requires WellFormed(s) && Enabled(s, a)
    ensures WellFormed(Next(s, a)) && |Next(s, a).rooms| == |s.rooms|
  {
  }

  /** No step but an admission lets more be created on a host than before. */
  lemma {:induction false} StepClaims(s: State, a: Action, h: nat)
    requires WellFormed(s) && Enabled(s, a) && !a.Admit? && h < |s.rooms|
    ensures TotalClaim(Next(s, a).placers, h) - Next(s, a).rooms[h] <= TotalClaim(s.placers, h) - s.rooms[h]
  {
    if !a.Release? {
      UpdateClaim(s.placers, a.id, Next(s, a).placers[a.id], h);
    }
  }

  lemma {:induction false} StepSafe(s: State, a: Action)
    requires WellFormed(s) && Safe(s) && Enabled(s, a) && !a.Admit?
    ensures Safe(Next(s, a))
  {
    forall h: nat | h < |s.rooms| ensures TotalClaim(Next(s, a).placers, h) <= Next(s, a).rooms[h] {
      StepClaims(s, a, h);
    }
  }

  lemma {:induction false} SafeIsNotOverfilled(s: State)
    requires WellFormed(s) && Safe(s)
    ensures !Overfilled(s)
  {
    forall h: nat | h < |s.rooms| ensures s.rooms[h] >= 0 {
      ClaimsAreNatural(s.placers, |s.rooms|, h);
    }
  }

  // ----- what may follow without another admission

  ghost predicate Run(s: State, actions: seq<Action>, states: seq<State>) {
    && |states| == |actions| + 1 && states[0] == s
    && forall k :: 0 <= k < |actions| ==> Enabled(states[k], actions[k]) && states[k + 1] == Next(states[k], actions[k])
  }

  ghost predicate NoAdmission(actions: seq<Action>) {
    forall k :: 0 <= k < |actions| ==> !actions[k].Admit?
  }

  ghost predicate Leads(s: State, s': State) {
    exists actions: seq<Action>, states: seq<State> ::
      Run(s, actions, states) && states[|actions|] == s' && NoAdmission(actions)
  }

  lemma {:induction false} LeadsToItself(s: State)
    ensures Leads(s, s)
  {
    assert Run(s, [], [s]);
    assert [s][0] == s;
  }

  lemma {:induction false} LeadsNext(o: State, s: State, a: Action)
    requires Leads(o, s) && Enabled(s, a) && !a.Admit?
    ensures Leads(o, Next(s, a))
  {
    var actions, states :|
      Run(o, actions, states) && states[|actions|] == s && NoAdmission(actions);
    var more, further := actions + [a], states + [Next(s, a)];
    assert Run(o, more, further);
    assert further[|more|] == Next(s, a);
  }

  lemma {:induction false} SafeStays(s: State, actions: seq<Action>, states: seq<State>, k: nat)
    requires WellFormed(s) && Safe(s) && Run(s, actions, states) && k <= |actions|
    requires NoAdmission(actions)
    ensures WellFormed(states[k]) && Safe(states[k])
  {
    if k > 0 {
      var p := k - 1;
      SafeStays(s, actions, states, p);
      StepWellFormed(states[p], actions[p]);
      StepSafe(states[p], actions[p]);
    }
  }

  /** A request with something to come on a host gets there when the hosts before it raise. */
  lemma {:induction false} Bring(o: State, s: State, id: nat, h: nat) returns (s': State)
    requires WellFormed(s) && Leads(o, s) && h < |s.rooms| && id < |s.placers| && s.placers[id].Claim(h) > 0
    ensures WellFormed(s') && Leads(o, s') && s'.rooms == s.rooms && Enabled(s', Create(id))
    ensures s'.placers[id].next == h + 1 && TotalClaim(s'.placers, h) == TotalClaim(s.placers, h)
    decreases h + 1 - s.placers[id].next, s.placers[id].asking
  {
    var p := s.placers[id];
    assert p.Ok(|s.rooms|);
    if p.asking && p.next == h + 1 {
      s' := s;
    } else {
      var a := if p.asking then Raise(id) else Ask(id);
      StepWellFormed(s, a);
      UpdateClaim(s.placers, id, Next(s, a).placers[id], h);
      LeadsNext(o, s, a);
      s' := Bring(o, Next(s, a), id, h);
    }
  }

  /** All that may be created on a host is created in some interleaving. */
  lemma {:induction false} Fill(o: State, s: State, h: nat) returns (s': State)
    requires WellFormed(s) && Leads(o, s) && h < |s.rooms|
    ensures Leads(o, s') && |s'.rooms| == |s.rooms| && s'.rooms[h] == s.rooms[h] - TotalClaim(s.placers, h)
    decreases TotalClaim(s.placers, h)
  {
    ClaimsAreNatural(s.placers, |s.rooms|, h);
    if TotalClaim(s.placers, h) == 0 {
      s' := s;
    } else {
      var id := SomeClaim(s.placers, h);
      var there := Bring(o, s, id, h);
      var made := Next(there, Create(id));
      StepWellFormed(there, Create(id));
      UpdateClaim(there.placers, id, made.placers[id], h);
      LeadsNext(o, there, Create(id));
      s' := Fill(o, made, h);
    }
  }

  /** No host is overfilled, in whatever way the requests under way go on, if and only if every
      host has room for all that may still be created on it. */
  lemma {:induction false} SafeIff(s: State)
    requires WellFormed(s)
    ensures (forall s' :: Leads(s, s') ==> !Overfilled(s')) <==> Safe(s)
  {
    LeadsToItself(s);
    if Safe(s) {
      forall s' | Leads(s, s') ensures !Overfilled(s') {
        var actions, states :|
          Run(s, actions, states) && states[|actions|] == s' && NoAdmission(actions);
        SafeStays(s, actions, states, |actions|);
        SafeIsNotOverfilled(s');
      }
    } else {
      var h: nat :| h < |s.rooms| && TotalClaim(s.placers, h) > s.rooms[h];
      var s' := Fill(s, s, h);
      assert Overfilled(s');
    }
  }

  // ----- when the counts may be read

  /** On every host either nothing of others is to come, or it has room for that and the request. */
  ghost predicate RoomForAll(s: State, need: nat) {
    forall h: nat :: h < |s.rooms| ==> TotalClaim(s.placers, h) == 0 || TotalClaim(s.placers, h) + need <= s.rooms[h]
  }

  lemma {:induction false} AdmitSafeIff(s: State, need: nat, others: int)
    requires WellFormed(s) && Safe(s) && Enabled(s, Admit(need, others))
    ensures Safe(Next(s, Admit(need, others))) <==> RoomForAll(s, need)
  {
    var s' := Next(s, Admit(need, others));
    forall h: nat | h < |s.rooms|
      ensures TotalClaim(s'.placers, h) <= s'.rooms[h] <==>
              TotalClaim(s.placers, h) == 0 || TotalClaim(s.placers, h) + need <= s.rooms[h]
    {
      ClaimsAreNatural(s.placers, |s.rooms|, h);
      AppendClaim(s.placers, Placer(need, Counts(s.rooms), 0, false, 0), h);
    }
  }

  /** A request that is admitted on counts read now overfills no host, however it and the others go
      on and whatever the counter of reservations says, if and only if on every host either nothing
      of others is to come, or there is room for that and for the whole request. */
  lemma {:induction false} ReadSafeIff(s: State, need: nat, others: int)
    requires WellFormed(s) && Safe(s) && Enabled(s, Admit(need, others))
    ensures (forall s' :: Leads(Next(s, Admit(need, others)), s') ==> !Overfilled(s')) <==> RoomForAll(s, need)
  {
    StepWellFormed(s, Admit(need, others));
    SafeIff(Next(s, Admit(need, others)));
    AdmitSafeIff(s, need, others);
  }

  /** In every interleaving in which the counts are read at such moments only, as when requests are
      placed one after the other, no host is ever overfilled. */
  lemma {:induction false} RunsFit(rooms: seq<int>, actions: seq<Action>, states: seq<State>, k: nat)
    requires Run(State(rooms, []), actions, states) && k <= |actions|
    requires forall h :: 0 <= h < |rooms| ==> rooms[h] >= 0
    requires forall i :: 0 <= i < |actions| && actions[i].Admit? ==> RoomForAll(states[i], actions[i].need)
    ensures WellFormed(states[k]) && Safe(states[k]) && !Overfilled(states[k])
  {
    if k > 0 {
      var p := k - 1;
      RunsFit(rooms, actions, states, p);
      StepWellFormed(states[p], actions[p]);
      if actions[p].Admit? {
        AdmitSafeIff(states[p], actions[p].need, actions[p].others);
      } else {
        StepSafe(states[p], actions[p]);
      }
    }
    SafeIsNotOverfilled(states[k]);
  }

  // ----- what a run has done

  function ReleasesOf(actions: seq<Action>, host: nat, k: nat): nat
    requires k <= |actions|
  {
    if k == 0 then 0
    else ReleasesOf(actions, host, k - 1) + (if actions[k - 1] == Release(host) then 1 else 0)
  }

  /** The VMs created on a host: by the requests that have asked it last. */
  ghost function CreationsOn(actions: seq<Action>, states: seq<State>, host: nat, k: nat): nat
    requires k <= |actions| < |states|
  {
    if k == 0 then 0
    else
      var a, s := actions[k - 1], states[k - 1];
      CreationsOn(actions, states, host, k - 1)
      + (if a.Create? && a.id < |s.placers| && s.placers[a.id].next == host + 1 then 1 else 0)
  }

  /** Every creation takes one place of the host asked, and every release gives one back. */
  lemma {:induction false} RoomsAccounted(s: State, actions: seq<Action>, states: seq<State>, host: nat, k: nat)
    requires Run(s, actions, states) && k <= |actions| && host < |s.rooms|
    ensures |states[k].rooms| == |s.rooms|
    ensures states[k].rooms[host] == s.rooms[host] - CreationsOn(actions, states, host, k) + ReleasesOf(actions, host, k)
  {
    if k > 0 {
      var p := k - 1;
      RoomsAccounted(s, actions, states, host, p);
    }
  }

  function CountedFor(actions: seq<Action>, id: nat, k: nat): nat
    requires k <= |actions|
  {
    if k == 0 then 0
    else
      var a := actions[k - 1];
      CountedFor(actions, id, k - 1) + (if a.Answer? && a.id == id then a.counted else 0)
  }

  /** A request still needs what no host has answered for. */
  lemma {:induction false} NeedAccounted(s: State, actions: seq<Action>, states: seq<State>, id: nat, k: nat)
    requires Run(s, actions, states) && k <= |actions| && id < |s.placers|
    ensures id < |states[k].placers| && states[k].placers[id].need == s.placers[id].need - CountedFor(actions, id, k)
  {
    if k > 0 {
      var p := k - 1;
      NeedAccounted(s, actions, states, id, p);
    }
  }

  /** A run of two requests, step by step. */
  function TwoAction(k: nat): Action {
    match k
    case 0 => Admit(1, 0)
    case 1 => Admit(1, 1)
    case 2 => Ask(0)
    case 3 => Create(0)
    case 4 => Ask(1)
    case _ => Create(1)
  }

  function TwoState(k: nat): State {
    var p := Placer(1, [1, 1], 0, false, 0);
    var q := p.(next := 1, asking := true);
    var d := q.(made := 1);
    match k
    case 0 => State([1, 1], [])
    case 1 => State([1, 1], [p])
    case 2 => State([1, 1], [p, p])
    case 3 => State([1, 1], [q, p])
    case 4 => State([0, 1], [d, p])
    case 5 => State([0, 1], [d, q])
    case _ => State([-1, 1], [d, d])
  }

  lemma {:induction false} TwoAvailable(rooms: seq<int>)
    requires rooms == [1, 1]
    ensures Counts(rooms) == [1, 1] && Placement.Sum(Counts(rooms)) == 2
  {
    assert Counts(rooms) == [1] + [1] && [1] == [] + [1];
    Placement.SumAppend([], 1);
    Placement.SumAppend([1], 1);
  }

  lemma {:induction false} TwoStep(k: nat)
    requires k < 6
    ensures Enabled(TwoState(k), TwoAction(k)) && Next(TwoState(k), TwoAction(k)) == TwoState(k + 1)
  {
    if k < 2 {
      TwoAvailable(TwoState(k).rooms);
    }
  }

  /** Two hosts with room for one VM each, and two requests for one VM: the second one is admitted,
      as two are available and one is reserved, and both take the first host. */
  lemma {:induction false} TwoOnOneHost() returns (actions: seq<Action>, states: seq<State>)
    ensures Run(State([1, 1], []), actions, states) && |actions| == 6
    ensures actions[0] == Admit(1, 0) && actions[1] == Admit(1, 1)
    ensures states[6].rooms == [-1, 1] && Overfilled(states[6])
  {
    actions := seq(6, k requires 0 <= k => TwoAction(k));
    states := seq(7, k requires 0 <= k => TwoState(k));
    forall k | 0 <= k < |actions| ensures Enabled(states[k], actions[k]) && states[k + 1] == Next(states[k], actions[k]) {
      TwoStep(k);
    }
    assert states[6].rooms[0] < 0;
  }
}
