/** Requests for VMs that reserve, are admitted, create their VMs and give back what they did not
    use, interleaved in any order, for one class of labels. */
module Allocator {

  /** A request has reserved and waits to be admitted, creates its VMs after admission or on a
      given host without admission, or is over. */
  datatype Phase = Waiting | Placing | OnGivenHost | Over

  /** `kept` VMs are on hosts that have answered, `recent` ones on the host being asked, and the
      hosts had `room` left for the request when it was admitted. */
  datatype Request = Request(count: nat, kept: nat, recent: nat, room: nat, phase: Phase)
  {
    /** The VMs it may still ask for. */
    function Owed(): int {
      if phase == Over then 0 else count - kept - recent
    }

    /** Those it may still get without asking for admission again. */
    function Claim(): int {
      if phase == Placing then Min(count - kept - recent, room) else 0
    }
  }

  /** `lost` counts the VMs that were created and are not counted by their request, `given` those
      created on given hosts. */
  datatype State = State(reserved: int, requests: seq<Request>, provisioned: nat, lost: nat, given: nat)

  datatype Action =
    | Arrive(count: nat, onGivenHost: bool)
    | Decide(id: nat, available: nat)         // admit or reject, on an availability read before
    | Create(id: nat)                         // one VM is created
    | CreateFails(id: nat)
    | HostAnswers(id: nat, forgotten: nat)    // all VMs created count, but those without an address
    | HostRaises(id: nat, restored: bool)     // none of them counts; a failed check restores one
    | Finish(id: nat)                         // give back what does not count
    | Release(vms: nat)                       // VMs are deleted

  function Max(a: int, b: int): int {
    if a >= b then a else b
  }

  function Min(a: int, b: int): int {
    if a <= b then a else b
  }

  /** The floor in lowering the counter. */
  function Lower(reserved: int, count: int): int {
    Max(0, reserved - count)
  }

  /** The VMs the hosts have room for. */
  function Available(capacity: nat, s: State): nat {
    Max(capacity - s.provisioned, 0)
  }

  predicate Busy(s: State, id: nat) {
    id < |s.requests| && s.requests[id].phase in {Placing, OnGivenHost}
  }

  predicate Enabled(s: State, a: Action) {
    match a
    case Arrive(_, _) => true
    case Decide(id, _) => id < |s.requests| && s.requests[id].phase == Waiting
    case Create(id) =>
      var more := Busy(s, id) && s.requests[id].Owed() > 0;
      more && (s.requests[id].phase == Placing ==> s.requests[id].room > 0)
    case CreateFails(id) => Busy(s, id)
    case HostAnswers(id, forgotten) => Busy(s, id) && forgotten <= s.requests[id].recent
    case HostRaises(id, restored) => Busy(s, id) && (restored ==> s.requests[id].recent > 0)
    case Finish(id) => Busy(s, id) && s.requests[id].recent == 0
    case Release(vms) => vms <= s.provisioned
  }

  /** Others' reservations are taken off the availability, never below 0; the request is refused
      if it asks for more than is left. */
  predicate Admits(s: State, count: nat, available: nat) {
    count <= Max(available - (s.reserved - count), 0)
  }

  function Restored(restored: bool): nat {
    if restored then 1 else 0
  }

  function Next(s: State, a: Action): State
    requires Enabled(s, a)
  {
    match a
    case Arrive(count, onGivenHost) =>
      s.(reserved := s.reserved + count,
         requests := s.requests + [Request(count, 0, 0, 0, if onGivenHost then OnGivenHost else Waiting)])
    case Decide(id, available) =>
      var r := s.requests[id];
      if Admits(s, r.count, available)
      then s.(requests := s.requests[id := r.(phase := Placing, room := available)])
      else s.(reserved := Lower(s.reserved, r.count), requests := s.requests[id := r.(phase := Over)])
    case Create(id) =>
      var r := s.requests[id];
      var r' := r.(recent := r.recent + 1, room := if r.phase == Placing then r.room - 1 else r.room);
      s.(reserved := Lower(s.reserved, 1), requests := s.requests[id := r'], provisioned := s.provisioned + 1,
         given := if r.phase == OnGivenHost then s.given + 1 else s.given)
    case CreateFails(_) => s
    case HostAnswers(id, forgotten) =>
      var r := s.requests[id];
      s.(requests := s.requests[id := r.(kept := r.kept + r.recent - forgotten, recent := 0)], lost := s.lost + forgotten)
    case HostRaises(id, restored) =>
      var r := s.requests[id];
      var reserved := s.reserved + Restored(restored);
      if r.phase == Placing
      then s.(reserved := reserved, requests := s.requests[id := r.(recent := 0)], lost := s.lost + r.recent)
      else s.(reserved := Lower(reserved, r.count), requests := s.requests[id := r.(kept := 0, recent := 0, phase := Over)],
             lost := s.lost + r.kept + r.recent)
    case Finish(id) =>
      var r := s.requests[id];
      s.(reserved := Lower(s.reserved, r.count - r.kept), requests := s.requests[id := r.(phase := Over)])
    case Release(vms) => s.(provisioned := s.provisioned - vms)
  }

  /** What a lowering step takes off the counter. */
  function Lowered(s: State, a: Action): int
    requires Enabled(s, a)
  {
    match a
    case Decide(id, available) => if Admits(s, s.requests[id].count, available) then 0 else s.requests[id].count
    case Create(_) => 1
    case HostRaises(id, restored) =>
      if s.requests[id].phase == Placing then 0 else s.requests[id].count - Restored(restored)
    case Finish(id) => s.requests[id].count - s.requests[id].kept
    case _ => 0
  }

  ghost function TotalOwed(rs: seq<Request>): int {
    if rs == [] then 0 else rs[0].Owed() + TotalOwed(rs[1..])
  }

  ghost function TotalClaim(rs: seq<Request>): int {
    if rs == [] then 0 else rs[0].Claim() + TotalClaim(rs[1..])
  }

  ghost predicate WellFormed(rs: seq<Request>) {
    forall i :: 0 <= i < |rs| ==>
      rs[i].kept + rs[i].recent <= rs[i].count && (rs[i].phase == Waiting ==> rs[i].kept + rs[i].recent == 0)
  }

  lemma {:induction false} UpdateTotals(rs: seq<Request>, id: nat, r: Request)
    requires id < |rs|
    ensures TotalOwed(rs[id := r]) == TotalOwed(rs) - rs[id].Owed() + r.Owed()
    ensures TotalClaim(rs[id := r]) == TotalClaim(rs) - rs[id].Claim() + r.Claim()
    decreases |rs|
  {
    if id > 0 {
      UpdateTotals(rs[1..], id - 1, r);
      assert rs[id := r][1..] == rs[1..][id - 1 := r];
    } else {
      assert rs[id := r][1..] == rs[1..];
    }
  }

  lemma {:induction false} AppendTotals(rs: seq<Request>, r: Request)
    ensures TotalOwed(rs + [r]) == TotalOwed(rs) + r.Owed()
    ensures TotalClaim(rs + [r]) == TotalClaim(rs) + r.Claim()
    decreases |rs|
  {
    if rs != [] {
      AppendTotals(rs[1..], r);
      assert (rs + [r])[1..] == rs[1..] + [r];
    } else {
      assert ([] + [r])[1..] == [];
      assert [] + [r] == [r];
    }
  }

  /** No request owes more than all together, and claims are part of what is owed. */
  lemma {:induction false} TotalsBound(rs: seq<Request>, id: nat)
    requires WellFormed(rs)
    ensures id < |rs| ==> 0 <= rs[id].Owed() <= TotalOwed(rs) && 0 <= rs[id].Claim() <= TotalClaim(rs)
    ensures 0 <= TotalClaim(rs) <= TotalOwed(rs)
    ensures id < |rs| && rs[id].phase == Waiting ==> rs[id].count + TotalClaim(rs) <= TotalOwed(rs)
    decreases |rs|
  {
    if rs != [] {
      TotalsBound(rs[1..], if id > 0 then id - 1 else 0);
    }
  }

  // ----- one step

  /** The counter never exceeds what requests in flight may still ask for, and falls short of it
      by no more than the VMs lost. */
  ghost predicate Covered(s: State) {
    WellFormed(s.requests) && 0 <= s.reserved <= TotalOwed(s.requests) <= s.reserved + s.lost
  }

  /** The counter is exactly that. */
  ghost predicate Conserved(s: State) {
    WellFormed(s.requests) && s.reserved == TotalOwed(s.requests)
  }

  /** The request a step is about, before and after it. */
  lemma {:induction false} StepTotals(s: State, a: Action, id: nat)
    requires WellFormed(s.requests) && Enabled(s, a) && id < |s.requests| && |Next(s, a).requests| == |s.requests|
    requires Next(s, a).requests == s.requests[id := Next(s, a).requests[id]]
    ensures var r, r' := s.requests[id], Next(s, a).requests[id];
      && TotalOwed(Next(s, a).requests) == TotalOwed(s.requests) - r.Owed() + r'.Owed()
      && TotalClaim(Next(s, a).requests) == TotalClaim(s.requests) - r.Claim() + r'.Claim()
      && 0 <= r.Owed() <= TotalOwed(s.requests) && 0 <= r.Claim() <= TotalClaim(s.requests) <= TotalOwed(s.requests)
      && (r.phase == Waiting ==> r.count + TotalClaim(s.requests) <= TotalOwed(s.requests))
  {
    TotalsBound(s.requests, id);
    UpdateTotals(s.requests, id, Next(s, a).requests[id]);
  }

  lemma {:induction false} DecideCovers(s: State, id: nat, available: nat)
    requires Covered(s) && Enabled(s, Decide(id, available))
    ensures Covered(Next(s, Decide(id, available)))
    ensures s.lost == 0 ==> s.reserved - Lowered(s, Decide(id, available)) >= 0
  {
    StepTotals(s, Decide(id, available), id);
  }

  lemma {:induction false} RaiseCovers(s: State, id: nat, restored: bool)
    requires Covered(s) && Enabled(s, HostRaises(id, restored))
    ensures var s' := Next(s, HostRaises(id, restored));
      Covered(s') && (s'.lost == 0 ==> s.reserved - Lowered(s, HostRaises(id, restored)) >= 0)
  {
    StepTotals(s, HostRaises(id, restored), id);
  }

  lemma {:induction false} CreateCovers(s: State, id: nat)
    requires Covered(s) && Enabled(s, Create(id))
    ensures Covered(Next(s, Create(id)))
    ensures s.lost == 0 ==> s.reserved >= 1
  {
    StepTotals(s, Create(id), id);
  }

  lemma {:induction false} FinishCovers(s: State, id: nat)
    requires Covered(s) && Enabled(s, Finish(id))
    ensures Covered(Next(s, Finish(id)))
    ensures s.lost == 0 ==> s.reserved - Lowered(s, Finish(id)) >= 0
  {
    StepTotals(s, Finish(id), id);
  }

  /** Every step keeps the counter covered, and while nothing is lost its floor of 0 never takes
      effect. */
  lemma {:induction false} StepCovers(s: State, a: Action)
    requires Covered(s) && Enabled(s, a)
    ensures Covered(Next(s, a))
    ensures Next(s, a).lost == 0 ==> s.reserved - Lowered(s, a) >= 0
  {
    match a {
      case Arrive(count, onGivenHost) =>
        AppendTotals(s.requests, Request(count, 0, 0, 0, if onGivenHost then OnGivenHost else Waiting));
      case Decide(id, available) => DecideCovers(s, id, available);
      case Create(id) => CreateCovers(s, id);
      case HostAnswers(id, _) => StepTotals(s, a, id);
      case HostRaises(id, restored) => RaiseCovers(s, id, restored);
      case Finish(id) => FinishCovers(s, id);
      case _ =>
    }
  }

  /** A host that raises keeps the counter exact if and only if the VMs it had created are as many
      as it restores, or, on a given host, nobody else has anything to come. */
  lemma {:induction false} RaiseConservesIff(s: State, id: nat, restored: bool)
    requires Conserved(s) && Enabled(s, HostRaises(id, restored))
    ensures var r := s.requests[id];
      Conserved(Next(s, HostRaises(id, restored))) <==>
      if r.phase == Placing then r.recent == Restored(restored)
      else r.kept + r.recent == Restored(restored) || TotalOwed(s.requests) == r.Owed()
  {
    StepTotals(s, HostRaises(id, restored), id);
  }

  /** Provisioned VMs and those that admitted requests may still get fit the hosts. */
  ghost predicate WithinCapacity(capacity: nat, s: State) {
    s.provisioned + TotalClaim(s.requests) <= capacity
  }

  /** The availability used in a decision is not more than there is at that moment. */
  predicate UpToDate(capacity: nat, s: State, a: Action) {
    a.Decide? ==> a.available <= Available(capacity, s)
  }

  lemma {:induction false} DecideWithin(capacity: nat, s: State, id: nat, available: nat)
    requires Covered(s) && WithinCapacity(capacity + s.given + s.lost, s)
    requires Enabled(s, Decide(id, available)) && available <= Available(capacity, s)
    ensures WithinCapacity(capacity + s.given + s.lost, Next(s, Decide(id, available)))
  {
    StepTotals(s, Decide(id, available), id);
  }

  lemma {:induction false} CreateWithin(capacity: nat, s: State, id: nat)
    requires Covered(s) && WithinCapacity(capacity + s.given + s.lost, s) && Enabled(s, Create(id))
    ensures var s' := Next(s, Create(id));
      WithinCapacity(capacity + s'.given + s'.lost, s')
  {
    StepTotals(s, Create(id), id);
  }

  /** Beyond the capacity there are at most VMs on given hosts and lost ones. */
  lemma {:induction false} StepWithinCapacity(capacity: nat, s: State, a: Action)
    requires Covered(s) && WithinCapacity(capacity + s.given + s.lost, s)
    requires Enabled(s, a) && UpToDate(capacity, s, a)
    ensures var s' := Next(s, a);
      WithinCapacity(capacity + s'.given + s'.lost, s')
  {
    match a {
      case Arrive(count, onGivenHost) =>
        AppendTotals(s.requests, Request(count, 0, 0, 0, if onGivenHost then OnGivenHost else Waiting));
      case Decide(id, available) => DecideWithin(capacity, s, id, available);
      case Create(id) => CreateWithin(capacity, s, id);
      case HostAnswers(id, _) => StepTotals(s, a, id);
      case HostRaises(id, _) => StepTotals(s, a, id);
      case Finish(id) => StepTotals(s, a, id);
      case _ =>
    }
  }

  // ----- whole runs

  const START: State := State(0, [], 0, 0, 0)

  /** The state after the first `k` actions, if each is enabled in turn. */
  ghost predicate Run(actions: seq<Action>, states: seq<State>) {
    && |states| == |actions| + 1 && states[0] == START
    && forall k :: 0 <= k < |actions| ==> Enabled(states[k], actions[k]) && states[k + 1] == Next(states[k], actions[k])
  }

  /** Every decision is made on an availability there is. */
  ghost predicate UpToDateRun(capacity: nat, actions: seq<Action>, states: seq<State>) {
    Run(actions, states) && forall i :: 0 <= i < |actions| ==> UpToDate(capacity, states[i], actions[i])
  }

  lemma {:induction false} RunNext(capacity: nat, actions: seq<Action>, states: seq<State>, a: Action)
    requires UpToDateRun(capacity, actions, states)
    requires Enabled(states[|actions|], a) && UpToDate(capacity, states[|actions|], a)
    ensures var s' := Next(states[|actions|], a);
      UpToDateRun(capacity, actions + [a], states + [s']) && (states + [s'])[|actions| + 1] == s'
  {
  }

  /** In every interleaving and at every moment the counter is at most what requests in flight may
      still ask for, and short of it by at most the VMs lost so far: so it is exact, and no floor
      has taken effect, until a host loses a VM. */
  lemma {:induction false} ReservationsCovered(actions: seq<Action>, states: seq<State>, k: nat)
    requires Run(actions, states) && k <= |actions|
    ensures Covered(states[k])
    ensures states[k].lost == 0 ==> Conserved(states[k])
    ensures k < |actions| && states[k + 1].lost == 0 ==> states[k].reserved - Lowered(states[k], actions[k]) >= 0
  {
    if k > 0 {
      var p := k - 1;
      ReservationsCovered(actions, states, p);
      StepCovers(states[p], actions[p]);
    }
    if k < |actions| {
      StepCovers(states[k], actions[k]);
    }
  }

  /** The counter goes up by what is reserved or restored, and down by what is taken off, but not
      below 0. */
  lemma {:induction false} ReservedStep(s: State, a: Action)
    requires Enabled(s, a) && s.reserved >= 0
    ensures Next(s, a).reserved ==
            if a.Arrive? then s.reserved + a.count
            else if a.HostRaises? && s.requests[a.id].phase == Placing then s.reserved + (if a.restored then 1 else 0)
            else Max(0, s.reserved - Lowered(s, a))
  {
  }

  // ----- where the VMs are

  ghost function TotalMade(rs: seq<Request>): nat {
    if rs == [] then 0 else rs[0].kept + rs[0].recent + TotalMade(rs[1..])
  }

  lemma {:induction false} UpdateMade(rs: seq<Request>, id: nat, r: Request)
    requires id < |rs|
    ensures TotalMade(rs[id := r]) == TotalMade(rs) - rs[id].kept - rs[id].recent + r.kept + r.recent
    decreases |rs|
  {
    if id > 0 {
      UpdateMade(rs[1..], id - 1, r);
      assert rs[id := r][1..] == rs[1..][id - 1 := r];
    } else {
      assert rs[id := r][1..] == rs[1..];
    }
  }

  lemma {:induction false} AppendMade(rs: seq<Request>, r: Request)
    ensures TotalMade(rs + [r]) == TotalMade(rs) + r.kept + r.recent
    decreases |rs|
  {
    if rs != [] {
      AppendMade(rs[1..], r);
      assert (rs + [r])[1..] == rs[1..] + [r];
    } else {
      assert ([] + [r])[1..] == [];
      assert [] + [r] == [r];
    }
  }

  function Creations(actions: seq<Action>, k: nat): nat
    requires k <= |actions|
  {
    if k == 0 then 0 else Creations(actions, k - 1) + (if actions[k - 1].Create? then 1 else 0)
  }

  function Releases(actions: seq<Action>, k: nat): nat
    requires k <= |actions|
  {
    if k == 0 then 0 else Releases(actions, k - 1) + (if actions[k - 1].Release? then actions[k - 1].vms else 0)
  }

  lemma {:induction false} StepMade(s: State, a: Action)
    requires Enabled(s, a)
    ensures TotalMade(Next(s, a).requests) + Next(s, a).lost ==
            TotalMade(s.requests) + s.lost + (if a.Create? then 1 else 0)
  {
    match a {
      case Arrive(count, onGivenHost) =>
        AppendMade(s.requests, Request(count, 0, 0, 0, if onGivenHost then OnGivenHost else Waiting));
      case CreateFails(_) =>
      case Release(_) =>
      case _ => UpdateMade(s.requests, a.id, Next(s, a).requests[a.id]);
    }
  }

  /** In every interleaving each VM created is counted by its request or lost, and each is still
      there or has been released. */
  lemma {:induction false} VmsAccounted(actions: seq<Action>, states: seq<State>, k: nat)
    requires Run(actions, states) && k <= |actions|
    ensures Creations(actions, k) == TotalMade(states[k].requests) + states[k].lost
    ensures Creations(actions, k) == states[k].provisioned + Releases(actions, k)
  {
    if k > 0 {
      var p := k - 1;
      VmsAccounted(actions, states, p);
      StepMade(states[p], actions[p]);
    }
  }

  /** When every request is over nothing stays reserved, whatever the hosts did. */
  lemma {:induction false} NothingLeaks(actions: seq<Action>, states: seq<State>, k: nat)
    requires Run(actions, states) && k <= |actions|
    requires forall i :: 0 <= i < |states[k].requests| ==> states[k].requests[i].phase == Over
    ensures states[k].reserved == 0
  {
    ReservationsCovered(actions, states, k);
    AllOver(states[k].requests);
  }

  lemma {:induction false} AllOver(rs: seq<Request>)
    requires forall i :: 0 <= i < |rs| ==> rs[i].phase == Over
    ensures TotalOwed(rs) == 0
  {
    if rs != [] {
      AllOver(rs[1..]);
    }
  }

  /** In every interleaving, with availability read and compared in one step, the hosts are
      overcommitted by at most the VMs created on given hosts and those lost; without such VMs,
      never. */
  lemma {:induction false} CapacitySafe(capacity: nat, actions: seq<Action>, states: seq<State>, k: nat)
    requires UpToDateRun(capacity, actions, states) && k <= |actions|
    ensures WithinCapacity(capacity + states[k].given + states[k].lost, states[k])
    ensures states[k].provisioned <= capacity + states[k].given + states[k].lost
  {
    if k > 0 {
      var p := k - 1;
      CapacitySafe(capacity, actions, states, p);
      ReservationsCovered(actions, states, p);
      StepWithinCapacity(capacity, states[p], actions[p]);
    }
    ReservationsCovered(actions, states, k);
    TotalsBound(states[k].requests, 0);
  }

  // ----- when a decision is safe

  /** The state at the end of a run in which every decision was up to date. */
  ghost predicate Reached(capacity: nat, s: State) {
    exists actions, states :: UpToDateRun(capacity, actions, states) && states[|actions|] == s
  }

  lemma {:induction false} ReachStart(capacity: nat)
    ensures Reached(capacity, START)
  {
    assert UpToDateRun(capacity, [], [START]);
    assert [START][0] == START;
  }

  lemma {:induction false} ReachNext(capacity: nat, s: State, a: Action)
    requires Reached(capacity, s) && Enabled(s, a) && UpToDate(capacity, s, a)
    ensures Reached(capacity, Next(s, a))
  {
    var actions, states :| UpToDateRun(capacity, actions, states) && states[|actions|] == s;
    RunNext(capacity, actions, states, a);
    assert UpToDateRun(capacity, actions + [a], states + [Next(s, a)]);
  }

  lemma {:induction false} ReachAs(capacity: nat, s: State, a: Action, s': State)
    requires Reached(capacity, s) && Enabled(s, a) && UpToDate(capacity, s, a) && Next(s, a) == s'
    ensures Reached(capacity, s')
  {
    ReachNext(capacity, s, a);
  }

  lemma {:induction false} ReachedIsWithin(capacity: nat, s: State)
    requires Reached(capacity, s)
    ensures Covered(s) && WithinCapacity(capacity + s.given + s.lost, s)
    ensures s.provisioned <= capacity + s.given + s.lost
  {
    var actions, states :| UpToDateRun(capacity, actions, states) && states[|actions|] == s;
    ReservationsCovered(actions, states, |actions|);
    CapacitySafe(capacity, actions, states, |actions|);
  }

  /** The state in which a request for `n` VMs has been admitted and has got `made` of them. */
  function Filling(n: nat, made: nat): State
    requires made <= n
  {
    State(n - made, [Request(n, 0, made, n - made, Placing)], made, 0, 0)
  }

  lemma {:induction false} ReachFilling(capacity: nat, n: nat, made: nat)
    requires made <= n <= capacity
    ensures Reached(capacity, Filling(n, made))
  {
    if made == 0 {
      ReachStart(capacity);
      ReachNext(capacity, START, Arrive(n, false));
      ReachNext(capacity, Next(START, Arrive(n, false)), Decide(0, n));
    } else {
      ReachFilling(capacity, n, made - 1);
      ReachNext(capacity, Filling(n, made - 1), Create(0));
    }
  }

  /** A request that waits for the decision, with the hosts filled by one that is over. */
  function Deciding(provisioned: nat, count: nat): State {
    State(count, [Request(provisioned, provisioned, 0, 0, Over), Request(count, 0, 0, 0, Waiting)], provisioned, 0, 0)
  }

  lemma {:induction false} ReachDeciding(capacity: nat, provisioned: nat, count: nat)
    requires provisioned <= capacity
    ensures Reached(capacity, Deciding(provisioned, count))
  {
    var full, request := Filling(provisioned, provisioned), Request(provisioned, provisioned, 0, 0, Placing);
    ReachFilling(capacity, provisioned, provisioned);
    ReachNext(capacity, full, HostAnswers(0, 0));
    var answered := State(0, [request], provisioned, 0, 0);
    assert answered == Next(full, HostAnswers(0, 0));
    ReachNext(capacity, answered, Finish(0));
    var over := State(0, [request.(phase := Over)], provisioned, 0, 0);
    assert over == Next(answered, Finish(0));
    ReachNext(capacity, over, Arrive(count, false));
  }

  /** No VM was created on a given host, and none was lost. */
  predicate Clean(s: State) {
    s.given == s.lost == 0
  }

  /** Deciding on an availability that was read before keeps the hosts from being overcommitted,
      whatever requests are under way, if and only if it is not more than there is now. */
  lemma {:induction false} DecisionSafeIff(capacity: nat, provisioned: nat, available: nat)
    requires provisioned <= capacity
    ensures (forall s, id: nat ::
               Reached(capacity, s) && Clean(s) && s.provisioned == provisioned && Enabled(s, Decide(id, available)) ==>
               WithinCapacity(capacity, Next(s, Decide(id, available))))
            <==> available <= capacity - provisioned
  {
    if available <= capacity - provisioned {
      forall s, id: nat |
        Reached(capacity, s) && Clean(s) && s.provisioned == provisioned && Enabled(s, Decide(id, available))
        ensures WithinCapacity(capacity, Next(s, Decide(id, available)))
      {
        ReachedIsWithin(capacity, s);
        StepWithinCapacity(capacity, s, Decide(id, available));
      }
    } else {
      var s := Deciding(provisioned, available);
      ReachDeciding(capacity, provisioned, available);
      StepTotals(s, Decide(1, available), 1);
      assert s.requests[1..][1..] == [];
      assert !WithinCapacity(capacity, Next(s, Decide(1, available)));
    }
  }

  /** With the two reads apart the guarantee is lost. On one slot, a second request reads an
      availability of 1 in state 3; the first creates its VM; the second then reads the lowered
      reservations, is admitted, and a second VM is created. */
  lemma {:induction false} StaleReadOvercommits() returns (actions: seq<Action>, states: seq<State>)
    ensures Run(actions, states) && |actions| == 6
    ensures forall i :: 0 <= i < 4 ==> UpToDate(1, states[i], actions[i])
    ensures actions[4] == Decide(1, Available(1, states[3]))
    ensures states[6].provisioned == 2
  {
    actions := [Arrive(1, false), Decide(0, 1), Arrive(1, false), Create(0), Decide(1, 1), Create(1)];
    var s1 := Next(START, actions[0]);
    var s2 := Next(s1, actions[1]);
    var s3 := Next(s2, actions[2]);
    var s4 := Next(s3, actions[3]);
    var s5 := Next(s4, actions[4]);
    states := [START, s1, s2, s3, s4, s5, Next(s5, actions[5])];
  }

  // ----- how many VMs there may be

  /** What admitted requests may still get can all be created. */
  lemma {:induction false} FillClaims(capacity: nat, s: State) returns (s': State)
    requires Reached(capacity, s)
    ensures Reached(capacity, s') && s'.given == s.given && s'.lost == s.lost
    ensures s'.provisioned == s.provisioned + TotalClaim(s.requests)
    decreases TotalClaim(s.requests)
  {
    ReachedIsWithin(capacity, s);
    TotalsBound(s.requests, 0);
    if TotalClaim(s.requests) == 0 {
      s' := s;
    } else {
      var id := SomeClaim(s.requests);
      StepTotals(s, Create(id), id);
      ReachNext(capacity, s, Create(id));
      s' := FillClaims(capacity, Next(s, Create(id)));
    }
  }

  lemma {:induction false} SomeClaim(rs: seq<Request>) returns (id: nat)
    requires TotalClaim(rs) > 0
    ensures id < |rs| && rs[id].Claim() > 0
  {
    if rs[0].Claim() > 0 {
      id := 0;
    } else {
      var rest := SomeClaim(rs[1..]);
      id := rest + 1;
    }
  }

  /** A request that has lost its one VM, and has no room left. */
  const LOSER: Request := Request(1, 0, 0, 0, Placing)

  function Losers(n: nat): (rs: seq<Request>)
    ensures |rs| == n && forall i :: 0 <= i < n ==> rs[i] == LOSER
  {
    seq(n, i => LOSER)
  }

  /** A VM is created for a new request, lost when its host raises, and deleted later on. */
  lemma {:induction false} LoseOne(capacity: nat, rs: seq<Request>, lost: nat)
    requires capacity > 0 && Reached(capacity, State(0, rs, 0, lost, 0))
    ensures Reached(capacity, State(0, rs + [LOSER], 0, lost + 1, 0))
  {
    var id, w, p := |rs|, Request(1, 0, 0, 0, Waiting), Request(1, 0, 0, 1, Placing);
    ReachAs(capacity, State(0, rs, 0, lost, 0), Arrive(1, false), State(1, rs + [w], 0, lost, 0));
    ReachAs(capacity, State(1, rs + [w], 0, lost, 0), Decide(id, 1), State(1, rs + [p], 0, lost, 0));
    LoseMade(capacity, rs, lost, p);
  }

  lemma {:induction false} LoseMade(capacity: nat, rs: seq<Request>, lost: nat, p: Request)
    requires p == Request(1, 0, 0, 1, Placing) && Reached(capacity, State(1, rs + [p], 0, lost, 0))
    ensures Reached(capacity, State(0, rs + [LOSER], 0, lost + 1, 0))
  {
    var id, made := |rs|, p.(recent := 1, room := 0);
    ReachAs(capacity, State(1, rs + [p], 0, lost, 0), Create(id), State(0, rs + [made], 1, lost, 0));
    ReachAs(capacity, State(0, rs + [made], 1, lost, 0), HostRaises(id, false), State(0, rs + [LOSER], 1, lost + 1, 0));
    ReachAs(capacity, State(0, rs + [LOSER], 1, lost + 1, 0), Release(1), State(0, rs + [LOSER], 0, lost + 1, 0));
  }

  /** Every loss leaves nothing reserved for a request that is still under way. */
  lemma {:induction false} Lose(capacity: nat, n: nat)
    requires capacity > 0
    ensures Reached(capacity, State(0, Losers(n), 0, n, 0)) && TotalClaim(Losers(n)) == 0
  {
    if n == 0 {
      ReachStart(capacity);
      assert Losers(n) == [];
    } else {
      Lose(capacity, n - 1);
      LoseOne(capacity, Losers(n - 1), n - 1);
      assert Losers(n - 1) + [LOSER] == Losers(n);
      AppendTotals(Losers(n - 1), LOSER);
    }
  }

  /** Request `i` of those below. */
  function RefilledAt(capacity: nat, lost: nat, done: nat, i: nat): Request {
    if i < done then LOSER.(phase := Over)
    else if i < lost then LOSER
    else if i == lost then Request(capacity, 0, 0, capacity, Placing)
    else Request(1, 0, 0, capacity, Placing)
  }

  /** `lost` requests have lost a VM, `done` of them are over; one that asks for all there is has
      been admitted, and one more for each of those that are over. */
  function Refilled(capacity: nat, lost: nat, done: nat): (rs: seq<Request>)
    requires done <= lost
    ensures |rs| == lost + 1 + done
    ensures forall i :: 0 <= i < |rs| ==> rs[i] == RefilledAt(capacity, lost, done, i)
  {
    seq(lost + 1 + done, i requires 0 <= i => RefilledAt(capacity, lost, done, i))
  }

  lemma {:induction false} Refill(capacity: nat, lost: nat, done: nat)
    requires capacity > 0 && done <= lost
    ensures Reached(capacity, State(capacity, Refilled(capacity, lost, done), 0, lost, 0))
    ensures TotalClaim(Refilled(capacity, lost, done)) == capacity + done
  {
    var c := capacity;
    if done == 0 {
      var rs, w := Losers(lost), Request(c, 0, 0, 0, Waiting);
      Lose(c, lost);
      ReachAs(c, State(0, rs, 0, lost, 0), Arrive(c, false), State(c, rs + [w], 0, lost, 0));
      var p := w.(phase := Placing, room := c);
      ReachAs(c, State(c, rs + [w], 0, lost, 0), Decide(lost, c), State(c, rs + [p], 0, lost, 0));
      assert rs + [p] == Refilled(c, lost, done);
      AppendTotals(rs, p);
    } else {
      var j := done - 1;
      Refill(c, lost, j);
      RefillOne(c, lost, j, done);
    }
  }

  /** A loser that is over gives back a reservation of somebody else, and one more is admitted. */
  lemma {:induction false} RefillOne(c: nat, lost: nat, j: nat, k: nat)
    requires c > 0 && k == j + 1 <= lost
    requires Reached(c, State(c, Refilled(c, lost, j), 0, lost, 0))
    requires TotalClaim(Refilled(c, lost, j)) == c + j
    ensures Reached(c, State(c, Refilled(c, lost, k), 0, lost, 0))
    ensures TotalClaim(Refilled(c, lost, k)) == c + k
  {
    var rs, id := Refilled(c, lost, j), lost + 1 + j;
    var over := rs[j := LOSER.(phase := Over)];
    var w, p := Request(1, 0, 0, 0, Waiting), Request(1, 0, 0, c, Placing);
    ReachAs(c, State(c, rs, 0, lost, 0), Finish(j), State(c - 1, over, 0, lost, 0));
    ReachAs(c, State(c - 1, over, 0, lost, 0), Arrive(1, false), State(c, over + [w], 0, lost, 0));
    ReachAs(c, State(c, over + [w], 0, lost, 0), Decide(id, c), State(c, over + [p], 0, lost, 0));
    assert over + [p] == Refilled(c, lost, k);
    UpdateTotals(rs, j, LOSER.(phase := Over));
    AppendTotals(over, p);
  }

  /** VMs on a given host are created in any state, and taken off reservations of others. */
  lemma {:induction false} GiveVms(capacity: nat, s: State, given: nat, made: nat) returns (s': State)
    requires Reached(capacity, s) && made <= given
    ensures Reached(capacity, s') && s'.lost == s.lost
    ensures s'.provisioned == s.provisioned + made && s'.given == s.given + made
    ensures s'.requests == s.requests + [Request(given, 0, made, 0, OnGivenHost)]
  {
    var id := |s.requests|;
    if made == 0 {
      s' := Next(s, Arrive(given, true));
      ReachNext(capacity, s, Arrive(given, true));
    } else {
      var before := GiveVms(capacity, s, given, made - 1);
      s' := Next(before, Create(id));
      ReachNext(capacity, before, Create(id));
    }
  }

  /** The most VMs there can be at a time. */
  function Most(capacity: nat, given: nat, lost: nat): nat {
    capacity + given + (if capacity > 0 then lost else 0)
  }

  lemma {:induction false} ReachMost(capacity: nat, given: nat, lost: nat) returns (s: State)
    ensures Reached(capacity, s) && s.given <= given && s.lost <= lost && s.provisioned == Most(capacity, given, lost)
  {
    if capacity > 0 {
      Refill(capacity, lost, lost);
      s := FillClaims(capacity, State(capacity, Refilled(capacity, lost, lost), 0, lost, 0));
    } else {
      ReachStart(capacity);
      s := START;
    }
    s := GiveVms(capacity, s, given, given);
  }

  /** Hosts without any room get VMs of requests for given hosts only. */
  lemma {:induction false} NoRoom(actions: seq<Action>, states: seq<State>, k: nat)
    requires UpToDateRun(0, actions, states) && k <= |actions|
    ensures states[k].provisioned <= states[k].given
    ensures forall i :: 0 <= i < |states[k].requests| && states[k].requests[i].phase == Placing ==>
      states[k].requests[i].room == 0
  {
    if k > 0 {
      var p := k - 1;
      NoRoom(actions, states, p);
      assert Enabled(states[p], actions[p]) && UpToDate(0, states[p], actions[p]);
    }
  }

  /** In all interleavings with up-to-date decisions there can be `n` VMs at a time, with at most
      `given` of them created on given hosts and at most `lost` lost, if and only if `n` is at most
      the capacity and both of these; on hosts without any room lost VMs do not matter. */
  lemma {:induction false} ProvisionedIff(capacity: nat, given: nat, lost: nat, n: nat)
    ensures (exists s :: Reached(capacity, s) && s.given <= given && s.lost <= lost && s.provisioned == n)
            <==> n <= Most(capacity, given, lost)
  {
    if n <= Most(capacity, given, lost) {
      var s := ReachMost(capacity, given, lost);
      ReachNext(capacity, s, Release(s.provisioned - n));
      assert Next(s, Release(s.provisioned - n)).provisioned == n;
    }
    forall s | Reached(capacity, s) && s.given <= given && s.lost <= lost
      ensures s.provisioned <= Most(capacity, given, lost)
    {
      ReachedIsWithin(capacity, s);
      if capacity == 0 {
        var actions, states :| UpToDateRun(capacity, actions, states) && states[|actions|] == s;
        NoRoom(actions, states, |actions|);
      }
    }
  }

  /** So with up-to-date decisions the hosts are never overcommitted if and only if no VM is created
      on a given host, and none is lost or they have no room at all. */
  lemma {:induction false} NeverOvercommittedIff(capacity: nat, given: nat, lost: nat)
    ensures (forall s :: Reached(capacity, s) && s.given <= given && s.lost <= lost ==> s.provisioned <= capacity)
            <==> given == 0 && (lost == 0 || capacity == 0)
  {
    ProvisionedIff(capacity, given, lost, Most(capacity, given, lost));
    forall s | Reached(capacity, s) && s.given <= given && s.lost <= lost
      ensures s.provisioned <= Most(capacity, given, lost)
    {
      ProvisionedIff(capacity, given, lost, s.provisioned);
    }
  }
}
