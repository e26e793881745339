/**
 * The mixed-integer program that `optimize_shipping` hands to its solver,
 * stated as a predicate over a candidate solution (variable bounds, one
 * demand-balance equation per PO row, a volume and a weight inequality per
 * Shipment ID) together with its objective. The solver itself is not modelled.
 */
module Formulation {
  import opened Common
  import opened Records
  import opened Feasibility

  // ---------------------------------------------------------------------------
  // Decision variables

  /**
   * The loop that fills the `assign` dict: one integer variable in
   * `[0, demand]` per feasible route. A route listed twice keeps the key
   * position of its first listing and gets the same bounds.
   */
  method DeclareAssignVariables(pos: seq<PoLine>, routes: seq<Route>)
    returns (keys: seq<Route>, upper: map<Route, int>)
    requires forall r :: r in routes ==> r.po < |pos|
    ensures keys == Dedup(routes)
    ensures forall r :: r in upper <==> r in routes
    ensures forall r :: r in upper ==> upper[r] == pos[r.po].quantity
  {
    keys, upper := [], map[];
    var i := 0;
    while i < |routes|
      invariant i <= |routes|
      invariant keys == Dedup(routes[..i])
      invariant forall r :: r in upper <==> r in routes[..i]
      invariant forall r :: r in upper ==> upper[r] == pos[r.po].quantity
    {
      var r := routes[i];
      assert routes[..i + 1][..i] == routes[..i];
      if r !in upper {
        keys := keys + [r];
      }
      upper := upper[r := pos[r.po].quantity];
      i := i + 1;
    }
    assert routes[..|routes|] == routes;
  }

  /** The loop that fills the `use_container` dict: one binary variable per distinct Shipment ID. */
  method DeclareUseVariables(slots: seq<Slot>) returns (useIds: seq<string>)
    ensures useIds == Dedup(Ids(slots))
  {
    var ids := Ids(slots);
    useIds := [];
    var declared: set<string> := {};
    var s := 0;
    while s < |slots|
      invariant s <= |slots|
      invariant useIds == Dedup(ids[..s])
      invariant forall id :: id in declared <==> id in ids[..s]
    {
      var id := slots[s].shipmentId;
      assert ids[..s + 1] == ids[..s] + [id];
      if id !in declared {
        useIds := useIds + [id];
      }
      declared := declared + {id};
      s := s + 1;
    }
    assert ids[..|slots|] == ids;
  }

  /** The loop that fills the `unmet_vars` dict: one integer variable in `[0, demand]` per PO row. */
  method DeclareUnmetVariables(pos: seq<PoLine>) returns (unmetUpper: seq<int>)
    ensures |unmetUpper| == |pos| && forall p :: 0 <= p < |pos| ==> unmetUpper[p] == pos[p].quantity
  {
    unmetUpper := [];
    var p := 0;
    while p < |pos|
      invariant p <= |pos| && |unmetUpper| == p
      invariant forall q :: 0 <= q < p ==> unmetUpper[q] == pos[q].quantity
    {
      unmetUpper := unmetUpper + [pos[p].quantity];
      p := p + 1;
    }
  }

  /** A value for every variable: `assign` per key, `use` per Shipment ID, `unmet` per PO row. */
  datatype Candidate = Candidate(assign: map<Route, int>, use: map<string, int>, unmet: seq<int>)

  /** Every key names an existing PO row and an existing Shipment ID. */
  predicate KeysInRange(pos: seq<PoLine>, slots: seq<Slot>, keys: seq<Route>) {
    forall k :: k in keys ==> k.po < |pos| && k.shipmentId in Ids(slots)
  }

  /** The candidate gives a value to exactly the variables the model declares. */
  ghost predicate Domains(pos: seq<PoLine>, slots: seq<Slot>, keys: seq<Route>, c: Candidate) {
    (forall k :: k in c.assign <==> k in keys) &&
    (forall id :: id in c.use <==> id in Ids(slots)) &&
    |c.unmet| == |pos|
  }

  predicate WithinBounds(pos: seq<PoLine>, slots: seq<Slot>, keys: seq<Route>, c: Candidate)
    requires KeysInRange(pos, slots, keys) && Domains(pos, slots, keys, c)
  {
    (forall k :: k in c.assign ==> 0 <= c.assign[k] <= pos[k.po].quantity) &&
    (forall id :: id in c.use ==> c.use[id] == 0 || c.use[id] == 1) &&
    (forall p :: 0 <= p < |pos| ==> 0 <= c.unmet[p] <= pos[p].quantity)
  }

  /** Sum of `assign[k]` over the keys `k` of PO row `p`. */
  function AssignedTo(keys: seq<Route>, assign: map<Route, int>, p: nat): int
    requires forall k :: k in keys ==> k in assign
  {
    if |keys| == 0 then 0
    else
      var last := keys[|keys| - 1];
      AssignedTo(keys[..|keys| - 1], assign, p) + (if last.po == p then assign[last] else 0)
  }

  predicate DemandBalanced(pos: seq<PoLine>, keys: seq<Route>, c: Candidate)
    requires (forall k :: k in keys ==> k in c.assign) && |c.unmet| == |pos|
  {
    forall p :: 0 <= p < |pos| ==> AssignedTo(keys, c.assign, p) + c.unmet[p] == pos[p].quantity
  }

  datatype Measure = Volume | Weight

  function Size(po: PoLine, m: Measure): real {
    match m
    case Volume => po.volume
    case Weight => po.weight
  }

  function Capacity(slot: Slot, m: Measure): real {
    match m
    case Volume => slot.record.maxVolume
    case Weight => slot.record.maxWeight
  }

  /** `Σ assign.get((p, id), 0) * size(p)` over PO rows `0 .. n-1`. */
  function Load(pos: seq<PoLine>, assign: map<Route, int>, id: string, m: Measure, n: nat): real
    requires n <= |pos|
  {
    if n == 0 then 0.0
    else
      var key := Route(n - 1, id);
      Load(pos, assign, id, m, n - 1) +
      (if key in assign then assign[key] as real * Size(pos[n - 1], m) else 0.0)
  }

  /** Per Shipment ID: the load is at most the capacity of the first slot with that ID times `use`. */
  predicate WithinCapacity(pos: seq<PoLine>, slots: seq<Slot>, c: Candidate)
    requires forall id :: id in Ids(slots) ==> id in c.use
  {
    forall id :: id in Ids(slots) ==>
      Load(pos, c.assign, id, Volume, |pos|) <= Capacity(SlotWithId(slots, id), Volume) * c.use[id] as real &&
      Load(pos, c.assign, id, Weight, |pos|) <= Capacity(SlotWithId(slots, id), Weight) * c.use[id] as real
  }

  /** The candidate meets every bound and every constraint of the model. */
  ghost predicate Satisfies(pos: seq<PoLine>, slots: seq<Slot>, keys: seq<Route>, c: Candidate) {
    KeysInRange(pos, slots, keys) &&
    Domains(pos, slots, keys, c) &&
    WithinBounds(pos, slots, keys, c) &&
    DemandBalanced(pos, keys, c) &&
    WithinCapacity(pos, slots, c)
  }

  // ---------------------------------------------------------------------------
  // The model is always feasible

  /** Nothing assigned, no container used, every line's whole demand unmet. */
  function AllUnmet(pos: seq<PoLine>, slots: seq<Slot>, keys: seq<Route>): (c: Candidate)
    ensures Domains(pos, slots, keys, c)
  {
    Candidate(
      map k | k in keys :: 0,
      map id | id in Ids(slots) :: 0,
      seq(|pos|, p requires 0 <= p < |pos| => pos[p].quantity))
  }

  lemma {:induction false} AssignedToZero(keys: seq<Route>, assign: map<Route, int>, p: nat)
    requires forall k :: k in keys ==> k in assign && assign[k] == 0
    ensures AssignedTo(keys, assign, p) == 0
  {
    if |keys| > 0 {
      AssignedToZero(keys[..|keys| - 1], assign, p);
    }
  }

  lemma {:induction false} LoadZero(pos: seq<PoLine>, assign: map<Route, int>, id: string, m: Measure, n: nat)
    requires n <= |pos|
    requires forall k :: k in assign ==> assign[k] == 0
    ensures Load(pos, assign, id, m, n) == 0.0
  {
    if n > 0 {
      LoadZero(pos, assign, id, m, n - 1);
    }
  }

  /**
   * The all-unmet candidate satisfies the model exactly when no demand is
   * negative; and no candidate at all satisfies it when some demand is.
   */
  lemma AlwaysFeasible(pos: seq<PoLine>, slots: seq<Slot>, keys: seq<Route>)
    requires KeysInRange(pos, slots, keys)
    ensures Satisfies(pos, slots, keys, AllUnmet(pos, slots, keys)) <==>
      forall p :: 0 <= p < |pos| ==> pos[p].quantity >= 0
    ensures forall c :: Satisfies(pos, slots, keys, c) ==>
      forall p :: 0 <= p < |pos| ==> pos[p].quantity >= 0
  {
    var c := AllUnmet(pos, slots, keys);
    if forall p :: 0 <= p < |pos| ==> pos[p].quantity >= 0 {
      forall p | 0 <= p < |pos| ensures AssignedTo(keys, c.assign, p) == 0 {
        AssignedToZero(keys, c.assign, p);
      }
      forall id | id in Ids(slots)
        ensures Load(pos, c.assign, id, Volume, |pos|) == 0.0
        ensures Load(pos, c.assign, id, Weight, |pos|) == 0.0
      {
        LoadZero(pos, c.assign, id, Volume, |pos|);
        LoadZero(pos, c.assign, id, Weight, |pos|);
      }
    }
  }

  // ---------------------------------------------------------------------------
  // Consequences of the demand balance

  lemma {:induction false} AssignedToNoKeys(keys: seq<Route>, assign: map<Route, int>, p: nat)
    requires forall k :: k in keys ==> k in assign && k.po != p
    ensures AssignedTo(keys, assign, p) == 0
  {
    if |keys| > 0 {
      AssignedToNoKeys(keys[..|keys| - 1], assign, p);
    }
  }

  /** A PO row with no feasible route has its whole demand unmet in every solution. */
  lemma UnroutedLineIsUnmet(pos: seq<PoLine>, slots: seq<Slot>, keys: seq<Route>, c: Candidate, p: nat)
    requires Satisfies(pos, slots, keys, c) && p < |pos|
    requires forall k :: k in keys ==> k.po != p
    ensures c.unmet[p] == pos[p].quantity
  {
    AssignedToNoKeys(keys, c.assign, p);
  }

  // ---------------------------------------------------------------------------
  // Consequences of the capacity inequalities

  lemma {:induction false} LoadCoversTerm(pos: seq<PoLine>, assign: map<Route, int>, id: string,
                                          m: Measure, n: nat, p: nat)
    requires p < n <= |pos|
    requires forall k :: k in assign ==> assign[k] >= 0
    requires forall q :: 0 <= q < |pos| ==> Size(pos[q], m) >= 0.0
    requires Route(p, id) in assign
    ensures Load(pos, assign, id, m, n) >= assign[Route(p, id)] as real * Size(pos[p], m)
  {
    var q := n - 1;
    var key := Route(q, id);
    var term := if key in assign then assign[key] as real * Size(pos[q], m) else 0.0;
    assert term >= 0.0 by {
      if key in assign {
        NonNegativeProduct(assign[key] as real, Size(pos[q], m));
      }
    }
    if p < q {
      LoadCoversTerm(pos, assign, id, m, q, p);
      LoadNonNegative(pos, assign, id, m, q);
    } else {
      LoadNonNegative(pos, assign, id, m, q);
    }
  }

  lemma {:induction false} LoadNonNegative(pos: seq<PoLine>, assign: map<Route, int>, id: string, m: Measure, n: nat)
    requires n <= |pos|
    requires forall k :: k in assign ==> assign[k] >= 0
    requires forall q :: 0 <= q < |pos| ==> Size(pos[q], m) >= 0.0
    ensures Load(pos, assign, id, m, n) >= 0.0
  {
    if n > 0 {
      LoadNonNegative(pos, assign, id, m, n - 1);
      var key := Route(n - 1, id);
      if key in assign {
        NonNegativeProduct(assign[key] as real, Size(pos[n - 1], m));
      }
    }
  }

  /**
   * With non-negative sizes, a container whose `use` is 0 carries nothing of
   * a PO line that has a positive volume or a positive weight.
   */
  lemma IdleContainerCarriesNothing(pos: seq<PoLine>, slots: seq<Slot>, keys: seq<Route>, c: Candidate,
                                    p: nat, id: string)
    requires Satisfies(pos, slots, keys, c)
    requires forall q :: 0 <= q < |pos| ==> pos[q].volume >= 0.0 && pos[q].weight >= 0.0
    requires Route(p, id) in keys && c.use[id] == 0
    requires pos[p].volume > 0.0 || pos[p].weight > 0.0
    ensures c.assign[Route(p, id)] == 0
  {
    var m := if pos[p].volume > 0.0 then Volume else Weight;
    IdleLoads(pos, slots, keys, c, p, id);
    ZeroLoadZeroTerm(pos, c.assign, id, m, p);
  }

  /** What the constraints say about an idle container and one of its keys. */
  lemma IdleLoads(pos: seq<PoLine>, slots: seq<Slot>, keys: seq<Route>, c: Candidate, p: nat, id: string)
    requires Satisfies(pos, slots, keys, c)
    requires Route(p, id) in keys && c.use[id] == 0
    ensures p < |pos| && Route(p, id) in c.assign
    ensures forall k :: k in c.assign ==> c.assign[k] >= 0
    ensures Load(pos, c.assign, id, Volume, |pos|) <= 0.0
    ensures Load(pos, c.assign, id, Weight, |pos|) <= 0.0
  {
    assert id in Ids(slots);
  }

  /** A load of at most 0 leaves no room for a key of positive size. */
  lemma ZeroLoadZeroTerm(pos: seq<PoLine>, assign: map<Route, int>, id: string, m: Measure, p: nat)
    requires p < |pos| && Route(p, id) in assign
    requires forall k :: k in assign ==> assign[k] >= 0
    requires forall q :: 0 <= q < |pos| ==> pos[q].volume >= 0.0 && pos[q].weight >= 0.0
    requires Size(pos[p], m) > 0.0
    requires Load(pos, assign, id, m, |pos|) <= 0.0
    ensures assign[Route(p, id)] == 0
  {
    var a := assign[Route(p, id)] as real;
    assert forall q :: 0 <= q < |pos| ==> Size(pos[q], m) >= 0.0;
    LoadCoversTerm(pos, assign, id, m, |pos|, p);
    PositiveProduct(a, Size(pos[p], m));
  }

  /**
   * The capacity inequalities do not tie `use` to cargo of zero volume and
   * zero weight: such a line can be fully assigned to a container whose `use` is 0.
   */
  lemma ZeroSizeCargoNeedsNoContainer(po: PoLine, slot: Slot)
    requires po.volume == 0.0 && po.weight == 0.0 && po.quantity >= 1
    ensures var key := Route(0, slot.shipmentId);
      Satisfies([po], [slot], [key],
                Candidate(map[key := po.quantity], map[slot.shipmentId := 0], [0]))
  {
    var key := Route(0, slot.shipmentId);
    var c := Candidate(map[key := po.quantity], map[slot.shipmentId := 0], [0]);
    assert Ids([slot]) == [slot.shipmentId];
    assert [key][..0] == [];
    assert AssignedTo([key], c.assign, 0) == po.quantity;
    assert Load([po], c.assign, slot.shipmentId, Volume, 1) == 0.0;
    assert Load([po], c.assign, slot.shipmentId, Weight, 1) == 0.0;
  }

  // ---------------------------------------------------------------------------
  // Objective

  function Pow(base: real, exp: nat): real {
    if exp == 0 then 1.0 else base * Pow(base, exp - 1)
  }

  lemma {:induction false} PowNonNegative(base: real, exp: nat)
    requires base >= 0.0
    ensures Pow(base, exp) >= 0.0
  {
    if exp > 0 {
      PowNonNegative(base, exp - 1);
      NonNegativeProduct(base, Pow(base, exp - 1));
    }
  }

  /** Whole days by which the slot arrives after the line's Import ETA, 0 when on time. */
  function LateDays(po: PoLine, slot: Slot): (d: int)
    ensures d >= 0 && d >= slot.arrival - po.importEta
    ensures d == 0 || d == slot.arrival - po.importEta
  {
    if slot.arrival - po.importEta > 0 then slot.arrival - po.importEta else 0
  }

  /**
   * Objective coefficient of one unit on a route: late days × per-day penalty × multiplier^priority,
   * in exact arithmetic (the 64-bit wrap-around of integer rates is not modelled).
   */
  function LateCoefficient(po: PoLine, slot: Slot, latePenaltyPerDay: real, priorityMultiplier: real): (c: real)
    ensures slot.arrival <= po.importEta ==> c == 0.0
    ensures latePenaltyPerDay >= 0.0 && priorityMultiplier >= 0.0 ==> c >= 0.0
  {
    var days := LateDays(po, slot) as real;
    var weight := Pow(priorityMultiplier, po.priority);
    assert latePenaltyPerDay >= 0.0 && priorityMultiplier >= 0.0 ==> days * latePenaltyPerDay * weight >= 0.0 by {
      if latePenaltyPerDay >= 0.0 && priorityMultiplier >= 0.0 {
        PowNonNegative(priorityMultiplier, po.priority);
        NonNegativeProduct(days, latePenaltyPerDay);
        NonNegativeProduct(days * latePenaltyPerDay, weight);
      }
    }
    days * latePenaltyPerDay * weight
  }

  /** `Σ penalty * assign` over the keys. */
  function LateCost(pos: seq<PoLine>, slots: seq<Slot>, keys: seq<Route>, assign: map<Route, int>,
                    latePenaltyPerDay: real, priorityMultiplier: real): real
    requires KeysInRange(pos, slots, keys) && forall k :: k in keys ==> k in assign
  {
    if |keys| == 0 then 0.0
    else
      var k := keys[|keys| - 1];
      LateCost(pos, slots, keys[..|keys| - 1], assign, latePenaltyPerDay, priorityMultiplier) +
      LateCoefficient(pos[k.po], SlotWithId(slots, k.shipmentId), latePenaltyPerDay, priorityMultiplier) * assign[k] as real
  }

  /** `Σ price * use` over the distinct Shipment IDs, each priced by its first slot. */
  function ContainerCost(slots: seq<Slot>, ids: seq<string>, use: map<string, int>): (cost: real)
    requires forall id :: id in ids ==> id in Ids(slots) && id in use
    ensures (forall id :: id in ids ==> SlotWithId(slots, id).record.price >= 0.0 && use[id] >= 0) ==> cost >= 0.0
  {
    if |ids| == 0 then 0.0
    else
      var id := ids[|ids| - 1];
      var price := SlotWithId(slots, id).record.price;
      assert price >= 0.0 && use[id] >= 0 ==> price * use[id] as real >= 0.0 by {
        if price >= 0.0 && use[id] >= 0 {
          NonNegativeProduct(price, use[id] as real);
        }
      }
      ContainerCost(slots, ids[..|ids| - 1], use) + price * use[id] as real
  }

  /** `Σ unmet * Unmet Penalty` over PO rows `0 .. n-1`. */
  function UnmetCost(pos: seq<PoLine>, unmet: seq<int>, n: nat): (cost: real)
    requires n <= |pos| && |unmet| == |pos|
    ensures (forall p :: 0 <= p < n ==> unmet[p] >= 0 && pos[p].unmetPenalty >= 0.0) ==> cost >= 0.0
  {
    if n == 0 then 0.0
    else
      var p := n - 1;
      assert unmet[p] >= 0 && pos[p].unmetPenalty >= 0.0 ==> unmet[p] as real * pos[p].unmetPenalty >= 0.0 by {
        if unmet[p] >= 0 && pos[p].unmetPenalty >= 0.0 {
          NonNegativeProduct(unmet[p] as real, pos[p].unmetPenalty);
        }
      }
      UnmetCost(pos, unmet, p) + unmet[p] as real * pos[p].unmetPenalty
  }

  function Objective(pos: seq<PoLine>, slots: seq<Slot>, keys: seq<Route>, c: Candidate,
                     latePenaltyPerDay: real, priorityMultiplier: real): real
    requires KeysInRange(pos, slots, keys) && Domains(pos, slots, keys, c)
  {
    LateCost(pos, slots, keys, c.assign, latePenaltyPerDay, priorityMultiplier) +
    ContainerCost(slots, Dedup(Ids(slots)), c.use) +
    UnmetCost(pos, c.unmet, |pos|)
  }

  lemma {:induction false} LateCostZero(pos: seq<PoLine>, slots: seq<Slot>, keys: seq<Route>,
                                        assign: map<Route, int>, lppd: real, pm: real)
    requires KeysInRange(pos, slots, keys)
    requires forall k :: k in keys ==> k in assign && assign[k] == 0
    ensures LateCost(pos, slots, keys, assign, lppd, pm) == 0.0
  {
    if |keys| > 0 {
      LateCostZero(pos, slots, keys[..|keys| - 1], assign, lppd, pm);
    }
  }

  lemma {:induction false} ContainerCostZero(slots: seq<Slot>, ids: seq<string>, use: map<string, int>)
    requires forall id :: id in ids ==> id in Ids(slots) && id in use && use[id] == 0
    ensures ContainerCost(slots, ids, use) == 0.0
  {
    if |ids| > 0 {
      var init, id := ids[..|ids| - 1], ids[|ids| - 1];
      assert forall i :: i in init ==> i in ids;
      ContainerCostZero(slots, init, use);
      assert id in ids && use[id] == 0;
      assert ContainerCost(slots, ids, use) == ContainerCost(slots, init, use) + SlotWithId(slots, id).record.price * 0.0;
    }
  }

  /**
   * The all-unmet solution costs exactly the unmet-demand penalty of the
   * whole demand, which bounds the cost of an optimal solution from above.
   */
  lemma FallbackCost(pos: seq<PoLine>, slots: seq<Slot>, keys: seq<Route>, lppd: real, pm: real)
    requires KeysInRange(pos, slots, keys)
    ensures var c := AllUnmet(pos, slots, keys);
      Objective(pos, slots, keys, c, lppd, pm) ==
      UnmetCost(pos, seq(|pos|, p requires 0 <= p < |pos| => pos[p].quantity), |pos|)
  {
    var c := AllUnmet(pos, slots, keys);
    LateCostZero(pos, slots, keys, c.assign, lppd, pm);
    ContainerCostZero(slots, Dedup(Ids(slots)), c.use);
  }

  // ---------------------------------------------------------------------------
  // Proof helpers: arithmetic and sequence facts with no counterpart in the source

  lemma NonNegativeProduct(a: real, b: real)
    requires a >= 0.0 && b >= 0.0
    ensures a * b >= 0.0
  {
  }

  lemma PositiveProduct(a: real, b: real)
    requires b > 0.0
    ensures a > 0.0 ==> a * b > 0.0
  {
  }
}
