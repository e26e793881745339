/**
 * Route feasibility (the first loop of `optimize_shipping`): every
 * (PO line, container slot) pair whose ports match and whose slot departs
 * on or after the line's Export ETA, listed PO row by PO row and, within a
 * PO row, slot row by slot row.
 */
module Feasibility {
  import opened Common
  import opened Records

  /** The three conditions under which a slot can carry a PO line. */
  predicate Feasible(po: PoLine, slot: Slot) {
    po.fromPort == slot.record.fromPort &&
    po.toPort == slot.record.toPort &&
    slot.departure >= po.exportEta
  }

  /** A (PO row, slot row) index pair. */
  type Pair = (nat, nat)

  /** Feasible pairs of PO row `p` with slot rows `0 .. n-1`, in slot order. */
  function PairsForRow(pos: seq<PoLine>, slots: seq<Slot>, p: nat, n: nat): (r: seq<Pair>)
    requires p < |pos| && n <= |slots|
    ensures forall i :: 0 <= i < |r| ==> r[i].0 == p && r[i].1 < n
  {
    if n == 0 then []
    else PairsForRow(pos, slots, p, n - 1) + (if Feasible(pos[p], slots[n - 1]) then [(p, n - 1)] else [])
  }

  /** Feasible pairs of PO rows `0 .. m-1`, PO row by PO row. */
  function FeasiblePairs(pos: seq<PoLine>, slots: seq<Slot>, m: nat): (r: seq<Pair>)
    requires m <= |pos|
    ensures forall i :: 0 <= i < |r| ==> r[i].0 < m && r[i].1 < |slots|
  {
    if m == 0 then []
    else FeasiblePairs(pos, slots, m - 1) + PairsForRow(pos, slots, m - 1, |slots|)
  }

  /** The `(po_idx, Shipment ID)` entries that the loop appends for a list of index pairs. */
  function RoutesOf(pairs: seq<Pair>, slots: seq<Slot>): (routes: seq<Route>)
    requires forall i :: 0 <= i < |pairs| ==> pairs[i].1 < |slots|
    ensures |routes| == |pairs|
    ensures forall i :: 0 <= i < |pairs| ==>
      routes[i].po == pairs[i].0 && routes[i].shipmentId == slots[pairs[i].1].shipmentId
  {
    seq(|pairs|, i requires 0 <= i < |pairs| => Route(pairs[i].0, slots[pairs[i].1].shipmentId))
  }

  /** What `feasible_routes` holds once both loops have run. */
  function RouteList(pos: seq<PoLine>, slots: seq<Slot>): (routes: seq<Route>)
    ensures forall r :: r in routes ==> r.po < |pos| && r.shipmentId in Ids(slots)
  {
    RoutesOf(FeasiblePairs(pos, slots, |pos|), slots)
  }

  /** The nested loop that fills `feasible_routes`. */
  method FindFeasibleRoutes(pos: seq<PoLine>, slots: seq<Slot>) returns (routes: seq<Route>)
    ensures routes == RouteList(pos, slots)
  {
    routes := [];
    ghost var pairs: seq<Pair> := [];
    var p := 0;
    while p < |pos|
      invariant p <= |pos|
      invariant pairs == FeasiblePairs(pos, slots, p)
      invariant routes == RoutesOf(pairs, slots)
    {
      var s := 0;
      while s < |slots|
        invariant s <= |slots|
        invariant pairs == FeasiblePairs(pos, slots, p) + PairsForRow(pos, slots, p, s)
        invariant routes == RoutesOf(pairs, slots)
      {
        var po, slot := pos[p], slots[s];
        if po.fromPort == slot.record.fromPort && po.toPort == slot.record.toPort && slot.departure >= po.exportEta {
          routes := routes + [Route(p, slot.shipmentId)];
          pairs := pairs + [(p, s)];
        }
        s := s + 1;
      }
      p := p + 1;
    }
  }

  // ---------------------------------------------------------------------------
  // What the list contains and in which order

  lemma {:induction false} PairsForRowMembers(pos: seq<PoLine>, slots: seq<Slot>, p: nat, n: nat, s: nat)
    requires p < |pos| && n <= |slots|
    ensures (p, s) in PairsForRow(pos, slots, p, n) <==> s < n && Feasible(pos[p], slots[s])
  {
    if n > 0 {
      PairsForRowMembers(pos, slots, p, n - 1, s);
    }
  }

  /** A pair is listed exactly when both indices are in range and the pair is feasible. */
  lemma {:induction false} FeasiblePairsMembers(pos: seq<PoLine>, slots: seq<Slot>, m: nat, p: nat, s: nat)
    requires m <= |pos|
    ensures (p, s) in FeasiblePairs(pos, slots, m) <==>
      p < m && s < |slots| && Feasible(pos[p], slots[s])
  {
    if m > 0 {
      FeasiblePairsMembers(pos, slots, m - 1, p, s);
      if p == m - 1 {
        PairsForRowMembers(pos, slots, p, |slots|, s);
      }
    }
  }

  /** `a` comes strictly before `b` in PO-major, slot-minor order. */
  predicate Precedes(a: Pair, b: Pair) {
    a.0 < b.0 || (a.0 == b.0 && a.1 < b.1)
  }

  predicate Ascending(pairs: seq<Pair>) {
    forall i, j :: 0 <= i < j < |pairs| ==> Precedes(pairs[i], pairs[j])
  }

  lemma {:induction false} PairsForRowAscending(pos: seq<PoLine>, slots: seq<Slot>, p: nat, n: nat)
    requires p < |pos| && n <= |slots|
    ensures Ascending(PairsForRow(pos, slots, p, n))
  {
    if n > 0 {
      PairsForRowAscending(pos, slots, p, n - 1);
    }
  }

  /** The list is strictly ordered by PO row, then by slot row; so each pair appears once. */
  lemma {:induction false} FeasiblePairsAscending(pos: seq<PoLine>, slots: seq<Slot>, m: nat)
    requires m <= |pos|
    ensures Ascending(FeasiblePairs(pos, slots, m))
  {
    if m > 0 {
      FeasiblePairsAscending(pos, slots, m - 1);
      PairsForRowAscending(pos, slots, m - 1, |slots|);
      AscendingConcat(FeasiblePairs(pos, slots, m - 1), PairsForRow(pos, slots, m - 1, |slots|), m - 1);
    }
  }

  /** Two ascending runs stay ascending when every pair of the first has a smaller PO row than the second's. */
  lemma AscendingConcat(a: seq<Pair>, b: seq<Pair>, p: nat)
    requires Ascending(a) && Ascending(b)
    requires forall i :: 0 <= i < |a| ==> a[i].0 < p
    requires forall i :: 0 <= i < |b| ==> b[i].0 == p
    ensures Ascending(a + b)
  {
    forall i, j | 0 <= i < j < |a + b| ensures Precedes((a + b)[i], (a + b)[j]) {
      if j < |a| {
        assert (a + b)[i] == a[i] && (a + b)[j] == a[j];
      } else if i < |a| {
        assert (a + b)[i] == a[i] && (a + b)[j] == b[j - |a|];
      } else {
        assert (a + b)[i] == b[i - |a|] && (a + b)[j] == b[j - |a|];
      }
    }
  }

  /**
   * A route `(p, id)` is in `feasible_routes` exactly when some slot row
   * carrying `id` is feasible for PO row `p`.
   */
  lemma RouteListMembers(pos: seq<PoLine>, slots: seq<Slot>, p: nat, id: string)
    ensures Route(p, id) in RouteList(pos, slots) <==>
      p < |pos| && exists s :: 0 <= s < |slots| && slots[s].shipmentId == id && Feasible(pos[p], slots[s])
  {
    if Route(p, id) in RouteList(pos, slots) {
      ListedRouteFeasible(pos, slots, p, id);
    }
    if p < |pos| && exists s :: 0 <= s < |slots| && slots[s].shipmentId == id && Feasible(pos[p], slots[s]) {
      var s :| 0 <= s < |slots| && slots[s].shipmentId == id && Feasible(pos[p], slots[s]);
      FeasibleRouteListed(pos, slots, p, s);
    }
  }

  lemma ListedRouteFeasible(pos: seq<PoLine>, slots: seq<Slot>, p: nat, id: string)
    requires Route(p, id) in RouteList(pos, slots)
    ensures p < |pos| && exists s :: 0 <= s < |slots| && slots[s].shipmentId == id && Feasible(pos[p], slots[s])
  {
    var pairs := FeasiblePairs(pos, slots, |pos|);
    var routes := RouteList(pos, slots);
    var i :| 0 <= i < |routes| && routes[i] == Route(p, id);
    FeasiblePairsMembers(pos, slots, |pos|, pairs[i].0, pairs[i].1);
  }

  lemma FeasibleRouteListed(pos: seq<PoLine>, slots: seq<Slot>, p: nat, s: nat)
    requires p < |pos| && s < |slots| && Feasible(pos[p], slots[s])
    ensures Route(p, slots[s].shipmentId) in RouteList(pos, slots)
  {
    var pairs := FeasiblePairs(pos, slots, |pos|);
    var routes := RouteList(pos, slots);
    FeasiblePairsMembers(pos, slots, |pos|, p, s);
    var i :| 0 <= i < |pairs| && pairs[i] == (p, s);
    assert routes[i] == Route(p, slots[s].shipmentId);
  }

  /** With unique Shipment IDs, no route is listed twice. */
  lemma RouteListDistinct(pos: seq<PoLine>, slots: seq<Slot>)
    requires NoDuplicates(Ids(slots))
    ensures NoDuplicates(RouteList(pos, slots))
  {
    var pairs := FeasiblePairs(pos, slots, |pos|);
    var routes := RouteList(pos, slots);
    FeasiblePairsAscending(pos, slots, |pos|);
    forall i, j | 0 <= i < j < |routes| ensures routes[i] != routes[j] {
      assert Precedes(pairs[i], pairs[j]);
      if pairs[i].0 == pairs[j].0 {
        assert Ids(slots)[pairs[i].1] != Ids(slots)[pairs[j].1];
      }
    }
  }
}
