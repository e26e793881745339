/**
 * Turning the solver's variable values into the result table of
 * `optimize_shipping`: one assignment row per route whose value is positive,
 * in key order, with a `Used Container` flag on the first row of each
 * Shipment ID; then one unmet row per PO row whose unmet value is positive.
 */
module Interpretation {
  import opened Common
  import opened Records
  import opened Feasibility
  import opened Formulation

  /**
   * The solver's values. A variable without an entry is one whose
   * `varValue` is `None`.
   */
  datatype SolverValues = SolverValues(assign: map<Route, real>, unmet: map<nat, real>)

  /**
   * One row of the result table. `po` supplies the PO columns; `shipment`
   * supplies the Shipment ID, Base Shipment ID, carrier, container, capacity,
   * price and date columns, and is `None` where those columns are `None`.
   */
  datatype OutputRow = OutputRow(
    po: PoLine,
    shipment: Option<Slot>,
    qtyAssigned: int,
    cogsValueAssigned: real,
    lateDays: Option<int>,
    latePenalty: Option<real>,
    usedContainer: int,
    unmetQty: int,
    cogsValueUnmet: real,
    unmetPenalty: int)

  /** `var.varValue and var.varValue > 0`. */
  predicate Positive(values: SolverValues, k: Route) {
    k in values.assign && values.assign[k] > 0.0
  }

  /** The keys, in key order, whose assignment value is positive. */
  function Emitted(keys: seq<Route>, values: SolverValues): (e: seq<Route>)
    ensures |e| <= |keys|
    ensures forall k :: k in e ==> k in keys && Positive(values, k)
  {
    if |keys| == 0 then []
    else
      var k := keys[|keys| - 1];
      Emitted(keys[..|keys| - 1], values) + (if Positive(values, k) then [k] else [])
  }

  /** A key gets an assignment row exactly when it is a key and its value is positive. */
  lemma {:induction false} EmittedMembers(keys: seq<Route>, values: SolverValues, k: Route)
    ensures k in Emitted(keys, values) <==> k in keys && Positive(values, k)
  {
    if |keys| > 0 {
      EmittedMembers(keys[..|keys| - 1], values, k);
      assert keys == keys[..|keys| - 1] + [keys[|keys| - 1]];
    }
  }

  /** No earlier emitted route shares the Shipment ID of route `j`. */
  predicate IsFirstUse(e: seq<Route>, j: nat)
    requires j < |e|
  {
    forall i :: 0 <= i < j ==> e[i].shipmentId != e[j].shipmentId
  }

  /** The Shipment IDs among the emitted routes. */
  function IdSet(e: seq<Route>): set<string> {
    set k | k in e :: k.shipmentId
  }

  /** The assignment row for a value `v` of route `(po, slot)`. */
  function AssignmentRow(po: PoLine, slot: Slot, v: real, usedFlag: int,
                         latePenaltyPerDay: real, priorityMultiplier: real): (r: OutputRow)
    ensures r.po == po && r.shipment == Some(slot) && r.usedContainer == usedFlag
    ensures v >= 0.0 ==> r.qtyAssigned as real <= v < r.qtyAssigned as real + 1.0
    ensures r.cogsValueAssigned == r.qtyAssigned as real * po.cogs
    ensures r.lateDays == Some(LateDays(po, slot))
    ensures r.latePenalty.Some?
    ensures r.latePenalty.value == LateCoefficient(po, slot, latePenaltyPerDay, priorityMultiplier) * (r.qtyAssigned as real)
    ensures r.unmetQty == 0 && r.cogsValueUnmet == 0.0 && r.unmetPenalty == 0
  {
    var qty := Trunc(v);
    var days := LateDays(po, slot);
    var penalty := days as real * latePenaltyPerDay * Pow(priorityMultiplier, po.priority);
    SameScaled(LateCoefficient(po, slot, latePenaltyPerDay, priorityMultiplier), penalty, qty as real);
    OutputRow(po, Some(slot), qty, qty as real * po.cogs, Some(days), Some(penalty * qty as real),
              usedFlag, 0, 0.0, 0)
  }

  /** The unmet row for an unmet value `u` of PO line `po`. */
  function UnmetRow(po: PoLine, u: real): (r: OutputRow)
    ensures r.po == po
    ensures r.shipment.None? && r.lateDays.None? && r.latePenalty.None?
    ensures r.qtyAssigned == 0 && r.cogsValueAssigned == 0.0 && r.usedContainer == 0
    ensures u >= 0.0 ==> r.unmetQty as real <= u < r.unmetQty as real + 1.0
    ensures r.cogsValueUnmet == r.unmetQty as real * po.cogs
    ensures u * po.unmetPenalty >= 0.0 ==>
      r.unmetPenalty as real <= u * po.unmetPenalty < r.unmetPenalty as real + 1.0
  {
    var qty := Trunc(u);
    OutputRow(po, None, 0, 0.0, None, None, 0, qty, qty as real * po.cogs, Trunc(u * po.unmetPenalty))
  }

  /** Every emitted route names a PO row, a Shipment ID and a solver value. */
  predicate EmittedInRange(pos: seq<PoLine>, slots: seq<Slot>, e: seq<Route>, values: SolverValues) {
    forall k :: k in e ==> k.po < |pos| && k.shipmentId in Ids(slots) && k in values.assign
  }

  /** The assignment rows for the emitted routes `e`, row `j` belonging to `e[j]`. */
  function AssignmentRows(pos: seq<PoLine>, slots: seq<Slot>, e: seq<Route>, values: SolverValues,
                          lppd: real, pm: real): (rows: seq<OutputRow>)
    requires EmittedInRange(pos, slots, e, values)
    ensures |rows| == |e|
  {
    seq(|e|, j requires 0 <= j < |e| =>
      AssignmentRow(pos[e[j].po], SlotWithId(slots, e[j].shipmentId), values.assign[e[j]],
                    if IsFirstUse(e, j) then 1 else 0, lppd, pm))
  }

  /** The unmet rows of PO rows `0 .. n-1`, in row order. */
  function UnmetRows(pos: seq<PoLine>, values: SolverValues, n: nat): seq<OutputRow>
    requires n <= |pos|
  {
    if n == 0 then []
    else
      var p := n - 1;
      UnmetRows(pos, values, p) +
      (if p in values.unmet && values.unmet[p] > 0.0 then [UnmetRow(pos[p], values.unmet[p])] else [])
  }

  lemma KeysGiveEmittedInRange(pos: seq<PoLine>, slots: seq<Slot>, keys: seq<Route>, values: SolverValues)
    requires KeysInRange(pos, slots, keys)
    ensures EmittedInRange(pos, slots, Emitted(keys, values), values)
  {
  }

  /** The whole result table: assignment rows, then unmet rows. */
  function ResultTable(pos: seq<PoLine>, slots: seq<Slot>, keys: seq<Route>, values: SolverValues,
                       lppd: real, pm: real): seq<OutputRow>
    requires KeysInRange(pos, slots, keys)
  {
    KeysGiveEmittedInRange(pos, slots, keys, values);
    AssignmentRows(pos, slots, Emitted(keys, values), values, lppd, pm) + UnmetRows(pos, values, |pos|)
  }

  // ---------------------------------------------------------------------------
  // The emission loops

  /** Appending one emitted route appends one row, flagged when its Shipment ID is new. */
  lemma AppendRoute(pos: seq<PoLine>, slots: seq<Slot>, e: seq<Route>, k: Route, values: SolverValues,
                    lppd: real, pm: real)
    requires EmittedInRange(pos, slots, e + [k], values)
    ensures EmittedInRange(pos, slots, e, values)
    ensures AssignmentRows(pos, slots, e + [k], values, lppd, pm) ==
      AssignmentRows(pos, slots, e, values, lppd, pm) +
      [AssignmentRow(pos[k.po], SlotWithId(slots, k.shipmentId), values.assign[k],
                     if k.shipmentId in IdSet(e) then 0 else 1, lppd, pm)]
  {
    var e' := e + [k];
    assert forall x :: x in e ==> x in e';
    forall j | 0 <= j < |e| ensures IsFirstUse(e', j) == IsFirstUse(e, j) {
      assert e'[j] == e[j];
      assert forall i :: 0 <= i < j ==> e'[i] == e[i];
    }
    assert IsFirstUse(e', |e|) <==> k.shipmentId !in IdSet(e) by {
      if k.shipmentId in IdSet(e) {
        var x :| x in e && x.shipmentId == k.shipmentId;
        var i :| 0 <= i < |e| && e[i] == x;
        assert e'[i].shipmentId == e'[|e|].shipmentId;
      }
    }
  }

  /**
   * The first emission loop: assignment rows in key order, with a set of the
   * Shipment IDs seen so far deciding the `Used Container` flag.
   */
  method EmitAssignmentRows(pos: seq<PoLine>, slots: seq<Slot>, keys: seq<Route>, values: SolverValues,
                            lppd: real, pm: real) returns (rows: seq<OutputRow>)
    requires KeysInRange(pos, slots, keys)
    ensures EmittedInRange(pos, slots, Emitted(keys, values), values)
    ensures rows == AssignmentRows(pos, slots, Emitted(keys, values), values, lppd, pm)
  {
    KeysGiveEmittedInRange(pos, slots, keys, values);
    rows := [];
    var used: set<string> := {};
    ghost var e: seq<Route> := [];
    var i := 0;
    while i < |keys|
      invariant i <= |keys|
      invariant e == Emitted(keys[..i], values)
      invariant EmittedInRange(pos, slots, e, values)
      invariant rows == AssignmentRows(pos, slots, e, values, lppd, pm)
      invariant used == IdSet(e)
    {
      var k := keys[i];
      EmittedStep(keys, values, i);
      if k in values.assign && values.assign[k] > 0.0 {
        assert k in keys;
        EmittedInRangeAppend(pos, slots, e, k, values);
        ghost var seen := used;
        var flag := 0;
        if k.shipmentId !in used {
          flag := 1;
          used := used + {k.shipmentId};
        }
        ExtendRows(pos, slots, e, k, values, lppd, pm, rows, seen, flag);
        rows := rows + [AssignmentRow(pos[k.po], SlotWithId(slots, k.shipmentId), values.assign[k], flag, lppd, pm)];
        e := e + [k];
      }
      i := i + 1;
    }
    assert keys[..|keys|] == keys;
  }

  lemma EmittedInRangeAppend(pos: seq<PoLine>, slots: seq<Slot>, e: seq<Route>, k: Route, values: SolverValues)
    requires EmittedInRange(pos, slots, e, values)
    requires k.po < |pos| && k.shipmentId in Ids(slots) && k in values.assign
    ensures EmittedInRange(pos, slots, e + [k], values)
  {
    assert forall x :: x in e + [k] ==> x in e || x == k;
  }

  /** One loop step: the rows and the seen Shipment IDs of `e` extended by route `k`. */
  lemma ExtendRows(pos: seq<PoLine>, slots: seq<Slot>, e: seq<Route>, k: Route, values: SolverValues,
                   lppd: real, pm: real, rows: seq<OutputRow>, used: set<string>, flag: int)
    requires EmittedInRange(pos, slots, e + [k], values)
    requires EmittedInRange(pos, slots, e, values)
    requires rows == AssignmentRows(pos, slots, e, values, lppd, pm) && used == IdSet(e)
    requires flag == if k.shipmentId in used then 0 else 1
    ensures rows + [AssignmentRow(pos[k.po], SlotWithId(slots, k.shipmentId), values.assign[k], flag, lppd, pm)] ==
      AssignmentRows(pos, slots, e + [k], values, lppd, pm)
    ensures used + {k.shipmentId} == IdSet(e + [k])
  {
    AppendRoute(pos, slots, e, k, values, lppd, pm);
    IdSetAppend(e, k);
  }

  /** One more key extends the emitted routes by that key when its value is positive. */
  lemma EmittedStep(keys: seq<Route>, values: SolverValues, i: nat)
    requires i < |keys|
    ensures Positive(values, keys[i]) ==> Emitted(keys[..i + 1], values) == Emitted(keys[..i], values) + [keys[i]]
    ensures !Positive(values, keys[i]) ==> Emitted(keys[..i + 1], values) == Emitted(keys[..i], values)
  {
    assert keys[..i + 1][..i] == keys[..i];
    if !Positive(values, keys[i]) {
      assert Emitted(keys[..i], values) + [] == Emitted(keys[..i], values);
    }
  }

  lemma IdSetAppend(e: seq<Route>, k: Route)
    ensures IdSet(e + [k]) == IdSet(e) + {k.shipmentId}
  {
    assert forall x :: x in e + [k] <==> x in e || x == k;
  }

  /** The second emission loop: one unmet row per PO row whose unmet value is positive. */
  method EmitUnmetRows(pos: seq<PoLine>, values: SolverValues) returns (rows: seq<OutputRow>)
    ensures rows == UnmetRows(pos, values, |pos|)
  {
    rows := [];
    var p := 0;
    while p < |pos|
      invariant p <= |pos|
      invariant rows == UnmetRows(pos, values, p)
    {
      if p in values.unmet && values.unmet[p] > 0.0 {
        rows := rows + [UnmetRow(pos[p], values.unmet[p])];
      }
      p := p + 1;
    }
  }

  /** The result-building part of `optimize_shipping`: assignment rows, then unmet rows. */
  method InterpretSolution(pos: seq<PoLine>, slots: seq<Slot>, keys: seq<Route>, values: SolverValues,
                           lppd: real, pm: real) returns (rows: seq<OutputRow>)
    requires KeysInRange(pos, slots, keys)
    ensures rows == ResultTable(pos, slots, keys, values, lppd, pm)
  {
    var assignmentRows := EmitAssignmentRows(pos, slots, keys, values, lppd, pm);
    var unmetRows := EmitUnmetRows(pos, values);
    rows := assignmentRows + unmetRows;
  }

  // ---------------------------------------------------------------------------
  // The Used Container flags

  /** Sum of the `Used Container` column. */
  function UsedTotal(rows: seq<OutputRow>): int {
    if |rows| == 0 then 0 else UsedTotal(rows[..|rows| - 1]) + rows[|rows| - 1].usedContainer
  }

  lemma {:induction false} UsedTotalAppend(a: seq<OutputRow>, b: seq<OutputRow>)
    ensures UsedTotal(a + b) == UsedTotal(a) + UsedTotal(b)
  {
    if |b| > 0 {
      UsedTotalAppend(a, b[..|b| - 1]);
      assert (a + b)[..|a + b| - 1] == a + b[..|b| - 1];
    } else {
      assert a + b == a;
    }
  }

  lemma UsedTotalSnoc(a: seq<OutputRow>, row: OutputRow)
    ensures UsedTotal(a + [row]) == UsedTotal(a) + row.usedContainer
  {
    assert (a + [row])[..|a|] == a;
  }

  lemma {:induction false} UnmetRowsUnflagged(pos: seq<PoLine>, values: SolverValues, n: nat)
    requires n <= |pos|
    ensures UsedTotal(UnmetRows(pos, values, n)) == 0
  {
    if n > 0 {
      var p := n - 1;
      UnmetRowsUnflagged(pos, values, p);
      UsedTotalAppend(UnmetRows(pos, values, p),
                      if p in values.unmet && values.unmet[p] > 0.0 then [UnmetRow(pos[p], values.unmet[p])] else []);
    }
  }

  lemma {:induction false} AssignmentFlagsCountIds(pos: seq<PoLine>, slots: seq<Slot>, e: seq<Route>,
                                                   values: SolverValues, lppd: real, pm: real)
    requires EmittedInRange(pos, slots, e, values)
    ensures UsedTotal(AssignmentRows(pos, slots, e, values, lppd, pm)) == |IdSet(e)|
  {
    if |e| > 0 {
      var e', k := e[..|e| - 1], e[|e| - 1];
      assert e == e' + [k];
      AppendRoute(pos, slots, e', k, values, lppd, pm);
      AssignmentFlagsCountIds(pos, slots, e', values, lppd, pm);
      var before := AssignmentRows(pos, slots, e', values, lppd, pm);
      var row := AssignmentRow(pos[k.po], SlotWithId(slots, k.shipmentId), values.assign[k],
                               if k.shipmentId in IdSet(e') then 0 else 1, lppd, pm);
      UsedTotalSnoc(before, row);
      IdSetAppend(e', k);
    }
  }

  /**
   * The `Used Container` column sums to the number of distinct Shipment IDs
   * among the assignment rows.
   */
  lemma UsedContainerCount(pos: seq<PoLine>, slots: seq<Slot>, keys: seq<Route>, values: SolverValues,
                           lppd: real, pm: real)
    requires KeysInRange(pos, slots, keys)
    ensures UsedTotal(ResultTable(pos, slots, keys, values, lppd, pm)) == |IdSet(Emitted(keys, values))|
  {
    var e := Emitted(keys, values);
    KeysGiveEmittedInRange(pos, slots, keys, values);
    AssignmentFlagsCountIds(pos, slots, e, values, lppd, pm);
    UnmetRowsUnflagged(pos, values, |pos|);
    UsedTotalAppend(AssignmentRows(pos, slots, e, values, lppd, pm), UnmetRows(pos, values, |pos|));
  }

  // ---------------------------------------------------------------------------
  // Layout of the table

  lemma {:induction false} UnmetRowsShape(pos: seq<PoLine>, values: SolverValues, n: nat)
    requires n <= |pos|
    ensures forall r :: r in UnmetRows(pos, values, n) ==>
      r.shipment.None? && r.qtyAssigned == 0 && r.usedContainer == 0 && r.unmetQty >= 0
  {
    if n > 0 {
      UnmetRowsShape(pos, values, n - 1);
    }
  }

  /** `unmet.varValue and unmet.varValue > 0` for PO row `p`. */
  predicate UnmetPositive(values: SolverValues, p: nat) {
    p in values.unmet && values.unmet[p] > 0.0
  }

  /** The PO rows below `n` whose unmet value is positive, in row order. */
  function UnmetLines(values: SolverValues, n: nat): (lines: seq<nat>)
    ensures forall j :: 0 <= j < |lines| ==> lines[j] < n && UnmetPositive(values, lines[j])
  {
    if n == 0 then []
    else UnmetLines(values, n - 1) + (if UnmetPositive(values, n - 1) then [n - 1] else [])
  }

  /** Each PO row with a positive unmet value is listed once, rows ascending. */
  lemma {:induction false} UnmetLinesOrdered(values: SolverValues, n: nat)
    ensures forall p: nat :: p in UnmetLines(values, n) <==> p < n && UnmetPositive(values, p)
    ensures forall i, j :: 0 <= i < j < |UnmetLines(values, n)| ==>
      UnmetLines(values, n)[i] < UnmetLines(values, n)[j]
  {
    if n > 0 {
      UnmetLinesOrdered(values, n - 1);
    }
  }

  /**
   * The unmet rows are exactly one row per PO row with a positive unmet value,
   * in PO row order: row `j` is the unmet row of the `j`-th such PO row.
   */
  lemma {:induction false} UnmetRowsLayout(pos: seq<PoLine>, values: SolverValues, n: nat)
    requires n <= |pos|
    ensures |UnmetRows(pos, values, n)| == |UnmetLines(values, n)|
    ensures forall j :: 0 <= j < |UnmetLines(values, n)| ==>
      var p := UnmetLines(values, n)[j];
      UnmetRows(pos, values, n)[j] == UnmetRow(pos[p], values.unmet[p])
  {
    if n > 0 {
      UnmetRowsLayout(pos, values, n - 1);
    }
  }

  /**
   * An unmet row for PO row `p` is listed exactly when its unmet value is
   * positive, and every listed unmet row is such a row.
   */
  lemma UnmetRowsMembers(pos: seq<PoLine>, values: SolverValues, n: nat, p: nat)
    requires n <= |pos| && p < |pos|
    ensures (p in values.unmet && values.unmet[p] > 0.0 && p < n) ==>
      UnmetRow(pos[p], values.unmet[p]) in UnmetRows(pos, values, n)
    ensures forall r :: r in UnmetRows(pos, values, n) ==>
      exists q :: 0 <= q < n && q in values.unmet && values.unmet[q] > 0.0 && r == UnmetRow(pos[q], values.unmet[q])
    ensures |UnmetRows(pos, values, n)| <= n
  {
    UnmetLinesOrdered(values, n);
    UnmetRowsLayout(pos, values, n);
    if p in values.unmet && values.unmet[p] > 0.0 && p < n {
      UnmetRowOfLine(pos, values, n, p);
    }
    forall r | r in UnmetRows(pos, values, n)
      ensures exists q :: 0 <= q < n && q in values.unmet && values.unmet[q] > 0.0 && r == UnmetRow(pos[q], values.unmet[q])
    {
      LineOfUnmetRow(pos, values, n, r);
    }
    LinesBound(UnmetLines(values, n), n);
  }

  lemma UnmetRowOfLine(pos: seq<PoLine>, values: SolverValues, n: nat, p: nat)
    requires n <= |pos| && p < n && UnmetPositive(values, p)
    ensures UnmetRow(pos[p], values.unmet[p]) in UnmetRows(pos, values, n)
  {
    var lines, rows := UnmetLines(values, n), UnmetRows(pos, values, n);
    UnmetLinesOrdered(values, n);
    UnmetRowsLayout(pos, values, n);
    var j :| 0 <= j < |lines| && lines[j] == p;
    assert rows[j] == UnmetRow(pos[p], values.unmet[p]);
  }

  lemma LineOfUnmetRow(pos: seq<PoLine>, values: SolverValues, n: nat, r: OutputRow)
    requires n <= |pos| && r in UnmetRows(pos, values, n)
    ensures exists q :: 0 <= q < n && q in values.unmet && values.unmet[q] > 0.0 && r == UnmetRow(pos[q], values.unmet[q])
  {
    var lines, rows := UnmetLines(values, n), UnmetRows(pos, values, n);
    UnmetRowsLayout(pos, values, n);
    var j :| 0 <= j < |rows| && rows[j] == r;
    var q := lines[j];
    assert r == UnmetRow(pos[q], values.unmet[q]);
  }

  /** A strictly ascending list of numbers below `n` has at most `n` entries. */
  lemma {:induction false} LinesBound(lines: seq<nat>, n: nat)
    requires forall j :: 0 <= j < |lines| ==> lines[j] < n
    requires forall i, j :: 0 <= i < j < |lines| ==> lines[i] < lines[j]
    ensures |lines| <= n
    decreases n
  {
    if |lines| > 0 {
      var init := lines[..|lines| - 1];
      assert forall j :: 0 <= j < |init| ==> init[j] < lines[|lines| - 1];
      LinesBound(init, lines[|lines| - 1]);
    }
  }

  /**
   * The first rows of the table, one per emitted route in key order, are the
   * assignment rows: row `j` carries the PO line and the slot of the `j`-th
   * emitted route, its truncated value, and the first-use flag.
   */
  lemma AssignmentRowAt(pos: seq<PoLine>, slots: seq<Slot>, keys: seq<Route>, values: SolverValues,
                        lppd: real, pm: real, j: nat)
    requires KeysInRange(pos, slots, keys)
    requires j < |Emitted(keys, values)|
    ensures var e := Emitted(keys, values);
      var r := ResultTable(pos, slots, keys, values, lppd, pm)[j];
      Positive(values, e[j]) && e[j].po < |pos| && e[j].shipmentId in Ids(slots) &&
      r.po == pos[e[j].po] && r.shipment == Some(SlotWithId(slots, e[j].shipmentId)) &&
      r.qtyAssigned == Trunc(values.assign[e[j]]) && r.unmetQty == 0 &&
      r.usedContainer == (if IsFirstUse(e, j) then 1 else 0)
  {
    var e := Emitted(keys, values);
    KeysGiveEmittedInRange(pos, slots, keys, values);
    var a := AssignmentRows(pos, slots, e, values, lppd, pm);
    var u := UnmetRows(pos, values, |pos|);
    assert e[j] in e;
    assert (a + u)[j] == a[j];
  }

  /** Every row after the assignment rows is an unmet row: no shipment, nothing assigned, no flag. */
  lemma UnmetRowAt(pos: seq<PoLine>, slots: seq<Slot>, keys: seq<Route>, values: SolverValues,
                   lppd: real, pm: real, j: nat)
    requires KeysInRange(pos, slots, keys)
    requires |Emitted(keys, values)| <= j < |ResultTable(pos, slots, keys, values, lppd, pm)|
    ensures var r := ResultTable(pos, slots, keys, values, lppd, pm)[j];
      r.shipment.None? && r.qtyAssigned == 0 && r.usedContainer == 0 && r.unmetQty >= 0
  {
    var e := Emitted(keys, values);
    KeysGiveEmittedInRange(pos, slots, keys, values);
    var a := AssignmentRows(pos, slots, e, values, lppd, pm);
    var u := UnmetRows(pos, values, |pos|);
    UnmetRowsShape(pos, values, |pos|);
    assert (a + u)[j] == u[j - |e|];
    assert u[j - |e|] in u;
  }

  // ---------------------------------------------------------------------------
  // Tying the table to a solution of the model

  /** The values a solver reports for an integral candidate solution. */
  function ValuesOf(c: Candidate): (values: SolverValues)
    ensures forall k :: k in values.assign <==> k in c.assign
    ensures forall p: nat :: p in values.unmet <==> p < |c.unmet|
  {
    SolverValues(map k | k in c.assign :: c.assign[k] as real,
                 map p: nat | p < |c.unmet| :: c.unmet[p] as real)
  }

  /** Quantity shipped for PO row `p` over the routes `keys` whose value is positive. */
  function ShippedTo(keys: seq<Route>, values: SolverValues, p: nat): int
  {
    if |keys| == 0 then 0
    else
      var k := keys[|keys| - 1];
      ShippedTo(keys[..|keys| - 1], values, p) +
      (if k.po == p && Positive(values, k) then Trunc(values.assign[k]) else 0)
  }

  /** The per-route quantities of the emitted routes of PO row `p` are the ones `ShippedTo` sums. */
  lemma {:induction false} ShippedToOfEmitted(keys: seq<Route>, values: SolverValues, p: nat)
    ensures ShippedTo(Emitted(keys, values), values, p) == ShippedTo(keys, values, p)
  {
    if |keys| > 0 {
      var k := keys[|keys| - 1];
      var e := Emitted(keys[..|keys| - 1], values);
      ShippedToOfEmitted(keys[..|keys| - 1], values, p);
      if Positive(values, k) {
        assert Emitted(keys, values) == e + [k];
        assert (e + [k])[..|e + [k]| - 1] == e;
      } else {
        assert Emitted(keys, values) == e;
      }
    }
  }

  lemma {:induction false} ShippedToIsAssignedTo(keys: seq<Route>, c: Candidate, p: nat)
    requires forall k :: k in keys ==> k in c.assign && c.assign[k] >= 0
    ensures ShippedTo(keys, ValuesOf(c), p) == AssignedTo(keys, c.assign, p)
  {
    if |keys| > 0 {
      var k := keys[|keys| - 1];
      ShippedToIsAssignedTo(keys[..|keys| - 1], c, p);
      TruncOfWhole(c.assign[k]);
    }
  }

  /** Quantity the unmet row of PO row `p` reports, 0 when there is none. */
  function ReportedUnmet(values: SolverValues, p: nat): int {
    if p in values.unmet && values.unmet[p] > 0.0 then Trunc(values.unmet[p]) else 0
  }

  /**
   * For the values of a solution that meets every constraint, the quantities
   * on a PO line's assignment rows and on its unmet row add up to its demand.
   */
  lemma ReportedBalance(pos: seq<PoLine>, slots: seq<Slot>, keys: seq<Route>, c: Candidate, p: nat)
    requires Satisfies(pos, slots, keys, c) && p < |pos|
    ensures ShippedTo(Emitted(keys, ValuesOf(c)), ValuesOf(c), p) + ReportedUnmet(ValuesOf(c), p) == pos[p].quantity
  {
    SatisfiedLine(pos, slots, keys, c, p);
    LineBalance(keys, c, p, pos[p].quantity);
  }

  lemma LineBalance(keys: seq<Route>, c: Candidate, p: nat, quantity: int)
    requires forall k :: k in keys ==> k in c.assign && c.assign[k] >= 0
    requires p < |c.unmet| && c.unmet[p] >= 0
    requires AssignedTo(keys, c.assign, p) + c.unmet[p] == quantity
    ensures ShippedTo(Emitted(keys, ValuesOf(c)), ValuesOf(c), p) + ReportedUnmet(ValuesOf(c), p) == quantity
  {
    var values := ValuesOf(c);
    ShippedToOfEmitted(keys, values, p);
    ShippedToIsAssignedTo(keys, c, p);
    TruncOfWhole(c.unmet[p]);
  }

  /** What a solution that meets every constraint says about PO row `p`. */
  lemma SatisfiedLine(pos: seq<PoLine>, slots: seq<Slot>, keys: seq<Route>, c: Candidate, p: nat)
    requires Satisfies(pos, slots, keys, c) && p < |pos|
    ensures forall k :: k in keys ==> k in c.assign && c.assign[k] >= 0
    ensures p < |c.unmet| && c.unmet[p] >= 0
    ensures AssignedTo(keys, c.assign, p) + c.unmet[p] == pos[p].quantity
  {
  }

  /**
   * A PO line with no route gets no assignment row, and for the values of a
   * solution that meets every constraint its unmet row reports the whole demand.
   */
  lemma UnroutedLineReport(pos: seq<PoLine>, slots: seq<Slot>, keys: seq<Route>, c: Candidate, p: nat)
    requires Satisfies(pos, slots, keys, c) && p < |pos|
    requires forall k :: k in keys ==> k.po != p
    ensures forall k :: k in Emitted(keys, ValuesOf(c)) ==> k.po != p
    ensures ReportedUnmet(ValuesOf(c), p) == pos[p].quantity
  {
    UnroutedLineIsUnmet(pos, slots, keys, c, p);
    TruncOfWhole(c.unmet[p]);
  }

  /**
   * With unique Shipment IDs, every assignment row pairs its PO line with a
   * slot that is feasible for it.
   */
  lemma AssignmentRowsFeasible(pos: seq<PoLine>, slots: seq<Slot>, values: SolverValues, k: Route)
    requires NoDuplicates(Ids(slots))
    requires k in Emitted(Dedup(RouteList(pos, slots)), values)
    ensures k.po < |pos| && k.shipmentId in Ids(slots)
    ensures Feasible(pos[k.po], SlotWithId(slots, k.shipmentId))
  {
    assert k in RouteList(pos, slots);
    RouteListMembers(pos, slots, k.po, k.shipmentId);
    var s :| 0 <= s < |slots| && slots[s].shipmentId == k.shipmentId && Feasible(pos[k.po], slots[s]);
    SlotWithUniqueId(slots, s);
  }

  /**
   * Quantities are truncated, not rounded: a value just under a whole number
   * reports one unit fewer, and the unmet penalty truncates the product of
   * quantity and rate.
   */
  lemma TruncatedReport(po: PoLine, slot: Slot, lppd: real, pm: real)
    requires po.unmetPenalty == 0.5
    ensures AssignmentRow(po, slot, 4.999, 1, lppd, pm).qtyAssigned == 4
    ensures UnmetRow(po, 3.0).unmetQty == 3 && UnmetRow(po, 3.0).unmetPenalty == 1
  {
  }

  // ---------------------------------------------------------------------------
  // Constraint names

  /** The first index whose Shipment ID already occurred earlier, if any. */
  function RepeatAt(ids: seq<string>, n: nat): (r: Option<nat>)
    requires n <= |ids|
    ensures r.Some? ==> r.value < n && ids[r.value] in ids[..r.value]
  {
    if n == 0 then None
    else
      match RepeatAt(ids, n - 1)
      case Some(j) => Some(j)
      case None => if ids[n - 1] in ids[..n - 1] then Some(n - 1) else None
  }

  /** No repeat is found exactly when the IDs are pairwise distinct; a found repeat is the first one. */
  lemma {:induction false} RepeatAtFirst(ids: seq<string>, n: nat)
    requires n <= |ids|
    ensures RepeatAt(ids, n).None? <==> NoDuplicates(ids[..n])
    ensures RepeatAt(ids, n).Some? ==> NoDuplicates(ids[..RepeatAt(ids, n).value])
  {
    if n > 0 {
      RepeatAtFirst(ids, n - 1);
      var init := ids[..n - 1];
      assert ids[..n][..n - 1] == init;
      if RepeatAt(ids, n - 1).None? && ids[n - 1] in init {
        var i :| 0 <= i < n - 1 && init[i] == ids[n - 1];
        assert ids[..n][i] == ids[..n][n - 1];
      }
      if RepeatAt(ids, n - 1).Some? {
        assert !NoDuplicates(init);
        var i, j :| 0 <= i < j < n - 1 && init[i] == init[j];
        assert ids[..n][i] == ids[..n][j];
      }
    }
  }

  /** Once found, the first repeat stays the first repeat. */
  lemma {:induction false} RepeatAtStable(ids: seq<string>, n: nat, m: nat)
    requires n <= m <= |ids| && RepeatAt(ids, n).Some?
    ensures RepeatAt(ids, m) == RepeatAt(ids, n)
    decreases m - n
  {
    if n < m {
      RepeatAtStable(ids, n + 1, m);
    }
  }

  /** `VolCap_<id>` and `WtCap_<id>`: the names of a Shipment ID's two capacity constraints. */
  function VolumeConstraintName(id: string): string { "VolCap_" + id }

  function WeightConstraintName(id: string): string { "WtCap_" + id }

  /** The constraint names of the Shipment IDs `ids`. */
  function ConstraintNames(ids: seq<string>): set<string> {
    (set id | id in ids :: VolumeConstraintName(id)) + (set id | id in ids :: WeightConstraintName(id))
  }

  lemma NameOfId(ids: seq<string>, id: string)
    ensures VolumeConstraintName(id) in ConstraintNames(ids) <==> id in ids
    ensures WeightConstraintName(id) in ConstraintNames(ids) <==> id in ids
  {
    if VolumeConstraintName(id) in ConstraintNames(ids) {
      var x :| x in ids && (VolumeConstraintName(x) == VolumeConstraintName(id) || WeightConstraintName(x) == VolumeConstraintName(id));
      assert WeightConstraintName(x)[0] != VolumeConstraintName(id)[0];
      assert x == VolumeConstraintName(x)[7..] && id == VolumeConstraintName(id)[7..];
    }
    if WeightConstraintName(id) in ConstraintNames(ids) {
      var x :| x in ids && (VolumeConstraintName(x) == WeightConstraintName(id) || WeightConstraintName(x) == WeightConstraintName(id));
      assert VolumeConstraintName(x)[0] != WeightConstraintName(id)[0];
      assert x == WeightConstraintName(x)[6..] && id == WeightConstraintName(id)[6..];
    }
  }

  /**
   * The capacity-constraint loop's naming: the two constraints of each
   * Shipment ID are added in column order, and PuLP refuses a name it already
   * holds. The result is the refused name, or `None` when every name is new.
   */
  method AddCapacityConstraints(slots: seq<Slot>) returns (refused: Option<string>)
    ensures refused == match RepeatAt(Ids(slots), |slots|)
      case None => None
      case Some(j) => Some(VolumeConstraintName(slots[j].shipmentId))
  {
    var ids := Ids(slots);
    var names: set<string> := {};
    var s := 0;
    while s < |slots|
      invariant s <= |slots|
      invariant RepeatAt(ids, s).None?
      invariant names == ConstraintNames(ids[..s])
    {
      var id := slots[s].shipmentId;
      assert ids[..s + 1] == ids[..s] + [id];
      NameOfId(ids[..s], id);
      if VolumeConstraintName(id) in names {
        assert RepeatAt(ids, s + 1) == Some(s);
        RepeatAtStable(ids, s + 1, |slots|);
        return Some(VolumeConstraintName(id));
      }
      names := names + {VolumeConstraintName(id)};
      if WeightConstraintName(id) in names {
        assert false;
      }
      names := names + {WeightConstraintName(id)};
      s := s + 1;
    }
    assert s == |slots|;
    return None;
  }

  // ---------------------------------------------------------------------------
  // optimize_shipping end to end

  datatype OptimizeError =
    | MissingShipmentIdColumn          // `cap_df["Shipment ID"]` on the frame built from no rows: KeyError
    | OverlappingConstraintName(name: string)  // PuLP's PulpError on a repeated constraint name

  /**
   * The outcome of `optimize_shipping` for given solver values. `slots` is the
   * expanded capacity table from preprocessing: with no rows it has no columns.
   */
  function Optimized(pos: seq<PoLine>, slots: seq<Slot>, values: SolverValues, lppd: real, pm: real)
    : (r: Result<seq<OutputRow>, OptimizeError>)
    ensures r.Ok? <==> |slots| > 0 && NoDuplicates(Ids(slots))
    ensures r.Ok? ==> r.value == ResultTable(pos, slots, RouteList(pos, slots), values, lppd, pm)
  {
    RepeatAtFirst(Ids(slots), |slots|);
    assert Ids(slots)[..|slots|] == Ids(slots);
    if |slots| == 0 then Err(MissingShipmentIdColumn)
    else
      match RepeatAt(Ids(slots), |slots|)
      case Some(j) => Err(OverlappingConstraintName(VolumeConstraintName(slots[j].shipmentId)))
      case None =>
        RouteListDistinct(pos, slots);
        DedupOfDistinct(RouteList(pos, slots));
        Ok(ResultTable(pos, slots, Dedup(RouteList(pos, slots)), values, lppd, pm))
  }

  /** A refused name is the volume constraint of the first Shipment ID that repeats. */
  lemma RefusedName(pos: seq<PoLine>, slots: seq<Slot>, values: SolverValues, lppd: real, pm: real)
    requires Optimized(pos, slots, values, lppd, pm).Err? && |slots| > 0
    ensures exists j ::
      && 0 <= j < |slots|
      && Optimized(pos, slots, values, lppd, pm).error == OverlappingConstraintName(VolumeConstraintName(slots[j].shipmentId))
      && slots[j].shipmentId in Ids(slots)[..j]
      && NoDuplicates(Ids(slots)[..j])
  {
    RepeatAtFirst(Ids(slots), |slots|);
  }

  /**
   * The whole run for given solver values: the feasible routes, the variable
   * keys, the Shipment ID column, the capacity-constraint names, and the
   * result table built from the values.
   */
  method OptimizeShipping(pos: seq<PoLine>, slots: seq<Slot>, values: SolverValues, lppd: real, pm: real)
    returns (r: Result<seq<OutputRow>, OptimizeError>)
    ensures r == Optimized(pos, slots, values, lppd, pm)
  {
    var routes := FindFeasibleRoutes(pos, slots);
    var keys, upper := DeclareAssignVariables(pos, routes);
    if |slots| == 0 {
      return Err(MissingShipmentIdColumn);
    }
    var refused := AddCapacityConstraints(slots);
    if refused.Some? {
      return Err(OverlappingConstraintName(refused.value));
    }
    var rows := InterpretSolution(pos, slots, keys, values, lppd, pm);
    return Ok(rows);
  }

  /** The defaults of `late_penalty_per_day` and `priority_multiplier`. */
  const DefaultLatePenaltyPerDay: real := 2.0
  const DefaultPriorityMultiplier: real := 2.0

  /** `optimize_shipping(po_df, cap_df)` with both rates left at their defaults. */
  method OptimizeShippingWithDefaults(pos: seq<PoLine>, slots: seq<Slot>, values: SolverValues)
    returns (r: Result<seq<OutputRow>, OptimizeError>)
    ensures r == Optimized(pos, slots, values, DefaultLatePenaltyPerDay, DefaultPriorityMultiplier)
  {
    r := OptimizeShipping(pos, slots, values, DefaultLatePenaltyPerDay, DefaultPriorityMultiplier);
  }

  // ---------------------------------------------------------------------------
  // Proof helpers: arithmetic and sequence facts with no counterpart in the source

  lemma SameScaled(a: real, b: real, q: real)
    requires a == b
    ensures a * q == b * q
  {
  }
}
