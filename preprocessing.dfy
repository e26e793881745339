/**
 * Data preparation (`preprocess_data`): the schema check, the per-unit volume
 * of each PO line, departure and arrival dates of each capacity record, and the
 * expansion of each capacity record into one slot per available unit.
 */
module Preprocessing {
  import opened Common
  import opened Records
  import opened WeekDates

  // ---------------------------------------------------------------------------
  // Volume

  /** Volume in m³ of a box measured in cm. */
  function ComputeVolume(length: real, width: real, height: real): (v: real)
    ensures v * 1000000.0 == length * width * height
    ensures length >= 0.0 && width >= 0.0 && height >= 0.0 ==> v >= 0.0
    ensures v == 0.0 <==> (length == 0.0 || width == 0.0 || height == 0.0)
  {
    var lw := length * width;
    assert lw == 0.0 <==> length == 0.0 || width == 0.0;
    assert lw * height == 0.0 <==> lw == 0.0 || height == 0.0;
    (length * width * height) / 1000000.0
  }

  /** The PO table with its `Volume (m3)` column (re)computed from the dimensions. */
  function WithVolumes(pos: seq<PoLine>): (r: seq<PoLine>)
    ensures |r| == |pos|
    ensures forall i :: 0 <= i < |pos| ==>
      r[i] == pos[i].(volume := r[i].volume) &&
      r[i].volume * 1000000.0 == pos[i].length * pos[i].width * pos[i].height
  {
    seq(|pos|, i requires 0 <= i < |pos| =>
      pos[i].(volume := ComputeVolume(pos[i].length, pos[i].width, pos[i].height)))
  }

  // ---------------------------------------------------------------------------
  // Schema validation

  const RequiredPoColumns: set<string> := {
    "PO Number", "PO Line Number", "SKU", "Product Name",
    "Product Family", "IsElectronic", "COGS", "From Port",
    "To Port", "Export ETA", "Import ETA", "To Be Shipped Quantity",
    "Length (cm)", "Width (cm)", "Height (cm)", "Weight (kg)",
    "Priority Level", "Unmet Penalty"
  }

  const RequiredCapacityColumns: set<string> := {
    "Week_Year", "From Port", "To Port", "Carrier", "Container Type",
    "Available Units", "Max Volume (m\U{00B3})", "Max Weight (kg)",
    "Estimated Transit Time (days)", "Price (USD)"
  }

  /** The required columns that the table does not have. */
  function MissingColumns(required: set<string>, present: set<string>): (missing: set<string>)
    ensures missing == {} <==> required <= present
    ensures missing <= required && missing !! present
    ensures required <= missing + present
  {
    var missing := required - present;
    assert !(required <= present) ==> missing != {} by {
      if !(required <= present) {
        var c :| c in required && c !in present;
        assert c in missing;
      }
    }
    missing
  }

  datatype SchemaError =
    | MissingPoColumns(missing: set<string>)
    | MissingCapacityColumns(missing: set<string>)

  /** The two schema assertions, PO table first. */
  function CheckSchema(poColumns: set<string>, capColumns: set<string>): (r: Option<SchemaError>)
    ensures r.None? <==> RequiredPoColumns <= poColumns && RequiredCapacityColumns <= capColumns
    ensures r.Some? && r.value.MissingPoColumns? ==>
      r.value.missing != {} && r.value.missing == MissingColumns(RequiredPoColumns, poColumns)
    ensures r.Some? && r.value.MissingCapacityColumns? ==>
      RequiredPoColumns <= poColumns &&
      r.value.missing != {} && r.value.missing == MissingColumns(RequiredCapacityColumns, capColumns)
  {
    if !(RequiredPoColumns <= poColumns) then
      Some(MissingPoColumns(MissingColumns(RequiredPoColumns, poColumns)))
    else if !(RequiredCapacityColumns <= capColumns) then
      Some(MissingCapacityColumns(MissingColumns(RequiredCapacityColumns, capColumns)))
    else None
  }

  // ---------------------------------------------------------------------------
  // Departure and arrival dates

  /** A capacity record with its `Departure Date` and `Arrival Date` columns. */
  datatype DatedCapacity = DatedCapacity(record: CapacityRecord, departure: int, arrival: int)

  function ArrivalDate(departure: int, transitDays: int): (arrival: int)
    ensures arrival >= departure <==> transitDays >= 0
    ensures arrival - transitDays == departure
  {
    departure + transitDays
  }

  /** What `parse_week_year_to_date` gives for each row's Week_Year token. */
  function Departures(rows: seq<CapacityRecord>): (deps: seq<Result<int, WeekYearError>>)
    ensures |deps| == |rows|
    ensures forall i :: 0 <= i < |rows| ==> deps[i] == ParseWeekYear(rows[i].weekYear)
  {
    seq(|rows|, i requires 0 <= i < |rows| => ParseWeekYear(rows[i].weekYear))
  }

  /**
   * The departure column, filled row by row from the parse results `deps`
   * (the first row whose token does not parse raises), and the arrival column.
   */
  function DateFrom(rows: seq<CapacityRecord>, deps: seq<Result<int, WeekYearError>>): Result<seq<DatedCapacity>, WeekYearError>
    requires |deps| == |rows|
  {
    if |rows| == 0 then Ok([])
    else
      match deps[0]
      case Err(e) => Err(e)
      case Ok(departure) =>
        match DateFrom(rows[1..], deps[1..])
        case Err(e) => Err(e)
        case Ok(tail) =>
          Ok([DatedCapacity(rows[0], departure, ArrivalDate(departure, rows[0].transitDays))] + tail)
  }

  /** Why the date columns cannot be filled. */
  datatype DatingError =
    | UnparsableWeek(weekError: WeekYearError)  // `parse_week_year_to_date` raised for some row
    | ArrivalOutOfRange                         // some departure plus transit time is not a date

  /** Every arrival is a day a Python `date` can hold. */
  predicate ArrivalsRepresentable(dated: seq<DatedCapacity>) {
    forall i :: 0 <= i < |dated| ==> Representable(dated[i].arrival)
  }

  /**
   * The capacity table with its departure and arrival columns. Every token is
   * parsed before any arrival is computed, so the first parse error wins over
   * an arrival outside the date range.
   */
  function DateCapacity(rows: seq<CapacityRecord>): Result<seq<DatedCapacity>, DatingError> {
    match DateFrom(rows, Departures(rows))
    case Err(e) => Err(UnparsableWeek(e))
    case Ok(dated) => if ArrivalsRepresentable(dated) then Ok(dated) else Err(ArrivalOutOfRange)
  }

  /** Row `i` got the departure its parse result holds and the arrival `transit` days later. */
  predicate DatedRow(rows: seq<CapacityRecord>, deps: seq<Result<int, WeekYearError>>,
                     dated: seq<DatedCapacity>, i: int)
    requires 0 <= i < |rows| && |deps| == |rows| && |dated| == |rows|
  {
    dated[i].record == rows[i] &&
    deps[i] == Ok(dated[i].departure) &&
    dated[i].arrival == dated[i].departure + rows[i].transitDays
  }

  /** Index of the first row whose parse failed, with every earlier row parsed. */
  predicate FirstBadToken(deps: seq<Result<int, WeekYearError>>, i: int, e: WeekYearError) {
    0 <= i < |deps| &&
    (forall j :: 0 <= j < i ==> deps[j].Ok?) &&
    deps[i] == Err(e)
  }

  lemma {:induction false} DateFromOk(rows: seq<CapacityRecord>, deps: seq<Result<int, WeekYearError>>)
    requires |deps| == |rows|
    ensures DateFrom(rows, deps).Ok? <==> forall i :: 0 <= i < |deps| ==> deps[i].Ok?
  {
    if |rows| > 0 {
      DateFromOk(rows[1..], deps[1..]);
      assert forall i :: 0 < i < |deps| ==> deps[i] == deps[1..][i - 1];
    }
  }

  /** Row `i`'s parse result is a date and its arrival, `transit` days later, is one too. */
  predicate Datable(rows: seq<CapacityRecord>, deps: seq<Result<int, WeekYearError>>, i: int)
    requires 0 <= i < |rows| && |deps| == |rows|
  {
    deps[i].Ok? && Representable(deps[i].value + rows[i].transitDays)
  }

  lemma DateFromDatable(rows: seq<CapacityRecord>, deps: seq<Result<int, WeekYearError>>)
    requires |deps| == |rows|
    ensures (DateFrom(rows, deps).Ok? && ArrivalsRepresentable(DateFrom(rows, deps).value)) <==>
      forall i :: 0 <= i < |rows| ==> Datable(rows, deps, i)
  {
    DateFromOk(rows, deps);
    if DateFrom(rows, deps).Ok? {
      DateFromRows(rows, deps);
      var dated := DateFrom(rows, deps).value;
      forall i | 0 <= i < |rows|
        ensures Datable(rows, deps, i) <==> Representable(dated[i].arrival)
      {
        assert DatedRow(rows, deps, dated, i);
      }
      assert |dated| == |rows|;
    } else {
      assert !forall i :: 0 <= i < |deps| ==> deps[i].Ok?;
      var i :| 0 <= i < |deps| && !deps[i].Ok?;
      assert !Datable(rows, deps, i);
    }
  }

  /**
   * Dating succeeds exactly when every row's token parses and every arrival
   * is a date.
   */
  lemma DateCapacityOk(rows: seq<CapacityRecord>)
    ensures DateCapacity(rows).Ok? <==> forall i :: 0 <= i < |rows| ==>
      ParseWeekYear(rows[i].weekYear).Ok? && Representable(ParseWeekYear(rows[i].weekYear).value + rows[i].transitDays)
  {
    var deps := Departures(rows);
    DateFromDatable(rows, deps);
    forall i | 0 <= i < |rows|
      ensures Datable(rows, deps, i) <==>
        ParseWeekYear(rows[i].weekYear).Ok? && Representable(ParseWeekYear(rows[i].weekYear).value + rows[i].transitDays)
    {
      assert deps[i] == ParseWeekYear(rows[i].weekYear);
    }
  }

  lemma {:induction false} DateFromRows(rows: seq<CapacityRecord>, deps: seq<Result<int, WeekYearError>>)
    requires |deps| == |rows| && DateFrom(rows, deps).Ok?
    ensures |DateFrom(rows, deps).value| == |rows|
    ensures forall i :: 0 <= i < |rows| ==> DatedRow(rows, deps, DateFrom(rows, deps).value, i)
  {
    if |rows| > 0 {
      var tail, tailDeps := rows[1..], deps[1..];
      DateFromRows(tail, tailDeps);
      var all, dated := DateFrom(rows, deps).value, DateFrom(tail, tailDeps).value;
      assert all[1..] == dated;
      forall i | 0 <= i < |rows| ensures DatedRow(rows, deps, all, i) {
        if i > 0 {
          assert rows[i] == tail[i - 1] && deps[i] == tailDeps[i - 1] && all[i] == dated[i - 1];
          assert DatedRow(tail, tailDeps, dated, i - 1);
        }
      }
    }
  }

  /** A successful dating dates every row from its own token and transit time. */
  lemma DateCapacityRows(rows: seq<CapacityRecord>)
    requires DateCapacity(rows).Ok?
    ensures |DateCapacity(rows).value| == |rows|
    ensures forall i :: 0 <= i < |rows| ==> var row := DateCapacity(rows).value[i];
      row.record == rows[i] &&
      ParseWeekYear(rows[i].weekYear) == Ok(row.departure) &&
      row.arrival == row.departure + rows[i].transitDays &&
      Representable(row.arrival)
  {
    var deps := Departures(rows);
    DateFromRows(rows, deps);
    var dated := DateCapacity(rows).value;
    assert dated == DateFrom(rows, deps).value && ArrivalsRepresentable(dated);
    forall i | 0 <= i < |rows|
      ensures dated[i].record == rows[i]
      ensures ParseWeekYear(rows[i].weekYear) == Ok(dated[i].departure)
      ensures dated[i].arrival == dated[i].departure + rows[i].transitDays
      ensures Representable(dated[i].arrival)
    {
      assert DatedRow(rows, deps, dated, i);
    }
  }

  lemma {:induction false} DateFromError(rows: seq<CapacityRecord>, deps: seq<Result<int, WeekYearError>>)
    requires |deps| == |rows| && DateFrom(rows, deps).Err?
    ensures exists i :: FirstBadToken(deps, i, DateFrom(rows, deps).error)
  {
    var e := DateFrom(rows, deps).error;
    if deps[0].Err? {
      assert FirstBadToken(deps, 0, e);
    } else {
      var tail, tailDeps := rows[1..], deps[1..];
      DateFromError(tail, tailDeps);
      var i :| FirstBadToken(tailDeps, i, e);
      forall j | 0 <= j < i + 1 ensures deps[j].Ok? {
        if j > 0 {
          assert deps[j] == tailDeps[j - 1];
        }
      }
      assert deps[i + 1] == tailDeps[i];
      assert FirstBadToken(deps, i + 1, e);
    }
  }

  /**
   * A failed dating reports the error of the first row whose token does not
   * parse; only when every token parses does it report an arrival that is
   * not a date, and then some row's arrival is out of range.
   */
  lemma DateCapacityError(rows: seq<CapacityRecord>)
    requires DateCapacity(rows).Err?
    ensures DateCapacity(rows).error.UnparsableWeek? ==> exists i ::
      && 0 <= i < |rows|
      && (forall j :: 0 <= j < i ==> ParseWeekYear(rows[j].weekYear).Ok?)
      && ParseWeekYear(rows[i].weekYear) == Err(DateCapacity(rows).error.weekError)
    ensures DateCapacity(rows).error.ArrivalOutOfRange? ==>
      && (forall i :: 0 <= i < |rows| ==> ParseWeekYear(rows[i].weekYear).Ok?)
      && exists i :: 0 <= i < |rows| && ParseWeekYear(rows[i].weekYear).Ok? &&
           !Representable(ParseWeekYear(rows[i].weekYear).value + rows[i].transitDays)
  {
    if DateCapacity(rows).error.UnparsableWeek? {
      FirstUnparsableWeek(rows);
    } else {
      SomeArrivalOutOfRange(rows);
    }
  }

  lemma FirstUnparsableWeek(rows: seq<CapacityRecord>)
    requires DateCapacity(rows).Err? && DateCapacity(rows).error.UnparsableWeek?
    ensures exists i ::
      && 0 <= i < |rows|
      && (forall j :: 0 <= j < i ==> ParseWeekYear(rows[j].weekYear).Ok?)
      && ParseWeekYear(rows[i].weekYear) == Err(DateCapacity(rows).error.weekError)
  {
    var deps := Departures(rows);
    assert DateFrom(rows, deps).Err?;
    DateFromError(rows, deps);
    var i :| FirstBadToken(deps, i, DateFrom(rows, deps).error);
    assert forall j :: 0 <= j < i ==> deps[j].Ok?;
  }

  lemma SomeArrivalOutOfRange(rows: seq<CapacityRecord>)
    requires DateCapacity(rows).Err? && DateCapacity(rows).error.ArrivalOutOfRange?
    ensures forall i :: 0 <= i < |rows| ==> ParseWeekYear(rows[i].weekYear).Ok?
    ensures exists i ::
      && 0 <= i < |rows|
      && ParseWeekYear(rows[i].weekYear).Ok?
      && !Representable(ParseWeekYear(rows[i].weekYear).value + rows[i].transitDays)
  {
    var deps := Departures(rows);
    assert DateFrom(rows, deps).Ok?;
    DateFromOk(rows, deps);
    assert forall i :: 0 <= i < |rows| ==> deps[i].Ok?;
    DateCapacityOk(rows);
  }

  /** Week 52 of 9999 starts on 27 December 9999; five days of transit end past the last date. */
  lemma LateArrivalRefused(record: CapacityRecord)
    requires record.weekYear == "9999-W52" && record.transitDays == 5
    ensures DateCapacity([record]) == Err(ArrivalOutOfRange)
  {
    Week52Of9999();
    OneRowOutOfRange(record);
  }

  lemma OneRowOutOfRange(record: CapacityRecord)
    requires ParseWeekYear(record.weekYear).Ok?
    requires !Representable(ParseWeekYear(record.weekYear).value + record.transitDays)
    ensures DateCapacity([record]) == Err(ArrivalOutOfRange)
  {
    var departure := ParseWeekYear(record.weekYear).value;
    var deps := Departures([record]);
    assert deps == [Ok(departure)];
    DateOneRow(record, deps, departure);
    var dated := DateFrom([record], deps).value;
    assert !Representable(dated[0].arrival);
  }

  lemma DateOneRow(record: CapacityRecord, deps: seq<Result<int, WeekYearError>>, departure: int)
    requires deps == [Ok(departure)]
    ensures DateFrom([record], deps) == Ok([DatedCapacity(record, departure, departure + record.transitDays)])
  {
    assert [record][1..] == [] && deps[1..] == [];
    assert DateFrom([record][1..], deps[1..]) == Ok([]);
    var row := DatedCapacity(record, departure, ArrivalDate(departure, record.transitDays));
    assert [row] + [] == [row];
  }

  // ---------------------------------------------------------------------------
  // Expansion by Available Units

  /** `int(row.get("Available Units", 1))`. */
  function UnitsOf(record: CapacityRecord): (units: int)
    ensures record.availableUnits.None? ==> units == 1
    ensures record.availableUnits.Some? ==> units == record.availableUnits.value
  {
    match record.availableUnits
    case Some(n) => n
    case None => 1
  }

  /** How many slots a record expands into: `range(1, units + 1)` is empty when units <= 0. */
  function SlotCount(record: CapacityRecord): nat {
    if UnitsOf(record) > 0 then UnitsOf(record) else 0
  }

  /** Week_Year, From Port, To Port, Carrier and Container Type joined with `_`. */
  function BaseId(record: CapacityRecord): (id: string)
    ensures |id| == |record.weekYear| + |record.fromPort| + |record.toPort| +
                    |record.carrier| + |record.containerType| + 4
  {
    record.weekYear + "_" + record.fromPort + "_" + record.toPort + "_" +
    record.carrier + "_" + record.containerType
  }

  /** The base ID starts with the week token and ends with the container type, each set off by `_`. */
  lemma BaseIdEnds(record: CapacityRecord)
    ensures BaseId(record)[..|record.weekYear| + 1] == record.weekYear + "_"
    ensures BaseId(record)[|BaseId(record)| - |record.containerType| - 1..] == "_" + record.containerType
  {
    var middle := record.fromPort + "_" + record.toPort + "_" + record.carrier;
    assert BaseId(record) == (record.weekYear + "_") + middle + ("_" + record.containerType);
  }

  /** The `i`-th copy of a dated capacity row. */
  function MakeSlot(row: DatedCapacity, i: nat): (s: Slot)
    ensures s.record == row.record && s.departure == row.departure && s.arrival == row.arrival
    ensures s.baseShipmentId == BaseId(row.record)
    ensures s.shipmentId == BaseId(row.record) + "-" + DecimalString(i)
  {
    var base := BaseId(row.record);
    Slot(row.record, row.departure, row.arrival, base + "-" + DecimalString(i), base)
  }

  /** The slots one row expands into, suffixes 1 to N in ascending order. */
  function SlotsOf(row: DatedCapacity): (slots: seq<Slot>)
    ensures |slots| == SlotCount(row.record)
    ensures forall k :: 0 <= k < |slots| ==> slots[k] == MakeSlot(row, k + 1)
  {
    seq(SlotCount(row.record), k requires 0 <= k < SlotCount(row.record) => MakeSlot(row, k + 1))
  }

  /** All rows' slots, row after row. */
  function Expanded(rows: seq<DatedCapacity>): (slots: seq<Slot>)
    ensures forall s :: s in slots ==> s.baseShipmentId == BaseId(s.record)
  {
    if |rows| == 0 then [] else Expanded(rows[..|rows| - 1]) + SlotsOf(rows[|rows| - 1])
  }

  /** Sum of the slot counts of `rows`. */
  function TotalUnits(rows: seq<DatedCapacity>): nat {
    if |rows| == 0 then 0 else TotalUnits(rows[..|rows| - 1]) + SlotCount(rows[|rows| - 1].record)
  }

  /** The expansion loop: one appended row copy per unit, rows in input order. */
  method ExpandByUnits(rows: seq<DatedCapacity>) returns (slots: seq<Slot>)
    ensures slots == Expanded(rows)
  {
    slots := [];
    var r := 0;
    while r < |rows|
      invariant 0 <= r <= |rows|
      invariant slots == Expanded(rows[..r])
    {
      var row := rows[r];
      var units := UnitsOf(row.record);
      var base := BaseId(row.record);
      var i := 1;
      while i <= units
        invariant 1 <= i <= SlotCount(row.record) + 1
        invariant slots == Expanded(rows[..r]) + SlotsOf(row)[..i - 1]
      {
        slots := slots + [Slot(row.record, row.departure, row.arrival, base + "-" + DecimalString(i), base)];
        assert SlotsOf(row)[..i] == SlotsOf(row)[..i - 1] + [MakeSlot(row, i)];
        i := i + 1;
      }
      assert SlotsOf(row)[..i - 1] == SlotsOf(row);
      assert rows[..r + 1][..r] == rows[..r];
      r := r + 1;
    }
    assert rows[..|rows|] == rows;
  }

  /** Expansion yields exactly the sum of the available units (non-positive counts as none). */
  lemma {:induction false} ExpandedLength(rows: seq<DatedCapacity>)
    ensures |Expanded(rows)| == TotalUnits(rows)
  {
    if |rows| > 0 {
      ExpandedLength(rows[..|rows| - 1]);
    }
  }

  /** Expansion of a longer table extends the expansion of its prefix. */
  lemma {:induction false} ExpandedPrefix(rows: seq<DatedCapacity>, n: nat)
    requires n <= |rows|
    ensures Expanded(rows) == Expanded(rows[..n]) + Expanded(rows[n..])
  {
    if n == |rows| {
      assert rows[..n] == rows;
      assert rows[n..] == [];
    } else {
      var init, last := rows[..|rows| - 1], rows[|rows| - 1];
      var rest := rows[n..];
      ExpandedPrefix(init, n);
      assert init[..n] == rows[..n];
      assert rest[..|rest| - 1] == init[n..];
      assert rest[|rest| - 1] == last;
      var front, middle, back := Expanded(rows[..n]), Expanded(init[n..]), SlotsOf(last);
      assert Expanded(rest) == middle + back;
      ConcatAssociates(front, middle, back);
    }
  }

  lemma ExpandedSingleton(row: DatedCapacity)
    ensures Expanded([row]) == SlotsOf(row)
  {
    assert [row][..0] == [];
  }

  /** The expansion of a suffix starts with the slots of its first row. */
  lemma ExpandedFrom(rows: seq<DatedCapacity>, r: nat)
    requires r < |rows|
    ensures Expanded(rows[r..]) == SlotsOf(rows[r]) + Expanded(rows[r + 1..])
  {
    var from := rows[r..];
    ExpandedPrefix(from, 1);
    assert from[..1] == [rows[r]];
    assert from[1..] == rows[r + 1..];
    ExpandedSingleton(rows[r]);
  }

  /**
   * The `k`-th slot of row `r` sits right after the slots of the rows before
   * it and is that row's copy with suffix `k + 1`.
   */
  lemma ExpandedAt(rows: seq<DatedCapacity>, r: nat, k: nat)
    requires r < |rows| && k < SlotCount(rows[r].record)
    ensures TotalUnits(rows[..r]) + k < |Expanded(rows)|
    ensures Expanded(rows)[TotalUnits(rows[..r]) + k] == MakeSlot(rows[r], k + 1)
  {
    ExpandedPrefix(rows, r);
    ExpandedFrom(rows, r);
    ExpandedLength(rows[..r]);
    var before, here, after := Expanded(rows[..r]), SlotsOf(rows[r]), Expanded(rows[r + 1..]);
    assert Expanded(rows) == before + (here + after);
    IndexInMiddle(before, here, after, k);
  }

  /** Shipment IDs cut from one row are pairwise distinct. */
  lemma SlotIdsDistinctWithinRow(row: DatedCapacity, i: nat, j: nat)
    requires i != j
    ensures MakeSlot(row, i).shipmentId != MakeSlot(row, j).shipmentId
  {
    var prefix := BaseId(row.record) + "-";
    if MakeSlot(row, i).shipmentId == MakeSlot(row, j).shipmentId {
      var a, b := DecimalString(i), DecimalString(j);
      assert (prefix + a)[|prefix|..] == a;
      assert (prefix + b)[|prefix|..] == b;
      DecimalStringInjective(i, j);
    }
  }

  /** Two rows agreeing on the five base fields give their first slots the same Shipment ID. */
  lemma SameBaseFieldsCollide(a: DatedCapacity, b: DatedCapacity)
    requires a.record.weekYear == b.record.weekYear && a.record.fromPort == b.record.fromPort
    requires a.record.toPort == b.record.toPort && a.record.carrier == b.record.carrier
    requires a.record.containerType == b.record.containerType
    requires SlotCount(a.record) >= 1 && SlotCount(b.record) >= 1
    ensures !NoDuplicates(Ids(Expanded([a, b])))
  {
    var slots := Expanded([a, b]);
    ExpandedAt([a, b], 0, 0);
    ExpandedAt([a, b], 1, 0);
    var p := TotalUnits([a, b][..1]);
    assert [a, b][..1] == [a] && [a][..0] == [];
    assert p == SlotCount(a.record) && p > 0;
    assert BaseId(a.record) == BaseId(b.record);
    assert slots[0].shipmentId == MakeSlot(a, 1).shipmentId == MakeSlot(b, 1).shipmentId == slots[p].shipmentId;
    assert Ids(slots)[0] == Ids(slots)[p];
  }

  // ---------------------------------------------------------------------------
  // The whole preparation step

  datatype PreprocessError =
    | Schema(schemaError: SchemaError)
    | BadDates(datingError: DatingError)

  /**
   * `preprocess_data` on tables already loaded: the schema check, the volume
   * column, the date columns and the expansion. The PO dates are taken as
   * already parsed day numbers.
   */
  method Preprocess(poColumns: set<string>, poRows: seq<PoLine>,
                    capColumns: set<string>, capRows: seq<CapacityRecord>)
    returns (r: Result<(seq<PoLine>, seq<Slot>), PreprocessError>)
    ensures CheckSchema(poColumns, capColumns).Some? ==>
      r == Err(Schema(CheckSchema(poColumns, capColumns).value))
    ensures CheckSchema(poColumns, capColumns).None? && DateCapacity(capRows).Err? ==>
      r == Err(BadDates(DateCapacity(capRows).error))
    ensures CheckSchema(poColumns, capColumns).None? && DateCapacity(capRows).Ok? ==>
      r == Ok((WithVolumes(poRows), Expanded(DateCapacity(capRows).value)))
  {
    var schema := CheckSchema(poColumns, capColumns);
    if schema.Some? {
      return Err(Schema(schema.value));
    }
    var pos := WithVolumes(poRows);
    var dated := DateCapacity(capRows);
    if dated.Err? {
      return Err(BadDates(dated.error));
    }
    var slots := ExpandByUnits(dated.value);
    r := Ok((pos, slots));
  }

  // ---------------------------------------------------------------------------
  // Proof helpers: arithmetic and sequence facts with no counterpart in the source

  lemma ConcatAssociates<T>(a: seq<T>, b: seq<T>, c: seq<T>)
    ensures a + b + c == a + (b + c)
  {
  }

  lemma IndexInMiddle<T>(before: seq<T>, here: seq<T>, after: seq<T>, k: nat)
    requires k < |here|
    ensures |before| + k < |before + (here + after)|
    ensures (before + (here + after))[|before| + k] == here[k]
  {
  }
}
