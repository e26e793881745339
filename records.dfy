/**
 * The records that flow through one optimisation run: purchase-order lines,
 * capacity records, the container slots expanded from them, and the
 * (PO line, Shipment ID) keys of the assignment variables.
 *
 * Dates are whole day numbers counted as Python's `date.toordinal` counts them
 * (1 January of year 1 is day 1). Money, volumes and weights are exact reals.
 */
module Records {
  import opened Common

  /** One row of the purchase-order table once volume has been derived. */
  datatype PoLine = PoLine(
    poNumber: string,
    lineNumber: int,
    sku: string,
    productName: string,
    productFamily: string,
    isElectronic: int,
    cogs: real,
    fromPort: string,
    toPort: string,
    exportEta: int,
    importEta: int,
    quantity: int,         // To Be Shipped Quantity
    length: real,          // cm
    width: real,           // cm
    height: real,          // cm
    weight: real,          // kg per unit
    volume: real,          // m³ per unit
    priority: nat,         // Priority Level
    unmetPenalty: real)    // cost per unit left unmet

  /** One row of the capacity table as loaded. */
  datatype CapacityRecord = CapacityRecord(
    weekYear: string,
    fromPort: string,
    toPort: string,
    carrier: string,
    containerType: string,
    availableUnits: Option<int>,   // None when the column is absent from the row
    maxVolume: real,
    maxWeight: real,
    transitDays: int,
    price: real)

  /** One physical container: a capacity row with its dates and its identifiers. */
  datatype Slot = Slot(
    record: CapacityRecord,
    departure: int,
    arrival: int,
    shipmentId: string,
    baseShipmentId: string)

  /** Key of one assignment variable: a PO row index and a Shipment ID. */
  datatype Route = Route(po: nat, shipmentId: string)

  /** The Shipment ID column of the slot table. */
  function Ids(slots: seq<Slot>): (ids: seq<string>)
    ensures |ids| == |slots|
    ensures forall i :: 0 <= i < |slots| ==> ids[i] == slots[i].shipmentId
  {
    seq(|slots|, i requires 0 <= i < |slots| => slots[i].shipmentId)
  }

  /**
   * Row of the first slot carrying `id`: the row that
   * `cap_df[cap_df["Shipment ID"] == id].iloc[0]` selects.
   */
  function FirstIndex(slots: seq<Slot>, id: string): (k: nat)
    requires id in Ids(slots)
    ensures k < |slots| && slots[k].shipmentId == id
    ensures forall j :: 0 <= j < k ==> slots[j].shipmentId != id
  {
    if slots[0].shipmentId == id then 0
    else
      assert id in Ids(slots[1..]) by {
        var i :| 0 <= i < |slots| && Ids(slots)[i] == id;
        assert i != 0 && Ids(slots[1..])[i - 1] == id;
      }
      1 + FirstIndex(slots[1..], id)
  }

  /** The slot that the source looks up for a Shipment ID. */
  function SlotWithId(slots: seq<Slot>, id: string): (s: Slot)
    requires id in Ids(slots)
    ensures s.shipmentId == id
    ensures exists k :: 0 <= k < |slots| && slots[k] == s && forall j :: 0 <= j < k ==> slots[j].shipmentId != id
  {
    slots[FirstIndex(slots, id)]
  }

  /** With unique Shipment IDs the lookup finds the one slot carrying the ID. */
  lemma SlotWithUniqueId(slots: seq<Slot>, s: nat)
    requires s < |slots| && NoDuplicates(Ids(slots))
    ensures slots[s].shipmentId in Ids(slots)
    ensures SlotWithId(slots, slots[s].shipmentId) == slots[s]
  {
    var ids := Ids(slots);
    assert ids[s] == slots[s].shipmentId;
  }
}
