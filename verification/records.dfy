/** The garage's records as values: registered vehicles, service sessions,
    and the rows the records tab and the export show for them. Clock
    readings are whole seconds; fuel readings are hundredths of km/l. */
module Records {
  import opened Results
  import opened Kinds
  import opened Text

  /** A vehicle's status. Registration sets Waiting, and nothing in the
      garage changes it afterwards. */
  datatype Status = Waiting | InService

  datatype Vehicle = Vehicle(
    id: string,
    kind: Kind,
    name: string,
    regNo: string,
    owner: string,
    status: Status,
    addedOn: int)

  /** A service session: open while `end`, `duration` are None. The fuel
      reading is None until the first check. */
  datatype Session = Session(
    id: string,
    vehicle: Vehicle,
    start: int,
    end: Option<int>,
    duration: Option<int>,
    fuel: Option<int>)

  function VehicleId(n: nat): string { SequentialId('V', n) }

  function SessionId(n: nat): string { SequentialId('S', n) }

  /** A session is closed once it has an end, not before its start, and
      its duration is end - start. */
  predicate IsClosed(s: Session) {
    s.end.Some? && s.duration == Some(s.end.value - s.start) && s.end.value >= s.start
  }

  /** A freshly opened session for `v` from `start`: not closed, and no
      reading taken yet. */
  function OpenSession(id: string, v: Vehicle, start: int): (s: Session)
    ensures s.id == id && s.vehicle == v && s.start == start
    ensures !IsClosed(s) && s.fuel.None?
  {
    Session(id, v, start, None, None, None)
  }

  /** The session `s` closed at `now`. It is closed whenever `now` is not
      before its start; its id, vehicle, start and reading are kept. */
  function Close(s: Session, now: int): (r: Session)
    ensures now >= s.start ==> IsClosed(r)
    ensures r.end == Some(now)
    ensures r.id == s.id && r.vehicle == s.vehicle && r.start == s.start && r.fuel == s.fuel
  {
    s.(end := Some(now), duration := Some(now - s.start))
  }

  predicate AllClosed(records: seq<Session>) {
    forall i :: 0 <= i < |records| ==> IsClosed(records[i])
  }

  /** The first position of a vehicle with id `vid`, if any. */
  function FirstIndex(vs: seq<Vehicle>, vid: string): (r: Option<nat>)
    ensures r.Some? ==> r.value < |vs| && vs[r.value].id == vid
                        && forall j :: 0 <= j < r.value ==> vs[j].id != vid
    ensures r.None? <==> forall j :: 0 <= j < |vs| ==> vs[j].id != vid
  {
    if vs == [] then None
    else if vs[0].id == vid then Some(0)
    else match FirstIndex(vs[1..], vid)
      case None => None
      case Some(k) => Some(k + 1)
  }

  /** A table cell. Timestamps, durations and readings stay numbers; their
      rendering as text is not part of this model. */
  datatype Cell = Label(text: string) | Clock(seconds: int) | Elapsed(seconds: int) | Reading(hundredths: int)

  /** One row of the records table: ID, Vehicle, License, Start, End,
      Duration, Fuel Efficiency. */
  datatype Row = Row(
    id: string,
    vehicle: string,
    license: string,
    start: Cell,
    end: Cell,
    duration: Cell,
    fuel: Cell)

  /** The Vehicle column: "{Kind} - {name}". */
  function VehicleLabel(v: Vehicle): string {
    KindName(v.kind) + " - " + v.name
  }

  function FuelCell(fuel: Option<int>, missing: string): Cell {
    if fuel.Some? then Reading(fuel.value) else Label(missing)
  }

  /** The row of a closed record; a reading never taken shows "N/A". It
      never looks like the open session's row. */
  function RecordRow(s: Session): (r: Row)
    requires IsClosed(s)
    ensures r.id == s.id && r.license == s.vehicle.regNo
    ensures r.end != Label("In Progress") && r.fuel != Label("Not Checked")
    ensures r.fuel.Reading? <==> s.fuel.Some?
  {
    Row(s.id, VehicleLabel(s.vehicle), s.vehicle.regNo, Clock(s.start),
        Clock(s.end.value), Elapsed(s.duration.value), FuelCell(s.fuel, "N/A"))
  }

  /** The row of the open session: "In Progress", "N/A", and "Not Checked"
      while no reading was taken. */
  function CurrentRow(s: Session): (r: Row)
    ensures r.id == s.id && r.license == s.vehicle.regNo
    ensures r.end == Label("In Progress") && r.duration == Label("N/A")
    ensures r.fuel == Label("Not Checked") <==> s.fuel.None?
  {
    Row(s.id, VehicleLabel(s.vehicle), s.vehicle.regNo, Clock(s.start),
        Label("In Progress"), Label("N/A"), FuelCell(s.fuel, "Not Checked"))
  }

  /** One row per closed record, in record order. */
  function RecordRows(records: seq<Session>): (rows: seq<Row>)
    requires AllClosed(records)
    ensures |rows| == |records|
    ensures forall i :: 0 <= i < |records| ==> rows[i] == RecordRow(records[i])
  {
    if records == [] then []
    else RecordRows(records[..|records| - 1]) + [RecordRow(records[|records| - 1])]
  }

  /** The rows `update_records_display` builds from a state: the closed
      records' rows followed, when a session is open, by exactly one row for
      it. When the records tab is refreshed is up to the garage. */
  function DisplayRows(records: seq<Session>, current: Option<Session>): (rows: seq<Row>)
    requires AllClosed(records)
    ensures |rows| == |records| + (if current.Some? then 1 else 0)
    ensures rows[..|records|] == RecordRows(records)
    ensures current.Some? ==> rows[|records|] == CurrentRow(current.value)
  {
    RecordRows(records) + (if current.Some? then [CurrentRow(current.value)] else [])
  }

  /** Among the rows built from a state, a row reads "In Progress" in its
      End column exactly when it is the open session's row, the last one. */
  lemma InProgressRowIsCurrent(records: seq<Session>, current: Option<Session>, i: nat)
    requires AllClosed(records)
    requires i < |DisplayRows(records, current)|
    ensures DisplayRows(records, current)[i].end == Label("In Progress")
            <==> current.Some? && i == |records|
  {
    var rows := DisplayRows(records, current);
    if i < |records| {
      assert rows[i] == rows[..|records|][i];
    }
  }

  /** The export table: one list per column, as the spreadsheet frame is built. */
  datatype Columns = Columns(
    ids: seq<string>,
    vehicles: seq<string>,
    licenses: seq<string>,
    starts: seq<Cell>,
    ends: seq<Cell>,
    durations: seq<Cell>,
    fuels: seq<Cell>)
  {
    predicate Rectangular(n: nat) {
      |ids| == n && |vehicles| == n && |licenses| == n && |starts| == n
      && |ends| == n && |durations| == n && |fuels| == n
    }

    function RowAt(i: nat): Row
      requires Rectangular(|ids|) && i < |ids|
    {
      Row(ids[i], vehicles[i], licenses[i], starts[i], ends[i], durations[i], fuels[i])
    }
  }

  datatype ExportError = NoRecords
}
