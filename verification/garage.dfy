/** The garage's bookkeeping: the registered vehicles, the closed service
    records, the one open session slot and the state of the Start button. */
module GarageApp {
  import opened Results
  import opened Kinds
  import opened Text
  import opened Records

  /** The ids of `vs` are V001, V002, ... in order. Stated one vehicle at a
      time, from the last; VehicleIdAt gives the id at any position. */
  ghost predicate VehicleIdsNumbered(vs: seq<Vehicle>)
    decreases |vs|
  {
    vs == [] || (VehicleIdsNumbered(vs[..|vs| - 1]) && vs[|vs| - 1].id == VehicleId(|vs|))
  }

  lemma {:induction false} VehicleIdAt(vs: seq<Vehicle>, i: nat)
    requires VehicleIdsNumbered(vs) && i < |vs|
    ensures vs[i].id == VehicleId(i + 1)
    decreases |vs|
  {
    if i < |vs| - 1 {
      VehicleIdAt(vs[..|vs| - 1], i);
    }
  }

  /** The ids of `records` are S001, S002, ... in order. */
  ghost predicate SessionIdsNumbered(records: seq<Session>)
    decreases |records|
  {
    records == [] || (SessionIdsNumbered(records[..|records| - 1])
                      && records[|records| - 1].id == SessionId(|records|))
  }

  lemma {:induction false} SessionIdAt(records: seq<Session>, i: nat)
    requires SessionIdsNumbered(records) && i < |records|
    ensures records[i].id == SessionId(i + 1)
    decreases |records|
  {
    if i < |records| - 1 {
      SessionIdAt(records[..|records| - 1], i);
    }
  }

  /** Vehicle ids are V001, V002, ... in order, and every vehicle is Waiting. */
  ghost predicate VehiclesNumbered(vs: seq<Vehicle>) {
    VehicleIdsNumbered(vs) && forall i :: 0 <= i < |vs| ==> vs[i].status == Waiting
  }

  /** Session `s` refers to a vehicle of `vs`; a reading, once taken, lies in
      that vehicle's range. */
  ghost predicate SessionOk(s: Session, vs: seq<Vehicle>) {
    s.vehicle in vs && (s.fuel.Some? ==> InFuelRange(s.vehicle.kind, s.fuel.value))
  }

  /** The records are closed sessions S001, S002, ... in order. */
  ghost predicate RecordsNumbered(records: seq<Session>, vs: seq<Vehicle>) {
    SessionIdsNumbered(records)
    && forall i :: 0 <= i < |records| ==> SessionOk(records[i], vs) && IsClosed(records[i])
  }

  /** An open session is the one after the records and is not yet closed. */
  ghost predicate IsOpenAfter(s: Session, records: seq<Session>, vs: seq<Vehicle>) {
    s.id == SessionId(|records| + 1) && SessionOk(s, vs) && s.end.None? && s.duration.None?
  }

  /** Closing the open session and appending it keeps the records numbered. */
  lemma CloseKeepsNumbering(records: seq<Session>, vs: seq<Vehicle>, s: Session, now: int)
    requires RecordsNumbered(records, vs) && IsOpenAfter(s, records, vs) && now >= s.start
    ensures RecordsNumbered(records + [Close(s, now)], vs)
  {
    var after := records + [Close(s, now)];
    assert after[..|records|] == records;
    forall i | 0 <= i < |after|
      ensures SessionOk(after[i], vs) && IsClosed(after[i])
    {
      if i < |records| {
        assert after[i] == records[i];
      }
    }
  }

  /** Taking a reading in the vehicle's range keeps a session open and
      consistent. */
  lemma MeasureKeepsOpen(s: Session, records: seq<Session>, vs: seq<Vehicle>, hundredths: int)
    requires IsOpenAfter(s, records, vs) && InFuelRange(s.vehicle.kind, hundredths)
    ensures IsOpenAfter(s.(fuel := Some(hundredths)), records, vs)
    ensures Shown(Some(s.(fuel := Some(hundredths)))) == Some(s.(fuel := Some(hundredths)))
  {
  }

  /** Appending the next vehicle keeps the vehicles numbered, and every
      session still refers to a registered vehicle. */
  lemma RegisterKeepsNumbering(vs: seq<Vehicle>, records: seq<Session>, current: Option<Session>, v: Vehicle)
    requires VehiclesNumbered(vs) && RecordsNumbered(records, vs)
    requires current.Some? ==> IsOpenAfter(current.value, records, vs)
    requires v.id == VehicleId(|vs| + 1) && v.status == Waiting
    ensures VehiclesNumbered(vs + [v]) && RecordsNumbered(records, vs + [v])
    ensures current.Some? ==> IsOpenAfter(current.value, records, vs + [v])
  {
    var after := vs + [v];
    assert after[..|vs|] == vs;
    forall i | 0 <= i < |after|
      ensures after[i].status == Waiting
    {
      if i < |vs| {
        assert after[i] == vs[i];
      }
    }
    forall i | 0 <= i < |records|
      ensures SessionOk(records[i], after)
    {
      assert records[i].vehicle in vs;
    }
  }

  /** Two positions of numbered vehicles hold different ids. */
  lemma VehicleIdsDifferAt(vs: seq<Vehicle>, i: nat, j: nat)
    requires VehicleIdsNumbered(vs) && i < j < |vs|
    ensures vs[i].id != vs[j].id
  {
    VehicleIdAt(vs, i);
    VehicleIdAt(vs, j);
    SequentialIdsDiffer('V', i + 1, j + 1);
  }

  /** Numbered vehicles have pairwise distinct ids. */
  lemma VehicleIdsDistinct(vs: seq<Vehicle>)
    requires VehicleIdsNumbered(vs)
    ensures forall i, j :: 0 <= i < j < |vs| ==> vs[i].id != vs[j].id
  {
    forall i, j | 0 <= i < j < |vs|
      ensures vs[i].id != vs[j].id
    {
      VehicleIdsDifferAt(vs, i, j);
    }
  }

  /** The records have pairwise distinct session ids, and an open session's
      id is none of theirs. */
  lemma SessionIdsDistinct(records: seq<Session>, vs: seq<Vehicle>, current: Option<Session>)
    requires RecordsNumbered(records, vs)
    requires current.Some? ==> IsOpenAfter(current.value, records, vs)
    ensures forall i, j :: 0 <= i < j < |records| ==> records[i].id != records[j].id
    ensures current.Some? ==> forall i :: 0 <= i < |records| ==> records[i].id != current.value.id
  {
    forall i, j | 0 <= i < j < |records|
      ensures records[i].id != records[j].id
    {
      SessionIdAt(records, i);
      SessionIdAt(records, j);
      SequentialIdsDiffer('S', i + 1, j + 1);
    }
    if current.Some? {
      forall i | 0 <= i < |records|
        ensures records[i].id != current.value.id
      {
        SessionIdAt(records, i);
        SequentialIdsDiffer('S', i + 1, |records| + 1);
      }
    }
  }

  /** The session slot after starting on `vid` (the slot was empty): a new
      session, numbered after the records, for the first vehicle with that
      id; still empty if no vehicle has it. */
  function SlotAfterStart(vs: seq<Vehicle>, records: seq<Session>, vid: string, now: int): (slot: Option<Session>)
    ensures slot.None? <==> forall j :: 0 <= j < |vs| ==> vs[j].id != vid
    ensures slot.Some? ==> slot.value.vehicle in vs && slot.value.vehicle.id == vid
                           && slot.value.id == SessionId(|records| + 1) && slot.value.start == now
                           && !IsClosed(slot.value) && slot.value.fuel.None?
  {
    match FirstIndex(vs, vid)
    case None => None
    case Some(i) => Some(OpenSession(SessionId(|records| + 1), vs[i], now))
  }

  /** The open session as the records tab shows it. The tab is refreshed
      only when a reading is taken and when a service completes, so an open
      session appears there only once it has a reading. */
  function Shown(current: Option<Session>): Option<Session> {
    if current.Some? && current.value.fuel.Some? then current else None
  }

  /** On the records tab "Not Checked" never appears, and there is a row
      beyond the records exactly when the open session has a reading. */
  lemma {:induction false} NotCheckedNeverShown(records: seq<Session>, current: Option<Session>)
    requires AllClosed(records)
    ensures forall i :: 0 <= i < |DisplayRows(records, Shown(current))| ==>
              DisplayRows(records, Shown(current))[i].fuel != Label("Not Checked")
    ensures |DisplayRows(records, Shown(current))| > |records| <==> current.Some? && current.value.fuel.Some?
  {
    var rows := DisplayRows(records, Shown(current));
    forall i | 0 <= i < |rows|
      ensures rows[i].fuel != Label("Not Checked")
    {
      if i < |records| {
        assert rows[i] == rows[..|records|][i];
      }
    }
  }

  class Garage {
    var vehicles: seq<Vehicle>
    var serviceRecords: seq<Session>
    var currentService: Option<Session>
    /** Whether the Start Service button is enabled; only then can a
        session be started. */
    var startEnabled: bool
    /** The rows on the records tab, as last refreshed. */
    var shownRows: seq<Row>

    /** The bookkeeping invariant: vehicle ids are V001, V002, ... in order
        and every vehicle is Waiting; the records are closed sessions S001,
        S002, ... in order; an open session is the next one and is still
        unmeasured; while Start is enabled no session is open; and the
        records tab shows the records and, once it has a reading, the open
        session. */
    ghost predicate Valid()
      reads this
    {
      VehiclesNumbered(vehicles)
      && RecordsNumbered(serviceRecords, vehicles)
      && (currentService.Some? ==> IsOpenAfter(currentService.value, serviceRecords, vehicles))
      && (startEnabled ==> currentService.None?)
      && AllClosed(serviceRecords)
      && shownRows == DisplayRows(serviceRecords, Shown(currentService))
    }

    /** An empty garage; the Start button starts enabled. */
    constructor ()
      ensures Valid()
      ensures vehicles == [] && serviceRecords == [] && currentService == None && startEnabled
      ensures shownRows == []
    {
      vehicles := [];
      serviceRecords := [];
      currentService := None;
      startEnabled := true;
      shownRows := [];
    }

    /** `add_vehicle`: the type string and the stripped name, license and
        owner must all be non-empty; then the vehicle gets the next id and
        status Waiting and is appended. Otherwise nothing changes. */
    method AddVehicle(vtype: string, name: string, regNo: string, owner: string, now: int)
      returns (added: bool)
      requires Valid()
      modifies this
      ensures Valid()
      ensures added <==> vtype != [] && Strip(name) != [] && Strip(regNo) != [] && Strip(owner) != []
      ensures vehicles == if added
        then old(vehicles) + [Vehicle(VehicleId(|old(vehicles)| + 1), ParseKind(vtype),
                                      Strip(name), Strip(regNo), Strip(owner), Waiting, now)]
        else old(vehicles)
      ensures serviceRecords == old(serviceRecords) && currentService == old(currentService)
      ensures startEnabled == old(startEnabled) && shownRows == old(shownRows)
    {
      var n, r, o := Strip(name), Strip(regNo), Strip(owner);
      if vtype == [] || n == [] || r == [] || o == [] {
        return false;
      }
      var kind := ParseKind(vtype);
      var v := Vehicle(VehicleId(|vehicles| + 1), kind, n, r, o, Waiting, now);
      RegisterKeepsNumbering(vehicles, serviceRecords, currentService, v);
      vehicles := vehicles + [v];
      added := true;
    }

    /** `start_service`, run by the Start button, so only while it is
        enabled and hence no session is open. With no selected row nothing
        happens. Otherwise the first vehicle with the selected id, if there
        is one, becomes the subject of a new open session numbered after the
        records, and the Start button is disabled whether or not the id was
        found. The records tab is not refreshed. */
    method StartService(selected: Option<string>, now: int)
      requires Valid()
      requires startEnabled
      modifies this
      ensures Valid()
      ensures old(currentService).None?
      ensures vehicles == old(vehicles) && serviceRecords == old(serviceRecords)
      ensures shownRows == old(shownRows)
      ensures selected.None? ==> currentService == old(currentService) && startEnabled == old(startEnabled)
      ensures selected.Some? ==> !startEnabled
      ensures selected.Some? ==>
                currentService == SlotAfterStart(vehicles, serviceRecords, selected.value, now)
    {
      if selected.None? {
        return;
      }
      var found := FindVehicle(selected.value);
      if found.Some? {
        var open := OpenSession(SessionId(|serviceRecords| + 1), vehicles[found.value], now);
        assert IsOpenAfter(open, serviceRecords, vehicles);
        currentService := Some(open);
        assert Shown(currentService) == None == Shown(old(currentService));
      }
      startEnabled := false;
    }

    /** The search loop of `start_service`: the position of the first
        vehicle whose id is `vid`, if any. */
    method FindVehicle(vid: string) returns (found: Option<nat>)
      ensures found == FirstIndex(vehicles, vid)
    {
      var i := 0;
      while i < |vehicles|
        invariant 0 <= i <= |vehicles|
        invariant forall j :: 0 <= j < i ==> vehicles[j].id != vid
      {
        if vehicles[i].id == vid {
          return Some(i);
        }
        i := i + 1;
      }
      return None;
    }

    /** `check_fuel_efficiency`: with no open session nothing changes.
        Otherwise a reading from the vehicle's kind range replaces the open
        session's reading and the records tab is refreshed. */
    method CheckFuelEfficiency() returns (reading: Option<int>)
      requires Valid()
      modifies this
      ensures Valid()
      ensures old(currentService).None? ==> reading.None? && currentService == old(currentService)
      ensures old(currentService).Some? ==>
        reading.Some? && InFuelRange(old(currentService).value.vehicle.kind, reading.value)
        && currentService == Some(old(currentService).value.(fuel := reading))
        && shownRows == DisplayRows(serviceRecords, currentService)
      ensures old(currentService).None? ==> shownRows == old(shownRows)
      ensures vehicles == old(vehicles) && serviceRecords == old(serviceRecords)
      ensures startEnabled == old(startEnabled)
    {
      if currentService.None? {
        return None;
      }
      var s := currentService.value;
      var e := FuelEfficiency(s.vehicle.kind);
      reading := Some(e);
      MeasureKeepsOpen(s, serviceRecords, vehicles, e);
      currentService := Some(s.(fuel := reading));
      RefreshRecords();
    }

    /** `stop_service`: with no open session nothing changes. Otherwise the
        session is closed at `now`, appended to the records, the slot is
        cleared, Start is enabled again and the records tab is refreshed. */
    method StopService(now: int)
      requires Valid()
      requires currentService.Some? ==> now >= currentService.value.start
      modifies this
      ensures Valid()
      ensures old(currentService).None? ==>
        serviceRecords == old(serviceRecords) && currentService == old(currentService)
        && startEnabled == old(startEnabled)
      ensures old(currentService).Some? ==>
        serviceRecords == old(serviceRecords) + [Close(old(currentService).value, now)]
        && currentService.None? && startEnabled
        && shownRows == RecordRows(serviceRecords)
      ensures old(currentService).None? ==> shownRows == old(shownRows)
      ensures vehicles == old(vehicles)
    {
      if currentService.None? {
        return;
      }
      var s := currentService.value;
      CloseKeepsNumbering(serviceRecords, vehicles, s, now);
      serviceRecords := serviceRecords + [Close(s, now)];
      currentService := None;
      startEnabled := true;
      RefreshRecords();
    }

    /** `update_records_display`: the records tab is cleared and refilled
        with one row per record and, when a session is open, one row for
        it. Nothing else changes. */
    method RefreshRecords()
      requires AllClosed(serviceRecords)
      modifies this
      ensures vehicles == old(vehicles) && serviceRecords == old(serviceRecords)
      ensures currentService == old(currentService) && startEnabled == old(startEnabled)
      ensures shownRows == DisplayRows(serviceRecords, currentService)
    {
      var records := serviceRecords;
      var rows := [];
      for i := 0 to |records|
        invariant AllClosed(records[..i])
        invariant rows == RecordRows(records[..i])
      {
        assert records[..i + 1][..i] == records[..i];
        rows := rows + [RecordRow(records[i])];
      }
      assert records[..|records|] == records;
      if currentService.Some? {
        rows := rows + [CurrentRow(currentService.value)];
      }
      shownRows := rows;
    }

    /** `export_records`: fails when there are no records; otherwise builds
        the seven columns with one entry per record, in record order, so
        that the table's rows are the records tab's rows without the open
        session's. */
    method ExportRecords() returns (r: Result<Columns, ExportError>)
      requires AllClosed(serviceRecords)
      ensures r.Failure? <==> serviceRecords == []
      ensures r.Success? ==> r.value.Rectangular(|serviceRecords|)
      ensures r.Success? ==> forall i :: 0 <= i < |serviceRecords| ==>
        r.value.RowAt(i) == RecordRow(serviceRecords[i])
        && r.value.RowAt(i) == DisplayRows(serviceRecords, currentService)[i]
    {
      if serviceRecords == [] {
        return Failure(NoRecords);
      }
      var ids, labels, licenses := [], [], [];
      var starts, ends, durations, fuels := [], [], [], [];
      for i := 0 to |serviceRecords|
        invariant |ids| == |labels| == |licenses| == i
        invariant |starts| == |ends| == |durations| == |fuels| == i
        invariant forall k :: 0 <= k < i ==>
          Columns(ids, labels, licenses, starts, ends, durations, fuels).RowAt(k)
            == RecordRow(serviceRecords[k])
      {
        var rec := serviceRecords[i];
        var v := rec.vehicle;
        ids := ids + [rec.id];
        labels := labels + [VehicleLabel(v)];
        licenses := licenses + [v.regNo];
        starts := starts + [Clock(rec.start)];
        ends := ends + [Clock(rec.end.value)];
        durations := durations + [Elapsed(rec.duration.value)];
        fuels := fuels + [FuelCell(rec.fuel, "N/A")];
      }
      r := Success(Columns(ids, labels, licenses, starts, ends, durations, fuels));
      forall i | 0 <= i < |serviceRecords|
        ensures DisplayRows(serviceRecords, currentService)[i] == RecordRow(serviceRecords[i])
      {
        var rows := DisplayRows(serviceRecords, currentService);
        assert rows[i] == rows[..|serviceRecords|][i];
      }
    }
  }

  /** The first vehicle is V001 and the first session S001. */
  lemma FirstIds()
    ensures VehicleId(1) == "V001" && SessionId(1) == "S001"
  {
    assert Digits(1) == "1";
  }

  /** A whole visit through a fresh garage: register a car, start its
      service, check its fuel efficiency and complete the service. The one
      record is S001 for vehicle V001, runs from `start` to `end` with
      duration end - start, carries the reading taken, and the vehicle is
      still Waiting. */
  method CarVisit(name: string, regNo: string, owner: string, added: int, start: int, end: int)
    returns (rec: Session, reading: Option<int>)
    requires Strip(name) != [] && Strip(regNo) != [] && Strip(owner) != []
    requires start <= end
    ensures rec.id == "S001" && rec.vehicle.id == "V001"
    ensures rec.vehicle.kind == Car && rec.vehicle.name == Strip(name) && rec.vehicle.status == Waiting
    ensures rec.start == start && rec.end == Some(end) && IsClosed(rec)
    ensures rec.fuel == reading && reading.Some? && 1200 <= reading.value <= 1800
  {
    var g := new Garage();
    var ok := g.AddVehicle("Car", name, regNo, owner, added);
    assert ok;
    FirstIds();
    var v := g.vehicles[0];
    assert FirstIndex(g.vehicles, "V001") == Some(0);
    g.StartService(Some("V001"), start);
    var open := OpenSession(SessionId(1), v, start);
    assert g.currentService == Some(open);
    reading := g.CheckFuelEfficiency();
    assert g.currentService == Some(open.(fuel := reading));
    g.StopService(end);
    assert g.serviceRecords == [Close(open.(fuel := reading), end)];
    rec := g.serviceRecords[0];
    assert IsClosed(rec) && rec.start == start && rec.end == Some(end);
  }
}
