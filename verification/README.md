# Fast and Furious Garage — verified model of the bookkeeping core

The Fast and Furious Garage is a desktop application that tracks vehicles
through a service garage. It registers vehicles, starts and completes one
service session at a time, takes a fuel-efficiency reading during the
session, shows the service records and exports them as a table. This
project models the bookkeeping behind those buttons, in Dafny, and proves
what it promises.

Modules:

- `Results` (`results.dfy`): `Option` and `Result`.
- `Kinds` (`kinds.dfy`): the `Car`/`Bike`/`Truck` subclasses as a closed
  enumeration. It holds their start and stop messages, their fuel-efficiency
  ranges in hundredths of km/l, and the registration form's type dispatch.
- `Text` (`text.dfy`): Python's `str.strip()`, with the whitespace set of
  `str.isspace()` given by code point. It also holds the zero-padded
  sequential ids `V001`/`S001` (format `{n:03d}`) and their parser.
- `Records` (`records.dfy`): vehicles and sessions as values, the id lookup
  used by `start_service`, and the rows of the records tab and of the
  export.
- `GarageApp` (`garage.dfy`): the class `Garage`. It has the fields
  `vehicles`, `serviceRecords`, `currentService`, `startEnabled` (the
  state of the Start Service button) and `shownRows` (the rows on the
  records tab as last refreshed). Its methods are `AddVehicle`,
  `StartService` (with its search loop `FindVehicle`),
  `CheckFuelEfficiency`, `StopService`, `RefreshRecords` and
  `ExportRecords`. The class invariant `Valid()` says:
  - vehicle ids are V001, V002, … in order, and every vehicle is Waiting;
  - the records are closed sessions S001, S002, … in order, each for a
    registered vehicle, with duration = end − start;
  - an open session is the next one;
  - no session is open while Start is enabled;
  - the records tab shows the records' rows, plus the open session's row
    once it has a reading.

  `CarVisit` is a client of the class. It shows that register → start →
  check → stop ends with exactly that record.

Clock readings are whole seconds, passed as parameters. A fuel reading is
an integer number of hundredths, chosen nondeterministically within the
kind's range. Vehicles are never changed after registration, so sessions
hold them by value.

Where the code and the intended design differ, the model follows the code
(UI.py):

- Any non-empty type string other than "Car" or "Bike" registers a Truck.
  It is not rejected.
- `start_service` has no guard of its own. A second start is prevented only
  because it runs from the Start button, which is disabled while a session
  is open (UI.py:191, UI.py:204) and then runs no command. The model
  therefore lets `StartService` run only while `startEnabled` holds.
- With a selected id that matches no vehicle, nothing opens, but Start is
  still disabled (UI.py:191).
- A vehicle's status stays "Waiting" for its whole life. "In Service"
  appears only in the queue view.
- Invalid registration input (UI.py:147), starting with no selected row
  (UI.py:173) and a fuel check with no open session (UI.py:211) each show a
  dialog and change nothing. The dialogs are not modelled. `AddVehicle`
  reports the first case as `added == false` and `CheckFuelEfficiency` the
  last as `reading == None`. `stop_service` with no open session returns
  without any message (UI.py:196-197). Export of an empty record list
  fails with `NoRecords` (UI.py:247-249).
- The records tab is refreshed only by `stop_service` (UI.py:206) and
  `check_fuel_efficiency` (UI.py:216), not by `start_service`. So an open
  session appears on the tab only after its first fuel check. By then it
  has a reading, so the "Not Checked" text of UI.py:242 never reaches the
  screen. `NotCheckedNeverShown` states this about the rows the garage
  shows.

## Model

| member | source | states |
|---|---|---|
| Kinds.ParseKind | UI.py:151-156 | "Car" gives Car and "Bike" gives Bike. Every other type string gives Truck. Each case is an if-and-only-if. |
| Kinds.ParseKindName | UI.py:94 | Dispatching a kind's own name (the combobox values) gives back that kind. |
| Kinds.StartMessage | UI.py:28-49 | `start()`'s message begins with the vehicle's name, ends with "started.", and is 12 characters longer than name and kind together. |
| Kinds.StopMessage | UI.py:31-52 | `stop()`'s message begins with the vehicle's name, ends with "stopped.", and is 12 characters longer than name and kind together. |
| Kinds.MessagesDistinguish | UI.py:28-52 | For one vehicle name, start (or stop) messages of two kinds are equal exactly when the kinds are. A start message never equals a stop message. |
| Kinds.FuelRange | UI.py:34-55 | Each kind's reading range in hundredths (Car 12–18, Bike 35–60, Truck 4–8 km/l) is non-empty, so a reading can always be drawn. |
| Kinds.FuelEfficiency | UI.py:34-55 | A reading lies in the kind's closed range, in hundredths: Car 12–18, Bike 35–60, Truck 4–8 km/l. |
| Text.Strip | UI.py:143-146 | The stripped string starts and ends with non-whitespace. It is empty exactly when the input is all whitespace. |
| Text.StripIsSlice | UI.py:143-145 | The stripped string is a contiguous slice of the input, with only whitespace removed before and after it. |
| Text.TrimStartFacts | UI.py:143-145 | Leading trimming removes a whitespace prefix and keeps the rest unchanged. |
| Text.TrimEndFacts | UI.py:143-145 | Trailing trimming removes a whitespace suffix and keeps the rest unchanged. |
| Text.Pad3Reads | UI.py:158 | `{n:03d}` has at least three digits (exactly three below 1000) and reads back as n. |
| Text.SequentialId | UI.py:158 | `V{n:03d}` (and `S{n:03d}` at UI.py:181) has at least four characters and starts with its prefix letter. |
| Text.SequentialIdDecodes | UI.py:158 | Parsing `V{n:03d}` gives back the prefix and n (round trip). Below 1000 the id has four characters. |
| Text.SequentialIdsDiffer | UI.py:158 | Ids with the same prefix and different numbers differ. |
| Records.OpenSession | UI.py:180-187 | A new session belongs to the given vehicle, starts at the given time, is not closed and has no reading. |
| Records.Close | UI.py:198-200 | Closing at `now` sets the end to `now`. The result is closed (duration = end − start) whenever `now` is not before the start. Id, vehicle, start and reading are kept. |
| Records.FirstIndex | UI.py:178-179 | Finds the first vehicle whose id equals the selected one, or reports that there is none. |
| Records.RecordRow | UI.py:224-232 | A record's row carries its id and license. Its fuel cell is a reading exactly when one was taken, else "N/A". It never shows "In Progress" or "Not Checked". |
| Records.CurrentRow | UI.py:235-243 | The open session's row carries its id and license, "In Progress" and "N/A". It shows "Not Checked" exactly when no reading was taken. |
| Records.RecordRows | UI.py:222-232 | One row per closed record, in record order: id, "{Kind} - {name}", license, start, end, duration, and the reading or "N/A". |
| Records.DisplayRows | UI.py:219-243 | The rows `update_records_display` builds from a state: the record rows, then exactly one row for the open session when there is one. |
| Records.InProgressRowIsCurrent | UI.py:233-243 | Among those rows, a row shows "In Progress" exactly when it is the open session's row, the last one. |
| GarageApp.VehicleIdAt | UI.py:158-162 | The vehicle at position i has id V{i+1:03d}. |
| GarageApp.SessionIdAt | UI.py:181-201 | The record at position i has id S{i+1:03d}. |
| GarageApp.VehicleIdsDifferAt | UI.py:158-162 | Two different positions of numbered vehicles hold different ids. |
| GarageApp.VehicleIdsDistinct | UI.py:158-162 | Registered vehicle ids are pairwise distinct. |
| GarageApp.SessionIdsDistinct | UI.py:181-201 | Record ids are pairwise distinct, and the open session's id is none of theirs. |
| GarageApp.MeasureKeepsOpen | UI.py:213-215 | A reading in the vehicle's range keeps the open session consistent, and it is then shown on the records tab. |
| GarageApp.RegisterKeepsNumbering | UI.py:158-162 | Appending vehicle V{n+1:03d} (Waiting) keeps the numbering, and every session still refers to a registered vehicle. |
| GarageApp.CloseKeepsNumbering | UI.py:198-201 | Closing the open session and appending it keeps the records closed and numbered. |
| GarageApp.SlotAfterStart | UI.py:178-188 | After a start on an empty slot, the slot is empty exactly when no vehicle has the selected id. Otherwise it holds a registered vehicle with that id, in an unclosed session S{len(records)+1:03d} started now, with no reading. |
| GarageApp.NotCheckedNeverShown | UI.py:206-243 | On the records tab as the garage refreshes it, no row shows "Not Checked". There is a row beyond the records exactly when the open session has a reading. |
| GarageApp.Garage.constructor | UI.py:65-67 | The garage starts with no vehicles, no records, no open session, an empty records tab, and Start enabled. |
| GarageApp.Garage.AddVehicle | UI.py:141-162 | Adds a vehicle exactly when the type is non-empty and the stripped name, license and owner are non-empty. The vehicle is appended last with id V{len+1:03d}, the dispatched kind, the stripped fields and status Waiting. Otherwise nothing changes. Records, session, records tab and Start state never change. |
| GarageApp.Garage.FindVehicle | UI.py:178-188 | The search loop finds the first position of a vehicle with the selected id, or none. |
| GarageApp.Garage.StartService | UI.py:170-193 | Runs only while Start is enabled, so no session is open. With no selection nothing changes. With one, a known id fills the slot with a fresh session S{len(records)+1:03d} for that vehicle: no end, no duration, no reading. An unknown id leaves the slot empty. Start is disabled either way. Vehicles, records and the records tab never change. |
| GarageApp.Garage.CheckFuelEfficiency | UI.py:209-216 | With no open session nothing changes. Otherwise only the open session's reading changes, to a value in its vehicle's kind range, and the records tab is refreshed from the new state. |
| GarageApp.Garage.StopService | UI.py:195-206 | With no open session nothing changes. Otherwise the records grow by exactly the closed session (end = now, duration = end − start, earlier records untouched), the slot is cleared, Start is enabled, and the records tab shows exactly the record rows. |
| GarageApp.Garage.RefreshRecords | UI.py:219-243 | The records tab is rebuilt as the rows of the current state, one per record in order, then the open session's row. Nothing else changes. |
| GarageApp.Garage.ExportRecords | UI.py:246-259 | Fails exactly when there are no records. Otherwise builds seven equal-length columns whose i-th row is the i-th record's row. These equal the records tab's rows, without the open session's row. |
| GarageApp.FirstIds | UI.py:158 | The first vehicle id is "V001" and the first session id is "S001". |
| GarageApp.CarVisit | UI.py:141-215 | Register a car, start, check, stop in a fresh garage. The one record is S001 for V001 and runs from start to end with duration end − start. It carries the reading taken, in 12–18 km/l, and the vehicle is still Waiting. |

## Left out

- Widgets are presentation only and are not modelled: the tkinter window, forms, `messagebox` dialogs and the status bar. The vehicle queue's Treeview is not modelled either, including its rows and the "In Service" text written into it (UI.py:190), nor is clearing the form entries. The records tab is modelled only as its list of rows; the highlight of the current row (UI.py:243-244) is not modelled.
- The Complete Service button's enabled state is not modelled, because `stop_service` checks the open session itself.
- The selected Treeview row becomes a parameter: the selected row's id, or none. Treeview's conversion of cell values is not modelled.
- The clock is not modelled. `datetime.now()` becomes integer-second parameters, including the `added_on` minute stamp. The `strftime` and `str(timedelta)` renderings are not modelled, so timestamps and durations stay numbers in the rows.
- `random.uniform` and `round(…, 2)` are not modelled. The model keeps only the range bound over integer hundredths. The uniform distribution is not modelled.
- The `f"{efficiency} km/l"` text is not modelled. A reading is stored and shown as its number of hundredths.
- The export ends at the seven columns. The pandas DataFrame, the save dialog (including cancelling it) and `to_csv`/`to_excel` are not modelled.
- `start()`/`stop()` messages are modelled as functions, though the GUI never calls them.
- `str.strip()` is modelled with Python's `isspace()` set, listed by code point.
- GarageApp.Garage.StopService: requires the stop time not to precede the start time. A wall clock that steps backwards (a negative `timedelta`) is not modelled.
