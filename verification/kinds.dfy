/** The three vehicle kinds. Each has a start and a stop message and a fuel
    efficiency range, and the registration form's type string is dispatched
    onto them. */
module Kinds {

  datatype Kind = Car | Bike | Truck

  /** The kind's class name, as shown in messages and record rows. */
  function KindName(k: Kind): string {
    match k
    case Car => "Car"
    case Bike => "Bike"
    case Truck => "Truck"
  }

  /** Registration dispatch: "Car" and "Bike" select their kinds and every
      other type string selects Truck. */
  function ParseKind(vtype: string): (k: Kind)
    ensures k == Car <==> vtype == "Car"
    ensures k == Bike <==> vtype == "Bike"
    ensures k == Truck <==> vtype != "Car" && vtype != "Bike"
  {
    if vtype == "Car" then Car else if vtype == "Bike" then Bike else Truck
  }

  /** Dispatching a kind's own name gives that kind back. */
  lemma ParseKindName(k: Kind)
    ensures ParseKind(KindName(k)) == k
  {
    match k
    case Car =>
    case Bike => assert KindName(k)[0] != "Car"[0];
    case Truck => assert KindName(k)[0] != "Car"[0] && KindName(k)[0] != "Bike"[0];
  }

  /** The message of `start()`: "{name} ({Kind}) started." It begins with
      the vehicle's name and ends with "started.". */
  function StartMessage(k: Kind, name: string): (m: string)
    ensures |m| == |name| + |KindName(k)| + 12
    ensures m[..|name|] == name && m[|m| - 8..] == "started."
  {
    name + " (" + KindName(k) + ") started."
  }

  /** The message of `stop()`: "{name} ({Kind}) stopped." It begins with
      the vehicle's name and ends with "stopped.". */
  function StopMessage(k: Kind, name: string): (m: string)
    ensures |m| == |name| + |KindName(k)| + 12
    ensures m[..|name|] == name && m[|m| - 8..] == "stopped."
  {
    name + " (" + KindName(k) + ") stopped."
  }

  /** For one vehicle name, the messages of different kinds differ, and the
      start message never equals the stop message. */
  lemma {:induction false} MessagesDistinguish(k1: Kind, k2: Kind, name: string)
    ensures StartMessage(k1, name) == StartMessage(k2, name) <==> k1 == k2
    ensures StopMessage(k1, name) == StopMessage(k2, name) <==> k1 == k2
    ensures StartMessage(k1, name) != StopMessage(k2, name)
  {
    if k1 == k2 {
      var start, stop := StartMessage(k1, name), StopMessage(k2, name);
      assert start[|start| - 8..][2] == 'a' && stop[|stop| - 8..][2] == 'o';
    }
  }

  /** The closed range of a kind's fuel efficiency reading, in hundredths of
      km/l (two decimals): Car 12..18, Bike 35..60, Truck 4..8. Every range
      is non-empty, which FuelEfficiency needs to have a reading to pick. */
  function FuelRange(k: Kind): (r: (int, int))
    ensures r.0 < r.1
  {
    match k
    case Car => (1200, 1800)
    case Bike => (3500, 6000)
    case Truck => (400, 800)
  }

  predicate InFuelRange(k: Kind, hundredths: int) {
    FuelRange(k).0 <= hundredths <= FuelRange(k).1
  }

  /** `fuelEfficiency()`: a reading drawn from the kind's range. Which value
      is drawn is left open. */
  method FuelEfficiency(k: Kind) returns (hundredths: int)
    ensures InFuelRange(k, hundredths)
  {
    assert InFuelRange(k, FuelRange(k).0);
    hundredths :| InFuelRange(k, hundredths);
  }
}
