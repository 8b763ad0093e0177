/**
 * Discovery of DS18B20 probes on the 1-Wire bus and indexed temperature reads
 * (main/ds18b20_sensor.c). Discovered probes live in a fixed array of
 * capacity MaxDs18b20Sensors, densely packed from index 0 in bus order.
 */
module Ds18b20Sensor {
  import opened EspErr

  /** MAX_DS18B20_SENSORS: capacity of the probe array. */
  const MaxDs18b20Sensors: nat := 2

  /**
   * A device returned by the 1-Wire search. Whether the DS18B20 driver
   * accepts it (ds18b20_new_device succeeding) is an abstract flag.
   */
  datatype OneWireDevice = OneWireDevice(address: nat, isDs18b20: bool)

  /** A bus transaction issued to one probe during a read. */
  datatype BusOp = TriggerConversion(device: OneWireDevice) | GetTemperature(device: OneWireDevice)

  /** The devices of `bus` that the driver accepts, in search order. */
  function Accepted(bus: seq<OneWireDevice>): (r: seq<OneWireDevice>)
    ensures |r| <= |bus|
    ensures forall d :: d in r ==> d in bus && d.isDs18b20
  {
    if bus == [] then []
    else
      var last := bus[|bus| - 1];
      Accepted(bus[..|bus| - 1]) + (if last.isDs18b20 then [last] else [])
  }

  /** What discovery keeps of `bus`: the first MaxDs18b20Sensors accepted devices. */
  function Discovered(bus: seq<OneWireDevice>): (r: seq<OneWireDevice>)
    ensures |r| <= MaxDs18b20Sensors
    ensures |r| == if |Accepted(bus)| < MaxDs18b20Sensors then |Accepted(bus)| else MaxDs18b20Sensors
    ensures r <= Accepted(bus)
  {
    var a := Accepted(bus);
    if |a| <= MaxDs18b20Sensors then a else a[..MaxDs18b20Sensors]
  }

  /** Accepting the devices of a prefix of the bus gives a prefix of the accepted devices. */
  lemma {:induction false} AcceptedOfPrefix(bus: seq<OneWireDevice>, i: nat)
    requires i <= |bus|
    ensures Accepted(bus[..i]) <= Accepted(bus)
    decreases |bus| - i
  {
    if i < |bus| {
      AcceptedOfPrefix(bus, i + 1);
      var p := bus[..i + 1];
      assert p[..|p| - 1] == bus[..i];
      assert Accepted(bus[..i]) <= Accepted(p);
    } else {
      assert bus[..i] == bus;
    }
  }

  /** One more searched device extends the accepted list by that device exactly when it is a DS18B20. */
  lemma AcceptedStep(bus: seq<OneWireDevice>, i: nat)
    requires i < |bus|
    ensures Accepted(bus[..i + 1]) == Accepted(bus[..i]) + (if bus[i].isDs18b20 then [bus[i]] else [])
  {
    var p := bus[..i + 1];
    assert p[..|p| - 1] == bus[..i];
  }

  /** Nothing is accepted exactly when no device on the bus is a DS18B20. */
  lemma {:induction false} AcceptedEmptyIff(bus: seq<OneWireDevice>)
    ensures Accepted(bus) == [] <==> forall j :: 0 <= j < |bus| ==> !bus[j].isDs18b20
  {
    if bus != [] {
      var init := bus[..|bus| - 1];
      AcceptedEmptyIff(init);
      assert forall j :: 0 <= j < |init| ==> init[j] == bus[j];
    }
  }

  /** Discovery finds nothing exactly when the bus holds no DS18B20. */
  lemma DiscoveredEmptyIff(bus: seq<OneWireDevice>)
    ensures Discovered(bus) == [] <==> forall j :: 0 <= j < |bus| ==> !bus[j].isDs18b20
  {
    AcceptedEmptyIff(bus);
  }

  predicate DistinctAddresses(s: seq<OneWireDevice>) {
    forall i, j :: 0 <= i < j < |s| ==> s[i].address != s[j].address
  }

  /** Devices with distinct bus addresses stay distinct once accepted. */
  lemma {:induction false} AcceptedDistinct(bus: seq<OneWireDevice>)
    requires DistinctAddresses(bus)
    ensures DistinctAddresses(Accepted(bus))
  {
    if bus != [] {
      var init := bus[..|bus| - 1];
      var last := bus[|bus| - 1];
      AcceptedDistinct(init);
      forall d | d in Accepted(init)
        ensures d.address != last.address
      {
        var k :| 0 <= k < |init| && init[k] == d;
        assert bus[k] == d;
      }
    }
  }

  /** Discovery never binds two probes with the same address. */
  lemma DiscoveredDistinct(bus: seq<OneWireDevice>)
    requires DistinctAddresses(bus)
    ensures DistinctAddresses(Discovered(bus))
  {
    AcceptedDistinct(bus);
  }

  /** Once the array is full, whatever the bus holds after that point changes nothing. */
  lemma DiscoveryIgnoresRest(bus: seq<OneWireDevice>, rest: seq<OneWireDevice>)
    requires |Accepted(bus)| >= MaxDs18b20Sensors
    ensures Discovered(bus + rest) == Discovered(bus)
  {
    AcceptedOfPrefix(bus + rest, |bus|);
    assert (bus + rest)[..|bus|] == bus;
  }

  /** A search that stops at the end of the bus or when the array is full has discovered everything it ever will. */
  lemma DiscoveredAtStop(bus: seq<OneWireDevice>, i: nat)
    requires i <= |bus|
    requires |Accepted(bus[..i])| <= MaxDs18b20Sensors
    requires i == |bus| || |Accepted(bus[..i])| == MaxDs18b20Sensors
    ensures Discovered(bus) == Accepted(bus[..i])
  {
    AcceptedOfPrefix(bus, i);
    if i == |bus| {
      assert bus[..i] == bus;
    }
  }

  /**
   * Where a search that found `found` stopped: it consumed `visited` devices
   * and found exactly the accepted ones among them; it ran to the end of the
   * bus unless the array filled, and when the array filled it stopped right
   * at the DS18B20 that filled it.
   */
  ghost predicate SearchStopped(bus: seq<OneWireDevice>, visited: nat, found: seq<OneWireDevice>) {
    visited <= |bus| &&
    found == Accepted(bus[..visited]) &&
    (visited < |bus| ==> |found| == MaxDs18b20Sensors) &&
    (|found| == MaxDs18b20Sensors ==> 0 < visited && bus[visited - 1].isDs18b20)
  }

  /** With two probes followed by another device, a search can only have stopped right after the second probe. */
  lemma SearchStopsAtSecondProbe(p: OneWireDevice, q: OneWireDevice, x: OneWireDevice, visited: nat, found: seq<OneWireDevice>)
    requires p.isDs18b20 && q.isDs18b20 && !x.isDs18b20
    requires SearchStopped([p, q, x], visited, found)
    ensures visited == 2 && found == [p, q]
  {
    var bus := [p, q, x];
    assert bus[..0] == [];
    assert bus[..1][..0] == [];
    assert bus[..2][..1] == bus[..1];
    assert bus[..3][..2] == bus[..2];
    assert Accepted(bus[..1]) == [p];
    assert Accepted(bus[..2]) == [p, q];
    assert bus[..3] == bus;
    assert Accepted(bus[..3]) == [p, q];
  }

  /**
   * The driver's module state: the probe array ds18b20s and its count
   * ds18b20_device_num.
   */
  class SensorBank {
    const devices: array<OneWireDevice>
    var deviceNum: int

    ghost predicate Valid()
      reads this, devices
    {
      devices.Length == MaxDs18b20Sensors &&
      0 <= deviceNum <= MaxDs18b20Sensors &&
      forall d :: d in devices[..deviceNum] ==> d.isDs18b20
    }

    /** The probes bound so far, at indices 0 .. deviceNum - 1. */
    ghost function Found(): (s: seq<OneWireDevice>)
      reads this, devices
      requires Valid()
      ensures |s| == deviceNum
    {
      devices[..deviceNum]
    }

    /** Program start: empty array, count 0. */
    constructor ()
      ensures Valid() && fresh(devices) && Found() == []
    {
      devices := new OneWireDevice[MaxDs18b20Sensors];
      deviceNum := 0;
    }

    /**
     * ds18b20_init. `busErr` and `iterErr` are what creating the bus and the
     * search iterator return; `bus` is the sequence of devices the search
     * yields. `visited` is how many of them the search consumed.
     */
    method Init(busErr: int, iterErr: int, bus: seq<OneWireDevice>) returns (ret: int, ghost visited: nat)
      requires Valid()
      modifies this, devices
      ensures Valid()
      ensures busErr != EspOk ==> ret == busErr && visited == 0
      ensures busErr == EspOk && iterErr != EspOk ==> ret == iterErr && visited == 0
      ensures busErr != EspOk || iterErr != EspOk ==>
        deviceNum == old(deviceNum) && devices[..] == old(devices[..])
      ensures busErr == EspOk && iterErr == EspOk ==>
        Found() == Discovered(bus) &&
        ret == (if deviceNum == 0 then EspFail else EspOk) &&
        SearchStopped(bus, visited, Found())
    {
      visited := 0;
      ret := busErr;
      if ret != EspOk {
        return;
      }
      ret := iterErr;
      if ret != EspOk {
        return;
      }
      visited := Search(bus);
      if deviceNum == 0 {
        ret := EspFail;
      } else {
        ret := EspOk;
      }
    }

    /**
     * The search loop of ds18b20_init: reset the count, then bind each
     * accepted device at the next free index until the bus is exhausted or
     * the array is full.
     */
    method Search(bus: seq<OneWireDevice>) returns (ghost visited: nat)
      requires Valid()
      modifies this, devices
      ensures Valid()
      ensures Found() == Discovered(bus)
      ensures SearchStopped(bus, visited, Found())
    {
      deviceNum := 0;
      var i := 0;
      while i < |bus|
        invariant 0 <= i <= |bus|
        invariant devices.Length == MaxDs18b20Sensors
        invariant 0 <= deviceNum < MaxDs18b20Sensors
        invariant devices[..deviceNum] == Accepted(bus[..i])
      {
        var next := bus[i];
        AcceptedStep(bus, i);
        i := i + 1;
        if next.isDs18b20 {
          devices[deviceNum] := next;
          deviceNum := deviceNum + 1;
        }
        assert devices[..deviceNum] == Accepted(bus[..i]);
        if deviceNum >= MaxDs18b20Sensors {
          assert next == bus[i - 1] && next.isDs18b20;
          break;
        }
      }
      visited := i;
      DiscoveredAtStop(bus, i);
    }

    /**
     * ds18b20_read_temperature. `prior` is what the caller's output variable
     * holds; `probe` gives the temperature a probe reports. Returns the error
     * code, the output variable afterwards, and the bus transactions issued.
     */
    method ReadTemperature(index: int, prior: real, probe: OneWireDevice -> real)
      returns (ret: int, temperature: real, ops: seq<BusOp>)
      requires Valid()
      ensures ret == EspOk <==> 0 <= index < deviceNum
      ensures ret != EspOk ==> ret == EspErrInvalidArg && temperature == prior && ops == []
      ensures 0 <= index < deviceNum ==>
        temperature == probe(Found()[index]) &&
        ops == [TriggerConversion(Found()[index]), GetTemperature(Found()[index])]
    {
      if index >= deviceNum || index < 0 {
        return EspErrInvalidArg, prior, [];
      }
      var device := devices[index];
      ops := [TriggerConversion(device)];
      temperature := probe(device);
      ops := ops + [GetTemperature(device)];
      ret := EspOk;
    }
  }
}
