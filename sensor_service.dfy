// The later revision of the session logic: a service object that reacts to
// central-manager and peripheral callbacks, issues radio commands and sends
// values into four subjects (availability, sensor name, heart rate, pulse).

module SensorServices {
  import opened Radio
  import opened Gatt
  import HeartRateParser

  /**
   * One value sent into one of the service's subjects. All sends go into one
   * log, so the order between subjects is kept.
   */
  datatype Emission =
    | ConnectionAvailable(available: bool)
    | ConnectedSensorName(name: Option<string>)
    | HeartRate(bpm: Option<nat>)
    | HeartbeatPulse

  /** The name shown for a sensor that advertises none. */
  const UnknownSensorName: string := "???"

  /** The name sent when the current peripheral is set: its name, "???" when it has none, nil when cleared. */
  function SensorName(p: Option<Peripheral>): (name: Option<string>)
    ensures p.None? <==> name.None?
    ensures p.Some? && p.value.name.Some? ==> name == p.value.name
    ensures p.Some? && p.value.name.None? ==> name == Some(UnknownSensorName)
  {
    match p
    case None => None
    case Some(peripheral) =>
      match peripheral.name
      case Some(n) => Some(n)
      case None => Some(UnknownSensorName)
  }

  class SensorService {
    var heartRatePeripheral: Option<Peripheral>
    /** Every radio command issued so far, oldest first. */
    var commands: seq<Command>
    /** Every value sent into the subjects so far, oldest first. */
    var emissions: seq<Emission>

    /**
     * The current peripheral is the one most recently asked to connect, and
     * every connect request comes right after scanning was stopped.
     */
    ghost predicate Valid()
      reads this
    {
      heartRatePeripheral == LastConnectTarget(commands) && ConnectsFollowStopScan(commands)
    }

    constructor ()
      ensures Valid()
      ensures heartRatePeripheral == None && commands == [] && emissions == []
    {
      heartRatePeripheral := None;
      commands := [];
      emissions := [];
    }

    /** The copy of the measurement decoder kept in this class. */
    static function ParseHeartRate(data: seq<Byte>): (bpm: nat)
      requires HeartRateParser.Decodable(data)
      ensures bpm == HeartRateParser.Parse(data)
    {
      var flag := data[0];
      if flag & 0x01 == 0 then
        data[1] as nat
      else
        ((data[1] as bv16) | ((data[2] as bv16) << 8)) as nat
    }

    /** Assigning the current peripheral; its observer sends the new sensor name. */
    method SetHeartRatePeripheral(p: Option<Peripheral>)
      requires p == LastConnectTarget(commands) && ConnectsFollowStopScan(commands)
      modifies this
      ensures Valid()
      ensures heartRatePeripheral == p
      ensures emissions == old(emissions) + [ConnectedSensorName(SensorName(p))]
      ensures commands == old(commands)
    {
      heartRatePeripheral := p;
      emissions := emissions + [ConnectedSensorName(SensorName(p))];
    }

    /** Clear the published reading and name, then restart a filtered scan. */
    method StartScanning()
      requires Valid()
      modifies this
      ensures Valid()
      ensures emissions == old(emissions) + [HeartRate(None), ConnectedSensorName(None)]
      ensures commands == old(commands) + [StopScan, ScanForPeripherals([HeartRateServiceUuid])]
      ensures heartRatePeripheral == old(heartRatePeripheral)
    {
      AppendWithoutConnect(commands, [StopScan, ScanForPeripherals([HeartRateServiceUuid])]);
      emissions := emissions + [HeartRate(None), ConnectedSensorName(None)];
      commands := commands + [StopScan, ScanForPeripherals([HeartRateServiceUuid])];
    }

    /** The radio reported a new state: publish whether it is powered on, and nothing else. */
    method CentralManagerDidUpdateState(state: ManagerState)
      requires Valid()
      modifies this
      ensures Valid()
      ensures emissions == old(emissions) + [ConnectionAvailable(state == PoweredOn)]
      ensures commands == old(commands) && heartRatePeripheral == old(heartRatePeripheral)
    {
      var isAvailable := state == PoweredOn;
      emissions := emissions + [ConnectionAvailable(isAvailable)];
    }

    /** A disconnect restarts scanning: the same effects as StartScanning. */
    method DidDisconnectPeripheral(p: Peripheral)
      requires Valid()
      modifies this
      ensures Valid()
      ensures emissions == old(emissions) + [HeartRate(None), ConnectedSensorName(None)]
      ensures commands == old(commands) + [StopScan, ScanForPeripherals([HeartRateServiceUuid])]
      ensures heartRatePeripheral == old(heartRatePeripheral)
    {
      StartScanning();
    }

    /**
     * An advertisement: a connectable one stops the scan, connects to its
     * peripheral and makes it current; any other is ignored.
     */
    method DidDiscover(p: Peripheral, ad: AdvertisementData, rssi: int)
      requires Valid()
      modifies this
      ensures Valid()
      ensures !IsConnectable(ad) ==>
        commands == old(commands) && emissions == old(emissions) &&
        heartRatePeripheral == old(heartRatePeripheral)
      ensures IsConnectable(ad) ==>
        commands == old(commands) + [StopScan, Connect(p)] &&
        emissions == old(emissions) + [ConnectedSensorName(SensorName(Some(p)))] &&
        heartRatePeripheral == Some(p)
    {
      if !IsConnectable(ad) {
        return;
      }
      LastConnectTargetAppend(commands, [StopScan, Connect(p)]);
      ConnectsFollowStopScanAppend(commands, [StopScan, Connect(p)]);
      commands := commands + [StopScan];
      commands := commands + [Connect(p)];
      assert commands == old(commands) + [StopScan, Connect(p)];
      SetHeartRatePeripheral(Some(p));
    }

    /** Connected: ask the peripheral for all its services. */
    method DidConnect(p: Peripheral)
      requires Valid()
      modifies this
      ensures Valid()
      ensures commands == old(commands) + [DiscoverServices(p, None)]
      ensures emissions == old(emissions) && heartRatePeripheral == old(heartRatePeripheral)
    {
      AppendWithoutConnect(commands, [DiscoverServices(p, None)]);
      commands := commands + [DiscoverServices(p, None)];
    }

    /** Services discovered: request the measurement characteristic of the first heart-rate service. */
    method DidDiscoverServices(p: Peripheral, services: Option<seq<Service>>)
      requires Valid()
      modifies this
      ensures Valid()
      ensures commands == old(commands) + Issued(CharacteristicDiscovery(p, services))
      ensures emissions == old(emissions) && heartRatePeripheral == old(heartRatePeripheral)
    {
      var request := CharacteristicDiscovery(p, services);
      if request.Some? {
        AppendWithoutConnect(commands, [request.value]);
        commands := commands + [request.value];
      }
    }

    /** Characteristics discovered: enable notifications on the first measurement characteristic. */
    method DidDiscoverCharacteristicsFor(p: Peripheral, service: Service)
      requires Valid()
      modifies this
      ensures Valid()
      ensures commands == old(commands) + Issued(NotifyRequest(p, service))
      ensures emissions == old(emissions) && heartRatePeripheral == old(heartRatePeripheral)
    {
      var request := NotifyRequest(p, service);
      if request.Some? {
        AppendWithoutConnect(commands, [request.value]);
        commands := commands + [request.value];
      }
    }

    /** A notification: a pulse, then the decoded heart rate; nothing when the value is absent. */
    method DidUpdateValueFor(p: Peripheral, characteristic: Characteristic)
      requires Valid()
      requires characteristic.value.Some? ==> HeartRateParser.Decodable(characteristic.value.value)
      modifies this
      ensures Valid()
      ensures characteristic.value.None? ==> emissions == old(emissions)
      ensures characteristic.value.Some? ==>
        emissions == old(emissions) +
          [HeartbeatPulse, HeartRate(Some(HeartRateParser.Parse(characteristic.value.value)))]
      ensures commands == old(commands) && heartRatePeripheral == old(heartRatePeripheral)
    {
      if characteristic.value.None? {
        return;
      }
      var bpm := ParseHeartRate(characteristic.value.value);
      emissions := emissions + [HeartbeatPulse];
      emissions := emissions + [HeartRate(Some(bpm))];
    }
  }
}
