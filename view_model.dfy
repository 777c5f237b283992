// The earlier, all-in-one revision of the session logic: a view model that is
// its own central-manager and peripheral delegate and keeps its published
// state (heart rate, pulse flag, subtitle, availability) in fields.

module ViewModel {
  import opened Radio
  import opened Gatt
  import HeartRateParser

  /** The subtitle shown while a sensor is being looked for. */
  const SearchingSubtitle: string := "Searching for a sensor..."

  /** The pulse flag after n toggles from its initial value false. */
  function PulseAfter(n: nat): (pulse: bool)
  {
    if n == 0 then false else !PulseAfter(n - 1)
  }

  /** After n notifications the pulse flag is set exactly when n is odd. */
  lemma {:induction false} PulseAfterParity(n: nat)
    ensures PulseAfter(n) == (n % 2 == 1)
  {
    if n > 0 {
      PulseAfterParity(n - 1);
    }
  }

  class HeartRateViewModel {
    var heartRate: Option<nat>
    var heartbeatPulse: bool
    var subtitle: Option<string>
    var bluetoothAvailable: bool
    var heartRatePeripheral: Option<Peripheral>
    /** Every radio command issued so far, oldest first. */
    var commands: seq<Command>
    /** How many notifications with a value have been handled. */
    ghost var notifications: nat

    /**
     * The pulse flag has been toggled once per notification, the current
     * peripheral is the one most recently asked to connect, and every connect
     * request comes right after scanning was stopped.
     */
    ghost predicate Valid()
      reads this
    {
      && heartbeatPulse == PulseAfter(notifications)
      && heartRatePeripheral == LastConnectTarget(commands)
      && ConnectsFollowStopScan(commands)
    }

    constructor ()
      ensures Valid()
      ensures heartRate == None && heartbeatPulse == false && subtitle == None && bluetoothAvailable == true
      ensures heartRatePeripheral == None && commands == [] && notifications == 0
    {
      heartRate := None;
      heartbeatPulse := false;
      subtitle := None;
      bluetoothAvailable := true;
      heartRatePeripheral := None;
      commands := [];
      notifications := 0;
    }

    /** The copy of the measurement decoder kept in this class. */
    static function ParseHeartRate(data: seq<Byte>): (bpm: nat)
      requires HeartRateParser.Decodable(data)
      ensures bpm == HeartRateParser.Parse(data)
    {
      var flag := data[0];
      if flag & 0x01 == 0 then
        data[1] as nat
      else
        ((data[1] as bv16) | ((data[2] as bv16) << 8)) as nat
    }

    /** Clear the reading, show the searching subtitle and start a filtered scan. */
    method StartScanning()
      requires Valid()
      modifies this
      ensures Valid()
      ensures heartRate == None && subtitle == Some(SearchingSubtitle)
      ensures commands == old(commands) + [ScanForPeripherals([HeartRateServiceUuid])]
      ensures heartbeatPulse == old(heartbeatPulse) && bluetoothAvailable == old(bluetoothAvailable)
      ensures heartRatePeripheral == old(heartRatePeripheral) && notifications == old(notifications)
    {
      AppendWithoutConnect(commands, [ScanForPeripherals([HeartRateServiceUuid])]);
      heartRate := None;
      subtitle := Some(SearchingSubtitle);
      commands := commands + [ScanForPeripherals([HeartRateServiceUuid])];
    }

    /** Record availability; becoming available starts a scan. */
    method HandleAvailabilityChange(isAvailable: bool)
      requires Valid()
      modifies this
      ensures Valid()
      ensures bluetoothAvailable == isAvailable
      ensures isAvailable ==>
        heartRate == None && subtitle == Some(SearchingSubtitle) &&
        commands == old(commands) + [ScanForPeripherals([HeartRateServiceUuid])]
      ensures !isAvailable ==>
        heartRate == old(heartRate) && subtitle == old(subtitle) && commands == old(commands)
      ensures heartbeatPulse == old(heartbeatPulse)
      ensures heartRatePeripheral == old(heartRatePeripheral) && notifications == old(notifications)
    {
      bluetoothAvailable := isAvailable;
      if isAvailable {
        StartScanning();
      }
    }

    /** The radio reported a new state; powered on counts as available. */
    method CentralManagerDidUpdateState(state: ManagerState)
      requires Valid()
      modifies this
      ensures Valid()
      ensures bluetoothAvailable == (state == PoweredOn)
      ensures state == PoweredOn ==>
        heartRate == None && subtitle == Some(SearchingSubtitle) &&
        commands == old(commands) + [ScanForPeripherals([HeartRateServiceUuid])]
      ensures state != PoweredOn ==>
        heartRate == old(heartRate) && subtitle == old(subtitle) && commands == old(commands)
      ensures heartbeatPulse == old(heartbeatPulse)
      ensures heartRatePeripheral == old(heartRatePeripheral) && notifications == old(notifications)
    {
      var isAvailable := state == PoweredOn;
      HandleAvailabilityChange(isAvailable);
    }

    /** A disconnect restarts scanning: the same effects as StartScanning. */
    method DidDisconnectPeripheral(p: Peripheral)
      requires Valid()
      modifies this
      ensures Valid()
      ensures heartRate == None && subtitle == Some(SearchingSubtitle)
      ensures commands == old(commands) + [ScanForPeripherals([HeartRateServiceUuid])]
      ensures heartbeatPulse == old(heartbeatPulse) && bluetoothAvailable == old(bluetoothAvailable)
      ensures heartRatePeripheral == old(heartRatePeripheral) && notifications == old(notifications)
    {
      StartScanning();
    }

    /**
     * An advertisement: a connectable one stops the scan, connects to its
     * peripheral, makes it current and shows its name (nil when it has none);
     * any other is ignored.
     */
    method DidDiscover(p: Peripheral, ad: AdvertisementData, rssi: int)
      requires Valid()
      modifies this
      ensures Valid()
      ensures !IsConnectable(ad) ==>
        commands == old(commands) && heartRatePeripheral == old(heartRatePeripheral) &&
        subtitle == old(subtitle)
      ensures IsConnectable(ad) ==>
        commands == old(commands) + [StopScan, Connect(p)] &&
        heartRatePeripheral == Some(p) && subtitle == p.name
      ensures heartRate == old(heartRate) && heartbeatPulse == old(heartbeatPulse)
      ensures bluetoothAvailable == old(bluetoothAvailable) && notifications == old(notifications)
    {
      if !IsConnectable(ad) {
        return;
      }
      LastConnectTargetAppend(commands, [StopScan, Connect(p)]);
      ConnectsFollowStopScanAppend(commands, [StopScan, Connect(p)]);
      commands := commands + [StopScan];
      commands := commands + [Connect(p)];
      assert commands == old(commands) + [StopScan, Connect(p)];
      heartRatePeripheral := Some(p);
      subtitle := p.name;
    }

    /** Connected: ask the peripheral for all its services. */
    method DidConnect(p: Peripheral)
      requires Valid()
      modifies this
      ensures Valid()
      ensures commands == old(commands) + [DiscoverServices(p, None)]
      ensures heartRate == old(heartRate) && subtitle == old(subtitle)
      ensures heartbeatPulse == old(heartbeatPulse) && bluetoothAvailable == old(bluetoothAvailable)
      ensures heartRatePeripheral == old(heartRatePeripheral) && notifications == old(notifications)
    {
      AppendWithoutConnect(commands, [DiscoverServices(p, None)]);
      commands := commands + [DiscoverServices(p, None)];
    }

    /** Services discovered: request the measurement characteristic of the first heart-rate service. */
    method DidDiscoverServices(p: Peripheral, services: Option<seq<Service>>)
      requires Valid()
      modifies this
      ensures Valid()
      ensures commands == old(commands) + Issued(CharacteristicDiscovery(p, services))
      ensures heartRate == old(heartRate) && subtitle == old(subtitle)
      ensures heartbeatPulse == old(heartbeatPulse) && bluetoothAvailable == old(bluetoothAvailable)
      ensures heartRatePeripheral == old(heartRatePeripheral) && notifications == old(notifications)
    {
      var request := CharacteristicDiscovery(p, services);
      if request.Some? {
        AppendWithoutConnect(commands, [request.value]);
        commands := commands + [request.value];
      }
    }

    /** Characteristics discovered: enable notifications on the first measurement characteristic. */
    method DidDiscoverCharacteristicsFor(p: Peripheral, service: Service)
      requires Valid()
      modifies this
      ensures Valid()
      ensures commands == old(commands) + Issued(NotifyRequest(p, service))
      ensures heartRate == old(heartRate) && subtitle == old(subtitle)
      ensures heartbeatPulse == old(heartbeatPulse) && bluetoothAvailable == old(bluetoothAvailable)
      ensures heartRatePeripheral == old(heartRatePeripheral) && notifications == old(notifications)
    {
      var request := NotifyRequest(p, service);
      if request.Some? {
        AppendWithoutConnect(commands, [request.value]);
        commands := commands + [request.value];
      }
    }

    /** A notification: publish the decoded heart rate and flip the pulse flag; nothing when the value is absent. */
    method DidUpdateValueFor(p: Peripheral, characteristic: Characteristic)
      requires Valid()
      requires characteristic.value.Some? ==> HeartRateParser.Decodable(characteristic.value.value)
      modifies this
      ensures Valid()
      ensures characteristic.value.None? ==>
        heartRate == old(heartRate) && heartbeatPulse == old(heartbeatPulse) &&
        notifications == old(notifications)
      ensures characteristic.value.Some? ==>
        heartRate == Some(HeartRateParser.Parse(characteristic.value.value)) &&
        heartbeatPulse == !old(heartbeatPulse) && notifications == old(notifications) + 1
      ensures heartbeatPulse == (notifications % 2 == 1)
      ensures subtitle == old(subtitle) && bluetoothAvailable == old(bluetoothAvailable)
      ensures commands == old(commands) && heartRatePeripheral == old(heartRatePeripheral)
    {
      if characteristic.value.Some? {
        var bpm := ParseHeartRate(characteristic.value.value);
        heartRate := Some(bpm);
        heartbeatPulse := !heartbeatPulse;
        notifications := notifications + 1;
      }
      PulseAfterParity(notifications);
    }
  }
}
