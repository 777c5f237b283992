// Abstract records for the radio-stack entities the session logic touches.
// Peripherals, services and characteristics are plain values; every radio
// operation the app asks for is a Command appended to a log.

module Radio {

  datatype Option<+T> = None | Some(value: T)

  /** One byte of a characteristic value. */
  type Byte = bv8

  /** A GATT attribute identifier; the 16-bit short form is enough here. */
  type Uuid = nat

  /** The Heart Rate service. */
  const HeartRateServiceUuid: Uuid := 0x180D

  /** The Heart Rate Measurement characteristic. */
  const HeartRateMeasurementUuid: Uuid := 0x2A37

  /** The states a central manager can report. */
  datatype ManagerState = Unknown | Resetting | Unsupported | Unauthorized | PoweredOff | PoweredOn

  /** A remote peripheral: its identifier and its advertised name, if any. */
  datatype Peripheral = Peripheral(id: nat, name: Option<string>)

  /** A characteristic with its last received value, if any. */
  datatype Characteristic = Characteristic(uuid: Uuid, value: Option<seq<Byte>>)

  /** A service with its discovered characteristics (absent until discovered). */
  datatype Service = Service(uuid: Uuid, characteristics: Option<seq<Characteristic>>)

  /** A value of the advertisement dictionary: a Boolean or anything else. */
  datatype AdvertisementValue = BoolValue(b: bool) | OtherValue

  type AdvertisementData = map<string, AdvertisementValue>

  /** The dictionary key that says whether the advertiser accepts connections. */
  const IsConnectableKey: string := "kCBAdvDataIsConnectable"

  /** The radio operations the app issues, in the order it issues them. */
  datatype Command =
    | StopScan
    | ScanForPeripherals(services: seq<Uuid>)
    | Connect(peripheral: Peripheral)
    | DiscoverServices(peripheral: Peripheral, serviceFilter: Option<seq<Uuid>>)
    | DiscoverCharacteristics(peripheral: Peripheral, characteristicFilter: seq<Uuid>, service: Service)
    | SetNotifyValue(peripheral: Peripheral, enabled: bool, characteristic: Characteristic)

  /** The log entries an optional command contributes. */
  function Issued(c: Option<Command>): (log: seq<Command>)
  {
    match c
    case None => []
    case Some(cmd) => [cmd]
  }
}
