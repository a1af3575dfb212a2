/** Record shapes shared by the CSV loader and the charger-status aggregator
    (the interfaces of src/types.ts). Numbers are modelled as reals. */
module Types {

  datatype Option<+T> = None | Some(value: T)

  /** One row of the station CSV: every column is kept as text. */
  datatype CsvRow = CsvRow(
    region: string,
    stationName: string,
    promotionPrice: string,
    promoStatId: string,
    promoChgerId: string,
    chargerType: string,
    speed: string,
    address: string,
    locationDetail: string,
    lati: string,
    longi: string,
    firstFloor: string,
    isFast: string,
    parkingFree: string)

  /** One charger of a station's static roster. */
  datatype Charger = Charger(chgerId: string, chargerType: string, speed: real, isFast: bool)

  /** A station grouped from the CSV rows that share its id. The `onlyTaxi`
      flag of the TypeScript interface is never filled in by the loader and
      is therefore not a field here. */
  datatype ChargerStation = ChargerStation(
    id: string,
    stationName: string,
    region: string,
    address: string,
    locationDetail: string,
    latitude: real,
    longitude: real,
    promotionPrice: real,
    firstFloor: bool,
    parkingFree: bool,
    chargers: seq<Charger>,
    hasFastCharger: bool,
    minPrice: real)

  /** A live charger record from the open-data lookup; only the two fields
      the aggregator reads are kept. */
  datatype ChargerInfoItem = ChargerInfoItem(chgerId: string, stat: string)

  datatype ClassCount = ClassCount(available: nat, total: nat)

  datatype ChargerStatusSummary = ChargerStatusSummary(
    fastChargers: ClassCount,
    regularChargers: ClassCount,
    allInUse: bool)
}
