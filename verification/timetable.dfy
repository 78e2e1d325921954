/** The records shared by the loader, the table deriver and the pattern detector. */
module Timetable {
  import opened TimeParser

  /** One row of the loaded file: `{id, name, type}` with `id` the row index. */
  datatype Station = Station(id: nat, name: string, stationType: string)

  /** A time object as the tables hold it: the parsed time plus the two flags
      the user (`isIgnored`) and the pattern detector (`isInvalid`) set. */
  datatype Cell = Cell(time: Time, isIgnored: bool, isInvalid: bool)

  /** One service column: its cells in bank order and the detector's mark. */
  datatype Service = Service(times: seq<Cell>, isPatternMatching: bool)

  /** A freshly parsed time carries neither flag. */
  function FreshCell(t: Time): Cell { Cell(t, false, false) }

  /** Every service has exactly one cell per station of a bank of `width` stations. */
  predicate Rectangular(services: seq<Service>, width: nat)
  {
    forall i :: 0 <= i < |services| ==> |services[i].times| == width
  }

  /** Each station's id is its position in the bank (true when no blank row was skipped). */
  predicate IdsArePositions(bank: seq<Station>)
  {
    forall i :: 0 <= i < |bank| ==> bank[i].id == i
  }

  predicate StrictlyIncreasingIds(bank: seq<Station>)
  {
    forall i, j :: 0 <= i < j < |bank| ==> bank[i].id < bank[j].id
  }
}
