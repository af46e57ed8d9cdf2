/**
 * The flight record that the parser produces and every later stage consumes
 * (the object literals built at src/App.jsx:83-97 and 129-143).
 */
module Flights {
  import opened TimeCodec

  /** A record's `id`: the 0-based line index for a structured row, or the string "extracted-N" for the N-th record of the unstructured pass. */
  datatype FlightId = LineIndex(index: nat) | Extracted(n: nat)

  datatype Flight = Flight(
    id: FlightId,
    from: string,
    to: string,
    start: int,
    end: int,
    duration: int,
    aircraft: string,
    takeoffPad: string,
    landingPad: string,
    operator: string,
    crew: string,
    rawEtd: string,
    rawEta: string)

  /** The id as JavaScript renders it inside a template string (`${f.id}`). */
  function IdText(id: FlightId): (r: string)
    ensures |r| >= 1
  {
    match id
    case LineIndex(i) => NatToString(i)
    case Extracted(n) => "extracted-" + NatToString(n)
  }

  /** The sort key of `flights.sort((a, b) => a.start - b.start)`. */
  function StartOf(f: Flight): int { f.start }
}
