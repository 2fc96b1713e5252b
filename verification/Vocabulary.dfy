/**
  The values that the status code receives from outside.

  The strings that the code spells out are constructors of `Word`; every other
  string is an `Other`. An ISO text that denotes a UTC instant is a `Stamp` of
  that instant in microseconds, so reading a timestamp is a case distinction.
  A JSON object with exactly the expected fields is a record; any other value in
  its place is a `Misshapen` one.
*/
module Vocabulary {
  import opened Basics

  datatype Word =
    | RequestTelemetryV1 | RequestTelemetryV2
    | Ok | Unavailable
    | Service | Login | Attendance | HallPass | Payroll | Roster | ClassroomEconomy
    | TransportUnavailable | AccessDenied | InvalidSnapshot | StaleSnapshot
    | Other(text: string)

  datatype Scalar =
    | Null
    | Bool(flag: bool)
    | Int(num: int)
    | Real(dec: real)
    | NonFinite
    | Text(word: Word)
    | Stamp(at: int)
    | Compound

  datatype Component =
    | Component(key: Scalar, state: Scalar, requests: Scalar,
                http1xx: Scalar, http2xx: Scalar, http3xx: Scalar, http4xx: Scalar,
                http404: Scalar, http500: Scalar, http5xx: Scalar,
                failures404: Option<Scalar>,
                p80: Scalar, p95: Scalar)
    | MisshapenComponent

  datatype Payload =
    | Snapshot(version: Scalar, sampledAt: Scalar, window: Scalar, latestAt: Scalar, components: Option<seq<Component>>)
    | MisshapenPayload

  datatype Entry =
    | Entry(sampledAt: Scalar, latestAt: Scalar, component: Component)
    | MisshapenEntry

  datatype Activity = Activities(entries: map<Word, Entry>) | NotADict

  const MINUTE := 60 * SECOND
  const DAY := 1440 * MINUTE

  predicate IsNumber(v: Scalar) {
    v.Int? || v.Real?
  }

  function Number(v: Scalar): real
    requires IsNumber(v)
  {
    if v.Int? then v.num as real else v.dec
  }

  /** The number an optional count stands for where Python writes `x or 0`. */
  function Count(v: Scalar): int {
    if v.Int? then v.num else 0
  }
}
