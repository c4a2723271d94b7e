/** Log entries as internal/parser/parser.go defines them. */
module Entries {

  datatype Level = Emergency | Alert | Critical | Error | Warning | Notice | Info | Debug

  /** Nanoseconds since the Unix epoch; `Zero` is Go's zero time, the start of year 1. */
  datatype Time = Zero | At(ns: int) {
    function Instant(): int {
      if Zero? then -62135596800_000000000 else ns
    }
  }

  /** `a` is no later than `b`; the zero time comes before every time after the start of year 1. */
  predicate NotAfter(a: Time, b: Time) {
    match (a, b)
    case (At(x), At(y)) => x <= y
    case (At(x), Zero) => x <= -62135596800_000000000
    case (Zero, At(y)) => -62135596800_000000000 <= y
    case (Zero, Zero) => true
  }

  datatype LogEntry = LogEntry(
    timestamp: Time,
    level: Level,
    facility: int,
    hostname: string,
    process: string,
    pid: int,
    message: string,
    source: string,
    fields: map<string, string>
  )
}
