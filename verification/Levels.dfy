/** Severity levels of `src/level.rs`. */
module Levels {
  import opened Basics
  import opened Strings

  datatype Level = Trace | Debug | Info | Warn | Error | Off

  /** The derived order: `Trace < Debug < Info < Warn < Error < Off`. */
  function Rank(level: Level): nat {
    match level
    case Trace => 0
    case Debug => 1
    case Info => 2
    case Warn => 3
    case Error => 4
    case Off => 5
  }

  function Name(level: Level): string {
    match level
    case Trace => "TRACE"
    case Debug => "DEBUG"
    case Info => "INFO"
    case Warn => "WARN"
    case Error => "ERROR"
    case Off => "OFF"
  }

  /** `Level::parse`: surrounding white space and ASCII case do not matter. */
  function Parse(input: string): Option<Level> {
    var s := AsciiLower(Trim(input));
    if s == "trace" then Some(Trace)
    else if s == "debug" then Some(Debug)
    else if s == "info" then Some(Info)
    else if s == "warn" || s == "warning" then Some(Warn)
    else if s == "error" then Some(Error)
    else if s == "off" then Some(Off)
    else None
  }
}
