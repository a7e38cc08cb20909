/** The logging capability the processor is handed: `info`, `warn` and
    `error`, recorded as an appended sequence of events.  Timestamps and
    the console and file sinks are not part of this model. */
module Logging {

  datatype Level = Info | Warn | Error

  datatype LogEvent = LogEvent(level: Level, message: string)

  /** Number of events at `level`. */
  function CountLevel(log: seq<LogEvent>, level: Level): (n: nat)
    ensures n <= |log|
  {
    if log == [] then 0
    else CountLevel(log[..|log| - 1], level) + (if log[|log| - 1].level == level then 1 else 0)
  }

  lemma {:induction false} CountLevelAppend(a: seq<LogEvent>, b: seq<LogEvent>, level: Level)
    ensures CountLevel(a + b, level) == CountLevel(a, level) + CountLevel(b, level)
    decreases |b|
  {
    if b == [] {
      assert a + b == a;
    } else {
      var n := |b| - 1;
      assert (a + b)[..|a + b| - 1] == a + b[..n];
      CountLevelAppend(a, b[..n], level);
    }
  }
}
