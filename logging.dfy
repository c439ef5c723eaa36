/**
 The log stream, as a trace of entries: one constructor per message the
 watcher writes, without timestamps or exception texts.
 */
module Logging {

  datatype Level = Info | Warning | Error

  datatype LogEntry =
    | ProcessingFile(path: string)               // processing of a file starts
    | TextProcessed(output: string)              // a text file was cleaned
    | DocumentProcessed(output: string)          // a document was cleaned
    | AttemptFailed(attempt: nat, path: string)  // one document attempt failed (numbered from 1)
    | UnsupportedType(path: string)              // the extension is not supported
    | ProcessingError(path: string)              // an I/O error reached the outer handler
    | EventDetected(path: string)                // the handler accepted a creation event
    | Saved(output: string)                      // the handler saw the processor succeed
    | ProcessingFailed(path: string)             // the handler saw the processor fail
  {
    /** The severity the entry is logged with. */
    function Severity(): Level {
      match this
      case UnsupportedType(_) => Warning
      case AttemptFailed(_, _) => Error
      case ProcessingError(_) => Error
      case ProcessingFailed(_) => Error
      case _ => Info
    }
  }

  /** Number of error-level entries in a log. */
  function ErrorCount(log: seq<LogEntry>): (n: nat)
    ensures n <= |log|
  {
    if log == [] then 0
    else ErrorCount(log[..|log| - 1]) + (if log[|log| - 1].Severity() == Error then 1 else 0)
  }

  /** Error entries of two stretches of log add up. */
  lemma {:induction false} ErrorCountAppend(a: seq<LogEntry>, b: seq<LogEntry>)
    ensures ErrorCount(a + b) == ErrorCount(a) + ErrorCount(b)
    decreases |b|
  {
    if b == [] {
      assert a + b == a;
    } else {
      var b' := b[..|b| - 1];
      assert (a + b)[..|a + b| - 1] == a + b';
      ErrorCountAppend(a, b');
    }
  }
}
