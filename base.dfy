/** Shared vocabulary of the model: optional values, results carrying the
    exceptions the Python code raises, and the file system the readers see. */
module Base {

  datatype Option<+T> = None | Some(value: T)

  /** A computation that either returns a value or raises one of the
      exceptions listed in `Error`. */
  datatype Result<+T> = Ok(value: T) | Err(error: Error)

  /** The exceptions raised by the modelled code, one constructor per raise
      site (or per built-in that raises). */
  datatype Error =
    | InvalidFormat(spec: string)                 // ValueError: the layout does not start with a valid token
    | FieldNameCount(names: string, spec: string) // ValueError: names do not match the value count
    | BadInteger(text: string)                    // ValueError from int() on an I field
    | BadReal(text: string)                       // ValueError from float() on an F field
    | FileNotFound(path: string)                  // IOError from open()
    | VelocityNameUnmatched(path: string)         // re.sub error: no .CRD suffix to rewrite
    | InvalidDatumEpoch(epoch: string, path: string) // RuntimeError on the datum line
    | InvalidDate(epoch: string)                  // ValueError from datetime() on a matched epoch
    | NoFiles                                     // RuntimeError: compare() without sources
    | NoCommonCodes                               // RuntimeError: sources share no key
    | NoCodesSelected                             // RuntimeError: the code filters leave nothing
    | StationNumbers(path: string)                // RuntimeError: station lines not numbered 1, 2, 3, ...
    | BadStationField(field: string)              // ValueError: a station field holds no space to split at
    | ZeroPeriod                                  // ZeroDivisionError: a station line with period 0
    | NotResidualFile(path: string)               // RuntimeError: no station table heading before the end of the file

  /** Files by path, each as the lines `readline` returns, terminators
      included. A path that is not a key cannot be opened. */
  type FileSystem = map<string, seq<string>>

  /** The k-th call of `readline` on a file: past the end it returns "". */
  function LineAt(lines: seq<string>, k: nat): string {
    if k < |lines| then lines[k] else ""
  }

  /** The lines left after `k` calls of `readline`. */
  function Drop(lines: seq<string>, k: nat): (rest: seq<string>)
    ensures |rest| == if k < |lines| then |lines| - k else 0
    ensures forall i :: 0 <= i < |rest| ==> rest[i] == lines[k + i]
  {
    if k < |lines| then lines[k..] else []
  }
}
