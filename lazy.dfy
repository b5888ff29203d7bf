/** The lazy writer: bytes collect in a buffer of at most n bytes and go to
  * the file, by appending, only when a write would overflow the buffer or on
  * Flush/Close. The file system is not part of this model: the file's
  * contents are a ghost byte sequence, and what opening, writing and closing
  * the file does is passed in to each call as a FileOutcome. */
module Lazy {
  import opened Wrappers

  /** What happens when the file is opened for appending and written. */
  datatype FileOutcome =
    | OpenFails                 // opening for append fails: nothing is written
    | WriteFails(written: nat)  // the write stops after `written` bytes with an error
    | CloseFails                // everything is written, closing reports an error
    | Succeeds

  datatype IoError = OpenError | WriteError | CloseError

  /** The bytes of `toWrite` that reach the file. */
  function Stored(toWrite: seq<bv8>, outcome: FileOutcome): (r: seq<bv8>)
    ensures r <= toWrite
    ensures r == toWrite <==>
      toWrite == [] || (!outcome.OpenFails? && (outcome.WriteFails? ==> outcome.written >= |toWrite|))
  {
    match outcome
    case OpenFails => []
    case WriteFails(k) => if k < |toWrite| then toWrite[..k] else toWrite
    case CloseFails => toWrite
    case Succeeds => toWrite
  }

  /** The error a file append reports. */
  function ErrorOf(outcome: FileOutcome): (r: Option<IoError>)
    ensures r == None <==> outcome.Succeeds?
  {
    match outcome
    case OpenFails => Some(OpenError)
    case WriteFails(_) => Some(WriteError)
    case CloseFails => Some(CloseError)
    case Succeeds => None
  }

  class Writer {
    /** The file name and the buffer limit. */
    const f: string
    const n: int
    /** The buffer. */
    var b: seq<bv8>
    /** The file's contents. */
    ghost var file: seq<bv8>
    /** The file's contents when the writer was made, followed by the data of
      * every Write that reported no error. */
    ghost var accepted: seq<bv8>
    /** Whether some Write, Flush or Close has reported an error. */
    ghost var failed: bool

    /** The buffer never holds more than n bytes, and as long as no call has
      * failed the file followed by the buffer is exactly what was accepted. */
    ghost predicate Valid()
      reads this
    {
      |b| <= n && (!failed ==> file + b == accepted)
    }

    /** A writer that starts from an empty file. A negative limit is a panic
      * in the source (a slice with negative capacity). */
    constructor Create(name: string, limit: int)
      requires limit >= 0
      ensures f == name && n == limit
      ensures b == [] && file == [] && accepted == [] && !failed
      ensures Valid()
    {
      f, n := name, limit;
      b := [];
      file, accepted, failed := [], [], false;
    }

    /** A writer that keeps the file's current contents `existing`. */
    constructor Append(name: string, limit: int, ghost existing: seq<bv8>)
      requires limit >= 0
      ensures f == name && n == limit
      ensures b == [] && file == existing && accepted == existing && !failed
      ensures Valid()
    {
      f, n := name, limit;
      b := [];
      file, accepted, failed := existing, existing, false;
    }

    /** Adds `data` to the buffer; when the buffer would exceed n bytes, the
      * buffer and `data` are appended to the file instead and the buffer is
      * emptied before the file is opened, so what a failed open or write
      * does not store is lost. On a failed write the count is that of the
      * stored bytes of buffer and data together. */
    method Write(data: seq<bv8>, outcome: FileOutcome) returns (count: int, err: Option<IoError>)
      requires Valid()
      modifies this
      ensures Valid()
      ensures |old(b)| + |data| <= n ==>
        b == old(b) + data && file == old(file) && count == |data| && err == None
      ensures |old(b)| + |data| > n ==>
        b == [] && file == old(file) + Stored(old(b) + data, outcome) && err == ErrorOf(outcome) &&
        count == (match outcome
                  case OpenFails => 0
                  case WriteFails(_) => |Stored(old(b) + data, outcome)|
                  case _ => |data|)
      ensures err == None ==> count == |data| && accepted == old(accepted) + data
      ensures err != None ==> accepted == old(accepted)
      ensures failed == (old(failed) || err != None)
      ensures err != None && !outcome.CloseFails? && Stored(old(b) + data, outcome) != old(b) + data ==>
        |file| + |b| < |old(file)| + |old(b)| + |data|
    {
      var toWrite := b + data;
      if |toWrite| <= n {
        b := toWrite;
        accepted := accepted + data;
        return |data|, None;
      }
      b := [];
      match outcome
      case OpenFails =>
        failed := true;
        return 0, Some(OpenError);
      case WriteFails(k) =>
        var stored := if k < |toWrite| then toWrite[..k] else toWrite;
        file := file + stored;
        failed := true;
        return |stored|, Some(WriteError);
      case CloseFails =>
        file := file + toWrite;
        failed := true;
        return |data|, Some(CloseError);
      case Succeeds =>
        file := file + toWrite;
        accepted := accepted + data;
        return |data|, None;
    }

    /** Appends the buffer to the file and empties it; an empty buffer does
      * not touch the file. */
    method Flush(outcome: FileOutcome) returns (err: Option<IoError>)
      requires Valid()
      modifies this
      ensures Valid()
      ensures old(b) == [] ==> b == [] && file == old(file) && err == None
      ensures old(b) != [] ==>
        b == [] && file == old(file) + Stored(old(b), outcome) && err == ErrorOf(outcome)
      ensures accepted == old(accepted)
      ensures failed == (old(failed) || err != None)
      ensures err == None ==> file == old(file) + old(b)
    {
      if |b| == 0 {
        return None;
      }
      var toWrite := b;
      b := [];
      file := file + Stored(toWrite, outcome);
      err := ErrorOf(outcome);
      failed := failed || err != None;
    }

    /** The same as Flush. */
    method Close(outcome: FileOutcome) returns (err: Option<IoError>)
      requires Valid()
      modifies this
      ensures Valid()
      ensures old(b) == [] ==> b == [] && file == old(file) && err == None
      ensures old(b) != [] ==>
        b == [] && file == old(file) + Stored(old(b), outcome) && err == ErrorOf(outcome)
      ensures accepted == old(accepted)
      ensures failed == (old(failed) || err != None)
      ensures err == None ==> file == old(file) + old(b)
    {
      err := Flush(outcome);
    }
  }
}
