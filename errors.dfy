/** Failure outcomes. The library signals every one of these by panicking
    (`unwrap`, `expect`, `assert_eq!`, `panic!`); the model returns them. */
module Errors {

  type Path = seq<string>

  datatype Error =
    | ShortRead                                 // a read ran past the end of the bytes
    | BadByteOrder(bom: nat)                    // byte-order marker other than 0x4c
    | CountMismatch(declared: nat, found: nat)  // declared path count differs from the paths read
    | UnknownStoredForm(storedForm: nat)        // a stored form the resolver does not dispatch on
    | StorageError(path: Path)                  // no storage entry or stream at that path
    | PropertyNotFound(pid: nat)                // no record with that property id
    | NameNotDecodable                          // a UTF-16 storage name that does not decode
    | BadTag(tag: nat)                          // weak-reference tag outside the path table
    | EmptyPath(tag: nat)                       // weak-reference path table entry with no pid
    | NotAnObject                               // an intermediate hop is not a single object
    | NotASet                                   // the terminal hop is not a strong set
    | Dangling                                  // no set member carries the identification
    | DepthExceeded                             // weak references nested deeper than the budget

  datatype Option<+T> = None | Some(value: T)

  datatype Result<+T> = Ok(value: T) | Err(error: Error) {
    predicate IsFailure() { Err? }
    function PropagateFailure<U>(): Result<U>
      requires Err?
    {
      Err(error)
    }
    function Extract(): T
      requires Ok?
    {
      value
    }
  }
}
