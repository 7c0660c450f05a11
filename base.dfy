/** Values shared by every part of the model: optional values, results and
    the errors the modelled file operations raise. */
module Base {

  datatype Option<+T> = None | Some(value: T)

  datatype Result<+T> = Ok(value: T) | Err(failure: Failure)

  /** The exceptions of the organiser, named after the Python exceptions they stand for. */
  datatype Failure =
    | NotFound(name: string)          // FileNotFoundError
    | AlreadyExists(name: string)     // FileExistsError, or shutil.Error "already exists"
    | NotADirectory(name: string)     // NotADirectoryError
    | IsADirectory(name: string)      // IsADirectoryError
    | NotEmpty(name: string)          // OSError from rmdir on a non-empty directory
    | PermissionDenied(name: string)  // PermissionError (a locked or protected path)
    | InvalidDirectory                // ValueError raised by _validate_path
    | MissingKey(key: string)         // KeyError on a rule or action record
    | InvalidToken                    // cryptography.fernet.InvalidToken
    | NoAttribute(owner: string, attribute: string)  // AttributeError on an object of class `owner`
    | RuntimeError(message: string)   // RuntimeError
    | InvalidJson(message: string)    // json.JSONDecodeError
    | ValueError(message: string)     // ValueError, as raised by str.format
    | IndexOutOfRange(field: string)  // IndexError from a positional str.format field

  /** `str(e)`: the failure's message, the offending path in quotes. */
  function Describe(f: Failure): string
  {
    match f
    case NotFound(n) => "No such file or directory: '" + n + "'"
    case AlreadyExists(n) => "File exists: '" + n + "'"
    case NotADirectory(n) => "Not a directory: '" + n + "'"
    case IsADirectory(n) => "Is a directory: '" + n + "'"
    case NotEmpty(n) => "Directory not empty: '" + n + "'"
    case PermissionDenied(n) => "Permission denied: '" + n + "'"
    case InvalidDirectory => "Invalid directory"
    case MissingKey(k) => "'" + k + "'"
    case InvalidToken => ""
    case NoAttribute(o, a) => "'" + o + "' object has no attribute '" + a + "'"
    case RuntimeError(m) => m
    case InvalidJson(m) => m
    case ValueError(m) => m
    case IndexOutOfRange(i) => "Replacement index " + i + " out of range for positional args tuple"
  }

  function GetOr<K, V>(m: map<K, V>, k: K, default: V): V
  {
    if k in m then m[k] else default
  }

  /** Concatenation is associative; stated once so that the loops that
      extend an output stream need not rediscover it. */
  lemma AppendAssoc<T>(a: seq<T>, b: seq<T>, c: seq<T>)
    ensures a + (b + c) == (a + b) + c
  {
  }
}
