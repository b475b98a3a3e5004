/**
 Optional values, Python exceptions as data, and a failure-compatible result type.
 */
module Results {

  datatype Option<+T> = None | Some(value: T)

  /** The Python exceptions the modelled code raises, with their messages. */
  datatype PyError =
    | KeyError(key: string)
    | ValueError(message: string)
    | RuntimeError(message: string)
    | AttributeError(message: string)
    | SyntaxError(message: string)
    | IndexError(message: string)
    | TypeError(message: string)
    | InvalidStateError
    | External(name: string, message: string)  // raised by code outside the model

  /**
   The last line of `traceback.format_exc()` for an error: its class name and message.
   The stack frames above that line are not modelled.
   */
  function TraceText(e: PyError): string
  {
    match e
    case KeyError(k) => "KeyError: '" + k + "'"
    case ValueError(m) => "ValueError: " + m
    case RuntimeError(m) => "RuntimeError: " + m
    case AttributeError(m) => "AttributeError: " + m
    case SyntaxError(m) => "SyntaxError: " + m
    case IndexError(m) => "IndexError: " + m
    case TypeError(m) => "TypeError: " + m
    case InvalidStateError => "InvalidStateError: invalid state"
    case External(n, m) => n + ": " + m
  }

  /** `str(e)`: the message, which for a KeyError is the quoted key. */
  function ExcStr(e: PyError): string
  {
    match e
    case KeyError(k) => "'" + k + "'"
    case InvalidStateError => "invalid state"
    case External(_, m) => m
    case _ => e.message
  }

  /**
   `traceback.format_exc()` for an error: the closing line followed by a newline, so
   that splitting it into lines leaves an empty last line.
   */
  function FormatExc(e: PyError): string
  {
    TraceText(e) + "\n"
  }

  datatype Result<+T> = Ok(value: T) | Err(error: PyError)
  {
    predicate IsFailure()
    {
      Err?
    }

    function PropagateFailure<U>(): Result<U>
      requires Err?
    {
      Err(error)
    }

    function Extract(): T
      requires Ok?
    {
      value
    }
  }
}
