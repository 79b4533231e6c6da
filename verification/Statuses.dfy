/** Status codes, statuses, exceptions and the two ways a call can end. */
module Statuses {

  datatype Option<+T> = None | Some(value: T)

  // src/microservice-essentials/status.h; Invalid is the reserved code -1
  datatype StatusCode =
    | Invalid
    | Ok
    | Cancelled
    | Unknown
    | InvalidArgument
    | DeadlineExceeded
    | NotFound
    | AlreadyExists
    | PermissionDenied
    | ResourceExhausted
    | FailedPrecondition
    | Aborted
    | OutOfRange
    | Unimplemented
    | Internal
    | Unavailable
    | DataLoss
    | Unauthenticated

  datatype Status = Status(code: StatusCode, details: string) {
    predicate IsOk() { code == Ok }
  }

  const OK := Status(Ok, "")

  /** An exception in flight: every class it is an instance of, what() (for a std::exception),
      and the status it carries when it is an ErrorForwardingException. */
  datatype Exn = Exn(isA: set<string>, what: string, forwarded: Option<Status>)

  /** A call either returns a status or throws. */
  datatype Outcome = Returned(status: Status) | Threw(exn: Exn)

  /** to_string of every code but Invalid, on which it throws. */
  function Name(code: StatusCode): string
    requires code != Invalid
  {
    match code
    case Ok => "OK"
    case Cancelled => "CANCELLED"
    case Unknown => "UNKNOWN"
    case InvalidArgument => "INVALID_ARGUMENT"
    case DeadlineExceeded => "DEADLINE_EXCEEDED"
    case NotFound => "NOT_FOUND"
    case AlreadyExists => "ALREADY_EXISTS"
    case PermissionDenied => "PERMISSION_DENIED"
    case ResourceExhausted => "RESOURCE_EXHAUSTED"
    case FailedPrecondition => "FAILED_PRECONDITION"
    case Aborted => "ABORTED"
    case OutOfRange => "OUT_OF_RANGE"
    case Unimplemented => "UNIMPLEMENTED"
    case Internal => "INTERNAL"
    case Unavailable => "UNAVAILABLE"
    case DataLoss => "DATA_LOSS"
    case Unauthenticated => "UNAUTHENTICATED"
  }

  // to_string(StatusCode::invalid) throws this; every other code has a name
  const BAD_CODE := Exn({"std::invalid_argument", "std::logic_error", "std::exception"},
                        "invalid status code with id -1", None)

  // the status that stands for "the function threw" when post_process is called
  const EXCEPTION_MARKER := Status(Invalid, "exception during request")

  /** Returning a status that is logged on the way out: formatting the code throws on Invalid. */
  function Logged(s: Status): (o: Outcome)
    ensures o.Returned? <==> s.code != Invalid
  {
    if s.code == Invalid then Threw(BAD_CODE) else Returned(s)
  }

  /** Whether RequestHook::Process calls post_process after the wrapped function ended like this: a returned
      Invalid code throws while it is being logged, before post_process. */
  predicate ReachesPost(o: Outcome) {
    o.Returned? ==> o.status.code != Invalid
  }
}
