/** Mapping exceptions to statuses and back
    (src/microservice-essentials/cross-cutting-concerns: exception-handling-request-hook.cpp,
    exception-handling-helpers.txx, error-forwarding-request-hook.cpp). */
module Exceptions {
  import opened Statuses

  // logged: the log level is not LogLevel::invalid
  datatype Definition = Definition(status: Status, logged: bool, forwardDetails: bool)

  datatype Mapper =
    | ToConstant(definition: Definition)
    | OfType(type_: string, definition: Definition)
    | ErrorForwarding(logged: bool, forwardDetails: bool)

  function Map(m: Mapper, e: Exn): Option<Definition> {
    match m
    case ToConstant(d) => Some(d)
    case OfType(t, d) => if t in e.isA then Some(d) else None
    case ErrorForwarding(logged, details) =>
      if e.forwarded.Some? then Some(Definition(e.forwarded.value, logged, details)) else None
  }

  function ExceptionDetails(e: Exn): string {
    if "std::exception" in e.isA then e.what else ""
  }

  function Answer(d: Definition, e: Exn): Status {
    if !d.forwardDetails then d.status
    else if d.status.details == "" then d.status.(details := ExceptionDetails(e))
    else d.status.(details := d.status.details + ": " + ExceptionDetails(e))
  }

  /** The text that reaches the caller. */
  lemma AnswerTells(d: Definition, e: Exn)
    ensures var what := if "std::exception" in e.isA then e.what else "";
            Answer(d, e) == Status(d.status.code,
                                   if !d.forwardDetails then d.status.details
                                   else if d.status.details == "" then what
                                   else d.status.details + ": " + what)
  {
  }

  /** Which exceptions a mapper takes, and the status it has for them. */
  lemma MapperTakesIff(m: Mapper, e: Exn)
    ensures Map(m, e).Some? <==>
              || m.ToConstant?
              || (m.OfType? && m.type_ in e.isA)
              || (m.ErrorForwarding? && e.forwarded.Some?)
    ensures Map(m, e).Some? ==>
              Some(Map(m, e).value.status) == if m.ErrorForwarding? then e.forwarded else Some(m.definition.status)
  {
  }

  function Handled(mappers: seq<Mapper>, e: Exn): Outcome {
    if mappers == [] then Threw(e)
    else if Map(mappers[0], e).Some? then Returned(Answer(Map(mappers[0], e).value, e))
    else Handled(mappers[1..], e)
  }

  predicate IsFirstMatch(mappers: seq<Mapper>, i: int, e: Exn) {
    && 0 <= i < |mappers| && Map(mappers[i], e).Some?
    && (forall j :: 0 <= j < i ==> Map(mappers[j], e).None?)
  }

  /** The first mapper that matches decides; without one the exception goes on. */
  lemma {:induction false} HandledByFirstMatch(mappers: seq<Mapper>, e: Exn)
    ensures Handled(mappers, e) == Threw(e) <==> forall i :: 0 <= i < |mappers| ==> Map(mappers[i], e).None?
    ensures forall i :: IsFirstMatch(mappers, i, e) ==>
              Handled(mappers, e) == Returned(Answer(Map(mappers[i], e).value, e))
  {
    if mappers != [] {
      HandledByFirstMatch(mappers[1..], e);
      if Map(mappers[0], e).None? {
        assert forall i :: IsFirstMatch(mappers, i, e) ==> i > 0 && IsFirstMatch(mappers[1..], i - 1, e);
        assert (forall i :: 0 <= i < |mappers| ==> Map(mappers[i], e).None?)
               <==> (forall i :: 0 <= i < |mappers[1..]| ==> Map(mappers[1..][i], e).None?);
      }
    }
  }

  const DEFAULT_MAPPERS: seq<Mapper> := [
    ErrorForwarding(true, false),
    OfType("std::invalid_argument", Definition(Status(InvalidArgument, "invalid argument exception"), false, true)),
    OfType("std::out_of_range", Definition(Status(OutOfRange, "out of range argument exception"), false, true)),
    ToConstant(Definition(Status(Internal, "unknown exception"), true, false))
  ]

  /** What the default mappers answer: the forwarded status; client errors with their details; and a bare
      internal error, without details, for anything else. */
  lemma DefaultAnswers(e: Exn)
    ensures Handled(DEFAULT_MAPPERS, e).Returned?
    ensures var s := Handled(DEFAULT_MAPPERS, e).status;
            var what := if "std::exception" in e.isA then e.what else "";
            if e.forwarded.Some? then s == e.forwarded.value
            else if "std::invalid_argument" in e.isA then
              s == Status(InvalidArgument, "invalid argument exception" + ": " + what)
            else if "std::out_of_range" in e.isA then
              s == Status(OutOfRange, "out of range argument exception" + ": " + what)
            else s == Status(Internal, "unknown exception")
  {
    var first :=
      if e.forwarded.Some? then 0
      else if "std::invalid_argument" in e.isA then 1
      else if "std::out_of_range" in e.isA then 2
      else 3;
    HandledByFirstMatch(DEFAULT_MAPPERS, e);
    assert IsFirstMatch(DEFAULT_MAPPERS, first, e);
  }

  // ---------------------------------------------------------------------

  /** ErrorForwardingRequestHook::post_process: a mapped code throws, with the code named in the details. */
  function Forward(mapping: map<StatusCode, Status>, request: string, s: Status): Outcome {
    if s.code !in mapping then Returned(s)
    else if s.code == Invalid then Threw(BAD_CODE)
    else
      var received := request + " received " + Name(s.code);
      var what := if s.details == "" then received else received + "(" + s.details + ")";
      Threw(Exn({"mse::ErrorForwardingException", "std::runtime_error", "std::exception"},
                what, Some(mapping[s.code])))
  }

  function Code(i: int): StatusCode
    requires 0 <= i <= 16
  {
    [Ok, Cancelled, Unknown, InvalidArgument, DeadlineExceeded, NotFound, AlreadyExists, PermissionDenied,
     ResourceExhausted, FailedPrecondition, Aborted, OutOfRange, Unimplemented, Internal, Unavailable, DataLoss,
     Unauthenticated][i]
  }

  class ForwardingParameters {
    var statusCodeMapping: map<StatusCode, Status>

    constructor ()
      ensures statusCodeMapping == map[]
    {
      statusCodeMapping := map[];
    }

    /** Maps every error code; OK and the reserved code keep what they had. */
    method IncludeAllErrorCodes(mapTo: Status)
      modifies this
      ensures forall c: StatusCode :: c != Ok && c != Invalid ==>
                c in statusCodeMapping && statusCodeMapping[c] == mapTo
      ensures forall c: StatusCode :: c == Ok || c == Invalid ==>
                (c in statusCodeMapping <==> c in old(statusCodeMapping))
                && (c in statusCodeMapping ==> statusCodeMapping[c] == old(statusCodeMapping)[c])
    {
      for i := 0 to 17
        invariant forall j :: 0 < j < i ==> Code(j) in statusCodeMapping && statusCodeMapping[Code(j)] == mapTo
        invariant forall c: StatusCode :: c == Ok || c == Invalid ==>
                    (c in statusCodeMapping <==> c in old(statusCodeMapping))
                    && (c in statusCodeMapping ==> statusCodeMapping[c] == old(statusCodeMapping)[c])
      {
        var code := Code(i);
        if !Status(code, "").IsOk() {
          statusCodeMapping := statusCodeMapping[code := mapTo];
        }
      }
      forall c: StatusCode | c != Ok && c != Invalid
        ensures c in statusCodeMapping && statusCodeMapping[c] == mapTo
      {
        var i := Index(c);
        assert Code(i) == c;
      }
    }

    method Include(mapFrom: StatusCode, mapTo: Status)
      modifies this
      ensures statusCodeMapping == old(statusCodeMapping)[mapFrom := mapTo]
    {
      statusCodeMapping := statusCodeMapping[mapFrom := mapTo];
    }

    method Exclude(mapFrom: StatusCode)
      modifies this
      ensures statusCodeMapping == old(statusCodeMapping) - {mapFrom}
    {
      statusCodeMapping := statusCodeMapping - {mapFrom};
    }
  }

  // the numeric value of an error code
  function Index(c: StatusCode): (i: int)
    requires c != Invalid
    ensures 0 <= i <= 16 && Code(i) == c
  {
    match c
    case Ok => 0
    case Cancelled => 1
    case Unknown => 2
    case InvalidArgument => 3
    case DeadlineExceeded => 4
    case NotFound => 5
    case AlreadyExists => 6
    case PermissionDenied => 7
    case ResourceExhausted => 8
    case FailedPrecondition => 9
    case Aborted => 10
    case OutOfRange => 11
    case Unimplemented => 12
    case Internal => 13
    case Unavailable => 14
    case DataLoss => 15
    case Unauthenticated => 16
  }
}
