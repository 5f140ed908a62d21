/** Go error values as the helpers see them: a chain of links, each of which
    may wrap the next. Both Fault types (the one of package `fault` and the
    one of package `pkg/fault`) are links of the same chain, so they live here
    beside the other kinds of error. */
module Errors {
  import opened Wrappers

  /** A Fault's category; both packages declare `type Tag string`. */
  type Tag = string

  // HTTP status codes used by the helpers (section 15 of RFC 9110; 429 is
  // from section 4 of RFC 6585).
  const StatusBadRequest := 400
  const StatusUnauthorized := 401
  const StatusForbidden := 403
  const StatusNotFound := 404
  const StatusConflict := 409
  const StatusUnprocessableEntity := 422
  const StatusTooManyRequests := 429
  const StatusInternalServerError := 500

  datatype FieldError = FieldError(field: string, message: string)

  /** A Go slice of field errors: `nil` (encoded as JSON null) differs from a
      non-nil empty slice (encoded as []). */
  datatype FieldList = Nil | Items(entries: seq<FieldError>) {
    /** The elements, whether the slice is nil or not. */
    function Elements(): seq<FieldError> {
      if Nil? then [] else entries
    }

    /** Go's `append` of one element; appending to nil allocates a slice. */
    function Append(e: FieldError): FieldList {
      Items(Elements() + [e])
    }
  }

  /** Which of the two Fault types a link is: `fault.Fault` (Legacy) or
      `pkg/fault.Fault` (Pkg). `errors.As` tells them apart. */
  datatype Variant = Legacy | Pkg

  datatype Fault = Fault(httpCode: int, message: string, fields: FieldList, tag: Tag, cause: Option<Error>)

  /** The three sentinel errors of package httputil. */
  datatype SentinelKind = UnknownRequestBodyKey | EmptyRequestBody | InvalidJSONField

  datatype Error =
    | Plain(text: string)                              // errors.New, or any error that wraps nothing
    | Sentinel(kind: SentinelKind)
    | Wrapped(context: string, next: Error)            // fmt.Errorf("context: %w", next)
    | PqError(code: string, message: string, detail: string)   // *pq.Error of the Postgres driver
    | FaultError(variant: Variant, fault: Fault)       // a *Fault of either package

  function SentinelText(k: SentinelKind): string {
    match k
    case UnknownRequestBodyKey => "request body contains unknown key"
    case EmptyRequestBody => "body cannot be empty"
    case InvalidJSONField => "body contains incorrect JSON field type"
  }

  /** `errors.Unwrap`: the next link, or nil. A Fault unwraps to its cause. */
  function Unwrap(e: Error): (r: Option<Error>)
    ensures r.Some? ==> r.value < e
    ensures e.FaultError? ==> r == e.fault.cause
    ensures e.Wrapped? ==> r == Some(e.next)
  {
    match e
    case Wrapped(_, next) => Some(next)
    case FaultError(_, f) => f.cause
    case _ => None
  }

  /** The links of the chain that starts at `e`, outermost first. */
  function Chain(e: Error): (c: seq<Error>)
    ensures |c| >= 1 && c[0] == e
  {
    match e
    case Wrapped(_, next) => [e] + Chain(next)
    case FaultError(_, f) => [e] + (if f.cause.Some? then Chain(f.cause.value) else [])
    case _ => [e]
  }

  /** The chain of a possibly nil error; nil has no links. */
  function ChainOf(e: Option<Error>): seq<Error> {
    if e.None? then [] else Chain(e.value)
  }

  /** A chain is its first link followed by the chain of what that link unwraps to. */
  lemma ChainStep(e: Error)
    ensures Chain(e) == [e] + ChainOf(Unwrap(e))
  {
  }

  /** `Error()` of every kind of link. */
  function Text(e: Error): (r: string)
    ensures e.Wrapped? ==> e.context + ": " <= r && r[|e.context| + 2..] == Text(e.next)
    ensures e.FaultError? ==> r == FaultText(e.fault)
  {
    match e
    case Plain(t) => t
    case Sentinel(k) => SentinelText(k)
    case Wrapped(c, next) => c + ": " + Text(next)
    case PqError(_, m, _) => "pq: " + m
    case FaultError(_, f) => FaultText(f)
  }

  /** `(*Fault).Error()`, the same in both packages: "tag: message", followed
      by " (caused by: <cause>)" when there is a cause. */
  function FaultText(f: Fault): (r: string)
    ensures f.tag + ": " + f.message <= r
    ensures f.cause.None? ==> |r| == |f.tag| + 2 + |f.message|
    ensures f.cause.Some? ==>
              r[|f.tag| + 2 + |f.message|..] == " (caused by: " + Text(f.cause.value) + ")"
  {
    var head := f.tag + ": " + f.message;
    if f.cause.Some? then head + " (caused by: " + Text(f.cause.value) + ")" else head
  }

  /** The first position in `c` whose link satisfies `p`. */
  function FirstMatch(c: seq<Error>, p: Error -> bool): (r: Option<nat>)
    ensures r.None? <==> forall i :: 0 <= i < |c| ==> !p(c[i])
    ensures r.Some? ==> r.value < |c| && p(c[r.value])
                        && forall j :: 0 <= j < r.value ==> !p(c[j])
  {
    if c == [] then None
    else if p(c[0]) then Some(0)
    else
      match FirstMatch(c[1..], p)
      case None => None
      case Some(k) => Some(k + 1)
  }

  predicate IsFaultOf(x: Error, v: Variant) {
    x.FaultError? && x.variant == v
  }

  /** `errors.As(err, &f)` for a `*Fault` of variant `v`: the Fault of the
      first link of that type, if any. */
  function AsFault(err: Option<Error>, v: Variant): (r: Option<Fault>)
    ensures r.None? <==> forall i :: 0 <= i < |ChainOf(err)| ==> !IsFaultOf(ChainOf(err)[i], v)
    ensures r.Some? ==> exists i :: 0 <= i < |ChainOf(err)| && ChainOf(err)[i] == FaultError(v, r.value)
                                     && forall j :: 0 <= j < i ==> !IsFaultOf(ChainOf(err)[j], v)
  {
    var c := ChainOf(err);
    match FirstMatch(c, x => IsFaultOf(x, v))
    case None => None
    case Some(i) => assert IsFaultOf(c[i], v); Some(c[i].fault)
  }
}
