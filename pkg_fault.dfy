/** Package `pkg/fault`: the Fault type whose `Is` compares tags, the
    `GetTag` walk along an error chain, the struct-literal constructors that
    leave the field list nil, and the status and body `NewHTTPError` picks. */
module PkgFault {
  import opened Wrappers
  import opened Errors
  import opened FaultOptions

  // The tags declared by the package.
  const UNTAGGED: Tag := "UNTAGGED"
  const BAD_REQUEST: Tag := "BAD_REQUEST"
  const NOT_FOUND: Tag := "NOT_FOUND"
  const INTERNAL_SERVER_ERROR: Tag := "INTERNAL_SERVER_ERROR"
  const UNAUTHORIZED: Tag := "UNAUTHORIZED"
  const FORBIDDEN: Tag := "FORBIDDEN"
  const CONFLICT: Tag := "CONFLICT"
  const TOO_MANY_REQUESTS: Tag := "TOO_MANY_REQUESTS"
  const UNPROCESSABLE_ENTITY: Tag := "UNPROCESSABLE_ENTITY"

  // Tags the package's code uses whose declarations are not part of this
  // model; the strings are stand-ins, only their being non-empty matters.
  const Untagged: Tag := "Untagged"
  const NotFound: Tag := "NotFound"
  const DB: Tag := "DB"

  /** `NewFieldError`: the pair, unchanged. */
  function NewFieldError(field: string, message: string): (e: FieldError)
    ensures e.field == field && e.message == message
  {
    FieldError(field, message)
  }

  /** `New(msg, options...)`: 400, Untagged, an empty non-nil field list and
      no cause, then every option in order. */
  method New(msg: string, opts: seq<Configure>) returns (f: Fault)
    ensures f == Built(Untagged, msg, opts)
  {
    f := Construct(Untagged, msg, opts);
  }

  /** `WithFieldError(args...)` stores exactly the given entries, in order,
      whatever the options before it stored. */
  lemma WithFieldErrorReplaces(msg: string, opts: seq<Configure>, entries: seq<FieldError>)
    ensures Built(Untagged, msg, opts + [WithFieldError(Items(entries))]).fields.Elements() == entries
  {
    assert (opts + [WithFieldError(Items(entries))])[..|opts|] == opts;
  }

  // ---------------------------------------------------------------------
  // Accessors

  /** `Is`: `errors.As` finds the first Fault of this package in the target's
      chain, and the answer is whether its tag equals the receiver's. */
  function Is(f: Fault, target: Option<Error>): (r: bool)
    ensures r <==> exists i :: 0 <= i < |ChainOf(target)| && IsFaultOf(ChainOf(target)[i], Pkg)
                               && ChainOf(target)[i].fault.tag == f.tag
                               && forall j :: 0 <= j < i ==> !IsFaultOf(ChainOf(target)[j], Pkg)
  {
    match AsFault(target, Pkg)
    case None => false
    case Some(t) => f.tag == t.tag
  }

  /** A Fault matches itself. */
  lemma IsReflexive(f: Fault)
    ensures Is(f, Some(FaultError(Pkg, f)))
  {
    assert ChainOf(Some(FaultError(Pkg, f)))[0] == FaultError(Pkg, f);
  }

  /** Only the first Fault of the chain is compared: a matching tag deeper in
      the chain does not help when the outer Fault's tag differs. */
  lemma IsStopsAtFirstFault(f: Fault, outer: Fault)
    requires outer.tag != f.tag
    ensures !Is(f, Some(FaultError(Pkg, outer)))
  {
    assert ChainOf(Some(FaultError(Pkg, outer)))[0] == FaultError(Pkg, outer);
  }

  /** Unlike the other package's `Is`, Faults with different tags differ. */
  lemma IsComparesTags(f: Fault, g: Fault)
    ensures Is(f, Some(FaultError(Pkg, g))) <==> f.tag == g.tag
  {
    assert ChainOf(Some(FaultError(Pkg, g)))[0] == FaultError(Pkg, g);
  }

  function GetHTTPCode(f: Fault): (code: int)
    ensures code == f.httpCode
  {
    f.httpCode
  }

  /** `Error()` and `Unwrap`: "tag: message", then the cause's text when
      there is one; `Unwrap` hands back the cause. */
  lemma ErrorAndUnwrap(f: Fault)
    ensures f.cause.None? ==> Text(FaultError(Pkg, f)) == f.tag + ": " + f.message
    ensures f.cause.Some? ==>
              Text(FaultError(Pkg, f)) == f.tag + ": " + f.message + " (caused by: " + Text(f.cause.value) + ")"
    ensures Unwrap(FaultError(Pkg, f)) == f.cause
  {
  }

  // ---------------------------------------------------------------------
  // GetTag

  /** A link `GetTag` stops at: directly a Fault of this package, with a
      non-empty tag. */
  predicate Tagged(x: Error) {
    x.FaultError? && x.variant == Pkg && x.fault.tag != ""
  }

  /** The tag `GetTag` reports: that of the first tagged link, or UNTAGGED. */
  function FirstTag(err: Option<Error>): (t: Tag)
    ensures t == UNTAGGED || exists i :: 0 <= i < |ChainOf(err)| && Tagged(ChainOf(err)[i])
                                         && ChainOf(err)[i].fault.tag == t
    ensures (forall i :: 0 <= i < |ChainOf(err)| ==> !Tagged(ChainOf(err)[i])) ==> t == UNTAGGED
    ensures forall i ::
              0 <= i < |ChainOf(err)| && Tagged(ChainOf(err)[i]) && (forall j :: 0 <= j < i ==> !Tagged(ChainOf(err)[j]))
              ==> t == ChainOf(err)[i].fault.tag
  {
    var c := ChainOf(err);
    match FirstMatch(c, Tagged)
    case None => UNTAGGED
    case Some(k) =>
      assert forall i :: 0 <= i < |c| && Tagged(c[i]) && (forall j :: 0 <= j < i ==> !Tagged(c[j])) ==> i == k;
      c[k].fault.tag
  }

  /** The walk one link at a time: a tagged link answers, any other link
      (an untagged Fault, the other package's Fault, a wrapper) passes the
      question on to what it unwraps to. */
  lemma FirstTagStep(e: Error)
    ensures FirstTag(Some(e)) == if Tagged(e) then e.fault.tag else FirstTag(Unwrap(e))
  {
    ChainStep(e);
    var c := Chain(e);
    if Tagged(e) {
      assert FirstMatch(c, Tagged) == Some(0);
    } else {
      var rest := ChainOf(Unwrap(e));
      assert c[1..] == rest;
      FirstMatchTail(c, Tagged);
      match FirstMatch(rest, Tagged)
      case None =>
      case Some(k) => assert c[k + 1] == rest[k];
    }
  }

  /** When the first element fails the test, the search goes on in the rest. */
  lemma FirstMatchTail(c: seq<Error>, p: Error -> bool)
    requires c != [] && !p(c[0])
    ensures FirstMatch(c, p) == match FirstMatch(c[1..], p) case None => None case Some(k) => Some(k + 1)
  {
  }

  /** `GetTag`: walk the chain outermost first, stopping at the first tagged
      Fault of this package; nil and an exhausted chain give UNTAGGED. */
  method GetTag(err: Option<Error>) returns (tag: Tag)
    ensures tag == FirstTag(err)
  {
    if err.None? {
      return UNTAGGED;
    }
    var cur := err;
    while cur.Some?
      invariant FirstTag(cur) == FirstTag(err)
      decreases |ChainOf(cur)|
    {
      var e := cur.value;
      FirstTagStep(e);
      if e.FaultError? && e.variant == Pkg && e.fault.tag != "" {
        return e.fault.tag;
      }
      ChainStep(e);
      cur := Unwrap(e);
    }
    return UNTAGGED;
  }

  /** Faults with an empty tag are skipped and the walk goes into the cause. */
  lemma GetTagSkipsEmptyTag(f: Fault)
    requires f.tag == ""
    ensures FirstTag(Some(FaultError(Pkg, f))) == FirstTag(f.cause)
  {
    FirstTagStep(FaultError(Pkg, f));
  }

  /** Faults of the other package are passed over whatever their tag. */
  lemma GetTagSkipsLegacyFault(f: Fault)
    ensures FirstTag(Some(FaultError(Legacy, f))) == FirstTag(f.cause)
  {
    var e := FaultError(Legacy, f);
    assert !Tagged(e) && Unwrap(e) == f.cause;
    FirstTagStep(e);
  }

  /** A wrapper does not hide the tag of what it wraps. */
  lemma GetTagThroughWrapper(context: string, next: Error)
    ensures FirstTag(Some(Wrapped(context, next))) == FirstTag(Some(next))
  {
    FirstTagStep(Wrapped(context, next));
  }

  // ---------------------------------------------------------------------
  // Struct-literal constructors (instances.go)

  /** Each constructor fixes the code and tag, keeps the message, sets no
      cause and leaves the field list nil (JSON null), unlike `New`. */
  function NewBadRequest(msg: string): (f: Fault)
    ensures f.httpCode == StatusBadRequest && f.tag == BAD_REQUEST
    ensures f.message == msg && f.cause.None? && f.fields.Nil?
  {
    Fault(StatusBadRequest, msg, Nil, BAD_REQUEST, None)
  }

  function NewNotFound(msg: string): (f: Fault)
    ensures f.httpCode == StatusNotFound && f.tag == NOT_FOUND
    ensures f.message == msg && f.cause.None? && f.fields.Nil?
  {
    Fault(StatusNotFound, msg, Nil, NOT_FOUND, None)
  }

  function NewInternalServerError(msg: string): (f: Fault)
    ensures f.httpCode == StatusInternalServerError && f.tag == INTERNAL_SERVER_ERROR
    ensures f.message == msg && f.cause.None? && f.fields.Nil?
  {
    Fault(StatusInternalServerError, msg, Nil, INTERNAL_SERVER_ERROR, None)
  }

  function NewUnauthorized(msg: string): (f: Fault)
    ensures f.httpCode == StatusUnauthorized && f.tag == UNAUTHORIZED
    ensures f.message == msg && f.cause.None? && f.fields.Nil?
  {
    Fault(StatusUnauthorized, msg, Nil, UNAUTHORIZED, None)
  }

  function NewForbidden(msg: string): (f: Fault)
    ensures f.httpCode == StatusForbidden && f.tag == FORBIDDEN
    ensures f.message == msg && f.cause.None? && f.fields.Nil?
  {
    Fault(StatusForbidden, msg, Nil, FORBIDDEN, None)
  }

  function NewConflict(msg: string): (f: Fault)
    ensures f.httpCode == StatusConflict && f.tag == CONFLICT
    ensures f.message == msg && f.cause.None? && f.fields.Nil?
  {
    Fault(StatusConflict, msg, Nil, CONFLICT, None)
  }

  function NewTooManyRequests(msg: string): (f: Fault)
    ensures f.httpCode == StatusTooManyRequests && f.tag == TOO_MANY_REQUESTS
    ensures f.message == msg && f.cause.None? && f.fields.Nil?
  {
    Fault(StatusTooManyRequests, msg, Nil, TOO_MANY_REQUESTS, None)
  }

  /** The same code and tag through `New` give a different Fault: `New`
      starts from an empty non-nil list, the literal leaves it nil. */
  lemma LiteralDiffersFromNew(msg: string)
    ensures Built(Untagged, msg, [WithHTTPCode(StatusBadRequest), WithTag(BAD_REQUEST)]) != NewBadRequest(msg)
    ensures Built(Untagged, msg, [WithHTTPCode(StatusBadRequest), WithTag(BAD_REQUEST)]).fields == Items([])
  {
    ApplyAllTwo(Defaults(Untagged, msg), WithHTTPCode(StatusBadRequest), WithTag(BAD_REQUEST));
  }

  /** `GetTag` on a constructed Fault reports the constructor's tag, and its
      `Error()` is "<tag>: <message>". */
  lemma ConstructorTags(msg: string)
    ensures FirstTag(Some(FaultError(Pkg, NewBadRequest(msg)))) == BAD_REQUEST
    ensures FirstTag(Some(FaultError(Pkg, NewNotFound(msg)))) == NOT_FOUND
    ensures FirstTag(Some(FaultError(Pkg, NewInternalServerError(msg)))) == INTERNAL_SERVER_ERROR
    ensures FirstTag(Some(FaultError(Pkg, NewUnauthorized(msg)))) == UNAUTHORIZED
    ensures FirstTag(Some(FaultError(Pkg, NewForbidden(msg)))) == FORBIDDEN
    ensures FirstTag(Some(FaultError(Pkg, NewConflict(msg)))) == CONFLICT
    ensures FirstTag(Some(FaultError(Pkg, NewTooManyRequests(msg)))) == TOO_MANY_REQUESTS
    ensures Text(FaultError(Pkg, NewBadRequest(msg))) == BAD_REQUEST + ": " + msg
    ensures Text(FaultError(Pkg, NewInternalServerError(msg))) == INTERNAL_SERVER_ERROR + ": " + msg
  {
    TaggedFaultAlone(NewBadRequest(msg));
    TaggedFaultAlone(NewNotFound(msg));
    TaggedFaultAlone(NewInternalServerError(msg));
    TaggedFaultAlone(NewUnauthorized(msg));
    TaggedFaultAlone(NewForbidden(msg));
    TaggedFaultAlone(NewConflict(msg));
    TaggedFaultAlone(NewTooManyRequests(msg));
  }

  /** A tagged Fault of this package with no cause is its own tag's answer. */
  lemma TaggedFaultAlone(f: Fault)
    requires f.tag != "" && f.cause.None?
    ensures FirstTag(Some(FaultError(Pkg, f))) == f.tag
    ensures Text(FaultError(Pkg, f)) == f.tag + ": " + f.message
  {
    FirstTagStep(FaultError(Pkg, f));
  }

  // ---------------------------------------------------------------------
  // NewHTTPError

  /** What is written for an error: a status code and the Fault encoded as
      the JSON body (its code, message and field list). */
  datatype Response = Response(status: int, body: Fault)

  /** The body sent when nothing better is known. */
  function Unexpected(): (r: Response)
    ensures r.status == StatusInternalServerError && r.body.httpCode == r.status
    ensures r.body.tag == INTERNAL_SERVER_ERROR && r.body.message == "an unexpected error occurred"
    ensures r.body.fields.Nil? && r.body.cause.None?
  {
    Response(StatusInternalServerError, NewInternalServerError("an unexpected error occurred"))
  }

  /** `NewHTTPError`: only an error that is itself a Fault of this package is
      sent as it is; anything else, nil and wrapped Faults included, becomes
      the 500 body. */
  function NewHTTPError(err: Option<Error>): (r: Response)
    ensures (err.Some? && IsFaultOf(err.value, Pkg)) ==> r == Response(err.value.fault.httpCode, err.value.fault)
    ensures !(err.Some? && IsFaultOf(err.value, Pkg)) ==> r == Unexpected()
    ensures r.status == r.body.httpCode
  {
    if err.Some? && err.value.FaultError? && err.value.variant == Pkg then
      var f := err.value.fault;
      Response(GetHTTPCode(f), f)
    else
      Unexpected()
  }

  /** A Fault wrapped in another error is not looked for. */
  lemma NewHTTPErrorIgnoresWrappedFault(context: string, f: Fault)
    requires f.httpCode != StatusInternalServerError
    ensures NewHTTPError(Some(Wrapped(context, FaultError(Pkg, f)))).status == StatusInternalServerError
    ensures NewHTTPError(Some(FaultError(Pkg, f))).status == f.httpCode
  {
  }
}
