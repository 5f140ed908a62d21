/** Package `fault`: the Fault type whose `Is` matches any Fault, the parser
    that turns a validator's "field: message; field: message." text into
    field errors, and the convenience constructors built on `New`. */
module LegacyFault {
  import opened Wrappers
  import opened Strings
  import opened Errors
  import opened FaultOptions

  // The package's tags. Their declarations are not part of this model, so
  // the strings are stand-ins; nothing below depends on them beyond their
  // being distinct and non-empty.
  const Untagged: Tag := "Untagged"
  const BadRequest: Tag := "BadRequest"
  const NotFound: Tag := "NotFound"
  const InternalServerError: Tag := "InternalServerError"
  const Unauthorized: Tag := "Unauthorized"
  const Forbidden: Tag := "Forbidden"
  const Conflict: Tag := "Conflict"
  const TooManyRequests: Tag := "TooManyRequests"
  const ValidationError: Tag := "ValidationError"
  const UnprocessableEntity: Tag := "UnprocessableEntity"
  const DB: Tag := "DB"
  const TX: Tag := "TX"

  /** `New(msg, options...)`: 400, Untagged, an empty non-nil field list and
      no cause, then every option in order. */
  method New(msg: string, opts: seq<Configure>) returns (f: Fault)
    ensures f == Built(Untagged, msg, opts)
  {
    f := Construct(Untagged, msg, opts);
  }

  // ---------------------------------------------------------------------
  // WithValidationError

  /** Drops exactly one trailing period, if there is one. */
  function RemovePeriod(s: string): (r: string)
    ensures |s| > 0 && s[|s| - 1] == '.' ==> r + "." == s
    ensures !(|s| > 0 && s[|s| - 1] == '.') ==> r == s
  {
    if |s| > 0 && s[|s| - 1] == '.' then s[..|s| - 1] else s
  }

  /** The field error one `;`-separated segment contributes, if any. */
  function SegmentEntry(segment: string): (r: Option<FieldError>)
    ensures AllSpace(segment) ==> r.None?
    ensures r.Some? ==> r.value.field != "" && Trimmed(r.value.field) && ':' !in r.value.field
  {
    var validation := TrimSpace(segment);
    TrimSpaceEmpty(segment);
    if validation == "" then None
    else
      match IndexOf(validation, ':')
      case None => Some(FieldError("general", validation))
      case Some(k) =>
        var field := TrimSpace(validation[..k]);
        var msg := TrimSpace(validation[k + 1..]);
        TrimSpaceKeepsOut(validation[..k], ':');
        if field == "" || msg == "" then None
        else Some(FieldError(field, RemovePeriod(msg)))
  }

  /** The entries one segment contributes: none or one. */
  function Contribution(segment: string): (r: seq<FieldError>)
    ensures |r| <= 1
  {
    match SegmentEntry(segment)
    case None => []
    case Some(e) => [e]
  }

  /** The entries a run of segments contributes, in segment order. */
  function ParseSegments(segments: seq<string>): (r: seq<FieldError>)
    ensures |r| <= |segments|
  {
    if segments == [] then []
    else
      var n := |segments| - 1;
      ParseSegments(segments[..n]) + Contribution(segments[n])
  }

  /** The slice `validations` after the loop: nil when nothing was appended. */
  function AsFieldList(entries: seq<FieldError>): FieldList {
    if entries == [] then Nil else Items(entries)
  }

  /** The field list `WithValidationError` computes from an error's text. */
  function ParseValidation(text: string): (r: FieldList)
    ensures r.Items? ==> 1 <= |r.entries| <= multiset(text)[';'] + 1
  {
    AsFieldList(ParseSegments(Split(text, ';')))
  }

  /** The closure `WithValidationError(err)` returns. */
  function ValidationOption(err: Option<Error>): Configure {
    if err.None? then Keep else WithFieldError(ParseValidation(Text(err.value)))
  }

  /** The body of the segment loop: trim, skip blanks, split at the first
      colon, skip a blank field or message, drop one trailing period. */
  method ReadSegment(segment: string) returns (e: Option<FieldError>)
    ensures e == SegmentEntry(segment)
  {
    var validation := TrimSpace(segment);
    if validation == "" {
      return None;
    }
    var colon := IndexOf(validation, ':');
    if colon.None? {
      return Some(FieldError("general", validation));
    }
    var field := TrimSpace(validation[..colon.value]);
    var msg := TrimSpace(validation[colon.value + 1..]);
    if field == "" || msg == "" {
      return None;
    }
    return Some(FieldError(field, RemovePeriod(msg)));
  }

  /** `WithValidationError`: split the error's text at ';', collect the
      field errors, and return the closure that stores them. */
  method WithValidationError(err: Option<Error>) returns (o: Configure)
    ensures o == ValidationOption(err)
  {
    if err.None? {
      return Keep;
    }
    var split := Split(Text(err.value), ';');
    var validations := CollectSegments(split);
    return WithFieldError(validations);
  }

  /** The segment loop: append each segment's entry to a slice that starts
      nil. */
  method CollectSegments(split: seq<string>) returns (validations: FieldList)
    ensures validations == AsFieldList(ParseSegments(split))
  {
    validations := Nil;
    for i := 0 to |split|
      invariant validations == AsFieldList(ParseSegments(split[..i]))
    {
      ParseSegmentsPrefix(split, i);
      ghost var before := ParseSegments(split[..i]);
      var entry := ReadSegment(split[i]);
      if entry.Some? {
        AsFieldListAppend(before, entry.value);
        validations := validations.Append(entry.value);
      } else {
        assert before + Contribution(split[i]) == before;
      }
    }
    assert split[..|split|] == split;
  }

  /** Appending to the loop's slice is appending to the entries. */
  lemma AsFieldListAppend(entries: seq<FieldError>, e: FieldError)
    ensures AsFieldList(entries + [e]) == AsFieldList(entries).Append(e)
  {
  }

  /** One more segment adds its contribution at the end. */
  lemma ParseSegmentsSnoc(segments: seq<string>, segment: string)
    ensures ParseSegments(segments + [segment]) == ParseSegments(segments) + Contribution(segment)
  {
    assert (segments + [segment])[..|segments|] == segments;
  }

  /** The loop's step: one segment further, one contribution more. */
  lemma ParseSegmentsPrefix(segments: seq<string>, i: nat)
    requires i < |segments|
    ensures ParseSegments(segments[..i + 1]) == ParseSegments(segments[..i]) + Contribution(segments[i])
  {
    assert segments[..i + 1][..i] == segments[..i];
  }

  /** Parsing is segment by segment: the entries of two runs of segments
      are the entries of the first followed by those of the second. */
  lemma {:induction false} ParseSegmentsAppend(a: seq<string>, b: seq<string>)
    ensures ParseSegments(a + b) == ParseSegments(a) + ParseSegments(b)
    decreases |b|
  {
    if b == [] {
      assert a + b == a;
    } else {
      var n := |b| - 1;
      var c := Contribution(b[n]);
      DropLast(b);
      assert a + b == (a + b[..n]) + [b[n]];
      calc {
        ParseSegments(a + b);
        { ParseSegmentsSnoc(a + b[..n], b[n]); }
        ParseSegments(a + b[..n]) + c;
        { ParseSegmentsAppend(a, b[..n]); }
        ParseSegments(a) + ParseSegments(b[..n]) + c;
        { ParseSegmentsSnoc(b[..n], b[n]); }
        ParseSegments(a) + ParseSegments(b);
      }
    }
  }

  /** A blank segment contributes nothing. */
  lemma BlankSegment(segment: string)
    requires AllSpace(segment)
    ensures SegmentEntry(segment) == None
  {
  }

  /** A segment without a colon becomes a "general" entry holding the trimmed
      segment, its trailing period kept. */
  lemma SegmentWithoutColon(segment: string)
    requires ':' !in segment && !AllSpace(segment)
    ensures SegmentEntry(segment) == Some(FieldError("general", TrimSpace(segment)))
  {
    TrimSpaceSlice(segment);
  }

  /** A segment whose trimmed text is `left:right`, with no colon in `left`,
      is split at that colon. */
  lemma SegmentAtColon(segment: string, left: string, right: string)
    requires TrimSpace(segment) == left + [':'] + right && ':' !in left
    requires TrimSpace(left) != "" && TrimSpace(right) != ""
    ensures SegmentEntry(segment) == Some(FieldError(TrimSpace(left), RemovePeriod(TrimSpace(right))))
  {
    var v := TrimSpace(segment);
    IndexAfterFree(left, right, ':');
    assert v[..|left|] == left;
    assert v[|left| + 1..] == right;
  }

  /** A segment whose trimmed text is `left:right`, with no colon in `left`,
      is dropped when either side trims to nothing. */
  lemma SegmentEmptySide(segment: string, left: string, right: string)
    requires TrimSpace(segment) == left + [':'] + right && ':' !in left
    requires TrimSpace(left) == "" || TrimSpace(right) == ""
    ensures SegmentEntry(segment) == None
  {
    var v := TrimSpace(segment);
    IndexAfterFree(left, right, ':');
    assert v[..|left|] == left;
    assert v[|left| + 1..] == right;
  }

  /** The emptiness test comes before the period is dropped: a message that
      is only a period is kept, and comes out empty. */
  lemma PeriodOnlyMessage(segment: string, left: string, right: string)
    requires TrimSpace(segment) == left + [':'] + right && ':' !in left
    requires TrimSpace(left) != "" && TrimSpace(right) == "."
    ensures SegmentEntry(segment) == Some(FieldError(TrimSpace(left), ""))
  {
    SegmentAtColon(segment, left, right);
  }

  /** A field error written out as "field: message." (with any white space
      around the parts) is read back as that field error: the split is at the
      first colon, so the message may hold colons, and one period is dropped. */
  lemma SegmentOfEntry(pre: string, field: string, mid1: string, mid2: string,
                       message: string, post: string)
    requires AllSpace(pre) && AllSpace(mid1) && AllSpace(mid2) && AllSpace(post)
    requires field != "" && Trimmed(field) && ':' !in field
    requires message != "" && Trimmed(message)
    ensures SegmentEntry(pre + field + mid1 + ":" + mid2 + message + "." + post)
            == Some(FieldError(field, message))
  {
    var left := field + mid1;
    var right := mid2 + (message + ".");
    var core := left + [':'] + right;
    assert core[0] == field[0];
    assert core[|core| - 1] == '.';
    TrimSpaceOfPadded(pre, core, post);
    Regroup(pre, field, mid1, ":", mid2, message, ".", post);
    assert ':' !in left by {
      assert forall i :: 0 <= i < |mid1| ==> IsSpace(mid1[i]);
    }
    TrimSpaceOfPadded([], field, mid1);
    assert [] + field + mid1 == left;
    TrimSpaceOfPrefixed(mid2, message + ".");
    SegmentAtColon(pre + core + post, left, right);
  }

  lemma Regroup<T>(a: seq<T>, b: seq<T>, c: seq<T>, d: seq<T>, e: seq<T>, f: seq<T>, g: seq<T>, h: seq<T>)
    ensures a + b + c + d + e + f + g + h == a + ((b + c) + d + (e + (f + g))) + h
  {
  }

  /** The segment "field: message." that writes out one field error. */
  function RenderEntry(e: FieldError): string {
    e.field + ": " + e.message + "."
  }

  /** One rendered segment per field error, in order. */
  function RenderSegments(entries: seq<FieldError>): (r: seq<string>)
    ensures |r| == |entries|
    ensures forall i :: 0 <= i < |r| ==> r[i] == RenderEntry(entries[i])
  {
    if entries == [] then []
    else
      var n := |entries| - 1;
      RenderSegments(entries[..n]) + [RenderEntry(entries[n])]
  }

  /** The text "f1: m1.;f2: m2.;..." that renders field errors. */
  function Render(entries: seq<FieldError>): string
    requires |entries| >= 1
  {
    Join(RenderSegments(entries), ';')
  }

  /** An entry the parser can produce and read back: a trimmed non-empty field
      without ':' or ';', and a trimmed non-empty message without ';'. */
  predicate WellFormed(e: FieldError) {
    e.field != "" && Trimmed(e.field) && ':' !in e.field && ';' !in e.field
    && e.message != "" && Trimmed(e.message) && ';' !in e.message
  }

  /** The segment "field: message." of a well-formed field error reads back
      as that field error. */
  lemma RenderedSegment(e: FieldError)
    requires WellFormed(e)
    ensures SegmentEntry(RenderEntry(e)) == Some(e)
  {
    var right := " " + (e.message + ".");
    assert RenderEntry(e) == e.field + [':'] + right;
    TrimSpaceOfTrimmed(RenderEntry(e));
    TrimSpaceOfTrimmed(e.field);
    TrimSpaceOfPrefixed(" ", e.message + ".");
    SegmentAtColon(RenderEntry(e), e.field, right);
  }

  lemma {:induction false} ParseRenderedSegments(entries: seq<FieldError>)
    requires forall i :: 0 <= i < |entries| ==> WellFormed(entries[i])
    ensures ParseSegments(RenderSegments(entries)) == entries
  {
    if entries != [] {
      var n := |entries| - 1;
      var e := entries[n];
      ParseRenderedSegments(entries[..n]);
      ParseSegmentsSnoc(RenderSegments(entries[..n]), RenderEntry(e));
      RenderedSegment(e);
      DropLast(entries);
    }
  }

  /** Parsing is the inverse of rendering: the text "f1: m1.;f2: m2." of a
      non-empty list of well-formed field errors parses back to that list. */
  lemma ParseRender(entries: seq<FieldError>)
    requires |entries| >= 1
    requires forall i :: 0 <= i < |entries| ==> WellFormed(entries[i])
    ensures ParseValidation(Render(entries)) == Items(entries)
  {
    var segs := RenderSegments(entries);
    forall i | 0 <= i < |segs| ensures ';' !in segs[i] {
      assert segs[i] == entries[i].field + ": " + entries[i].message + ".";
    }
    SplitJoin(segs, ';');
    ParseRenderedSegments(entries);
  }

  /** Every entry has a trimmed non-empty field without ';' and a message
      without ';'; colon-free segments are the only source of "general". */
  lemma EntriesShape(text: string)
    ensures forall e :: e in ParseValidation(text).Elements() ==>
              e.field != "" && Trimmed(e.field) && ';' !in e.field && ';' !in e.message
  {
    var segs := Split(text, ';');
    forall e | e in ParseSegments(segs)
      ensures e.field != "" && Trimmed(e.field) && ';' !in e.field && ';' !in e.message
    {
      var k := SegmentOfEntryIn(segs, e);
      EntryShape(segs[k]);
    }
  }

  /** An entry of a parse comes from one of the segments. */
  lemma {:induction false} SegmentOfEntryIn(segs: seq<string>, e: FieldError) returns (k: nat)
    requires e in ParseSegments(segs)
    ensures k < |segs| && SegmentEntry(segs[k]) == Some(e)
  {
    var n := |segs| - 1;
    if e in ParseSegments(segs[..n]) {
      k := SegmentOfEntryIn(segs[..n], e);
      assert segs[..n][k] == segs[k];
    } else {
      k := n;
    }
  }

  lemma EntryShape(segment: string)
    requires ';' !in segment
    ensures SegmentEntry(segment).Some? ==>
              var e := SegmentEntry(segment).value;
              ';' !in e.field && ';' !in e.message
  {
    var v := TrimSpace(segment);
    TrimSpaceKeepsOut(segment, ';');
    if v != "" {
      match IndexOf(v, ':')
      case None =>
        GeneralField();
        assert SegmentEntry(segment) == Some(FieldError("general", v));
      case Some(k) =>
        ColonEntryShape(v, k);
        var field := TrimSpace(v[..k]);
        var msg := TrimSpace(v[k + 1..]);
        assert SegmentEntry(segment).Some? ==> SegmentEntry(segment) == Some(FieldError(field, RemovePeriod(msg)));
    }
  }

  lemma GeneralField()
    ensures ';' !in "general"
  {
  }

  lemma ColonEntryShape(v: string, k: nat)
    requires ';' !in v && k < |v|
    ensures ';' !in TrimSpace(v[..k]) && ';' !in RemovePeriod(TrimSpace(v[k + 1..]))
  {
    assert ';' !in v[..k] && ';' !in v[k + 1..];
    TrimSpaceKeepsOut(v[..k], ';');
    TrimSpaceKeepsOut(v[k + 1..], ';');
    var msg := TrimSpace(v[k + 1..]);
    assert RemovePeriod(msg) <= msg;
  }

  // ---------------------------------------------------------------------
  // Accessors

  /** `Is`: true whenever the target's chain holds any Fault of this package,
      whatever its tag or code; the receiver plays no part. */
  function Is(f: Fault, target: Option<Error>): (r: bool)
    ensures r <==> exists i :: 0 <= i < |ChainOf(target)| && IsFaultOf(ChainOf(target)[i], Legacy)
  {
    AsFault(target, Legacy).Some?
  }

  /** Two Faults with different tags and codes still match each other. */
  lemma IsMatchesAnyFault(f: Fault, g: Fault)
    ensures Is(f, Some(FaultError(Legacy, g)))
  {
    assert ChainOf(Some(FaultError(Legacy, g)))[0] == FaultError(Legacy, g);
  }

  /** `Unwrap` returns the cause and `GetHTTPCode` the code. */
  lemma UnwrapIsCause(f: Fault)
    ensures Unwrap(FaultError(Legacy, f)) == f.cause
    ensures ChainOf(f.cause) == Chain(FaultError(Legacy, f))[1..]
    ensures GetHTTPCode(f) == f.httpCode
  {
    ChainStep(FaultError(Legacy, f));
  }

  /** `GetHTTPCode`: the code stored in the Fault. */
  function GetHTTPCode(f: Fault): (code: int)
    ensures code == f.httpCode
  {
    f.httpCode
  }

  // ---------------------------------------------------------------------
  // Convenience constructors (instances.go)

  /** `NewValidation`: 422, ValidationError, and the parse of `err` (the
      empty non-nil list when `err` is nil). */
  function NewValidation(message: string, err: Option<Error>): (f: Fault)
    ensures f.httpCode == StatusUnprocessableEntity && f.tag == ValidationError
    ensures f.message == message && f.cause.None?
    ensures f.fields == if err.None? then Items([]) else ParseValidation(Text(err.value))
  {
    ApplyAllThree(Defaults(Untagged, message), WithHTTPCode(StatusUnprocessableEntity), WithTag(ValidationError), ValidationOption(err));
    Built(Untagged, message, [WithHTTPCode(StatusUnprocessableEntity), WithTag(ValidationError), ValidationOption(err)])
  }

  function NewBadRequest(message: string): (f: Fault)
    ensures f == Fault(StatusBadRequest, message, Items([]), BadRequest, None)
    ensures FaultText(f) == BadRequest + ": " + message
  {
    ApplyAllTwo(Defaults(Untagged, message), WithHTTPCode(StatusBadRequest), WithTag(BadRequest));
    Built(Untagged, message, [WithHTTPCode(StatusBadRequest), WithTag(BadRequest)])
  }

  function NewNotFound(message: string): (f: Fault)
    ensures f == Fault(StatusNotFound, message, Items([]), NotFound, None)
    ensures FaultText(f) == NotFound + ": " + message
  {
    ApplyAllTwo(Defaults(Untagged, message), WithHTTPCode(StatusNotFound), WithTag(NotFound));
    Built(Untagged, message, [WithHTTPCode(StatusNotFound), WithTag(NotFound)])
  }

  function NewInternalServerError(message: string): (f: Fault)
    ensures f == Fault(StatusInternalServerError, message, Items([]), InternalServerError, None)
    ensures FaultText(f) == InternalServerError + ": " + message
  {
    ApplyAllTwo(Defaults(Untagged, message), WithHTTPCode(StatusInternalServerError), WithTag(InternalServerError));
    Built(Untagged, message, [WithHTTPCode(StatusInternalServerError), WithTag(InternalServerError)])
  }

  function NewUnauthorized(message: string): (f: Fault)
    ensures f == Fault(StatusUnauthorized, message, Items([]), Unauthorized, None)
    ensures FaultText(f) == Unauthorized + ": " + message
  {
    ApplyAllTwo(Defaults(Untagged, message), WithHTTPCode(StatusUnauthorized), WithTag(Unauthorized));
    Built(Untagged, message, [WithHTTPCode(StatusUnauthorized), WithTag(Unauthorized)])
  }

  function NewForbidden(message: string): (f: Fault)
    ensures f == Fault(StatusForbidden, message, Items([]), Forbidden, None)
    ensures FaultText(f) == Forbidden + ": " + message
  {
    ApplyAllTwo(Defaults(Untagged, message), WithHTTPCode(StatusForbidden), WithTag(Forbidden));
    Built(Untagged, message, [WithHTTPCode(StatusForbidden), WithTag(Forbidden)])
  }

  function NewConflict(message: string): (f: Fault)
    ensures f == Fault(StatusConflict, message, Items([]), Conflict, None)
    ensures FaultText(f) == Conflict + ": " + message
  {
    ApplyAllTwo(Defaults(Untagged, message), WithHTTPCode(StatusConflict), WithTag(Conflict));
    Built(Untagged, message, [WithHTTPCode(StatusConflict), WithTag(Conflict)])
  }

  function NewTooManyRequests(message: string): (f: Fault)
    ensures f == Fault(StatusTooManyRequests, message, Items([]), TooManyRequests, None)
    ensures FaultText(f) == TooManyRequests + ": " + message
  {
    ApplyAllTwo(Defaults(Untagged, message), WithHTTPCode(StatusTooManyRequests), WithTag(TooManyRequests));
    Built(Untagged, message, [WithHTTPCode(StatusTooManyRequests), WithTag(TooManyRequests)])
  }

  function NewUnprocessableEntity(message: string): (f: Fault)
    ensures f == Fault(StatusUnprocessableEntity, message, Items([]), UnprocessableEntity, None)
    ensures FaultText(f) == UnprocessableEntity + ": " + message
  {
    ApplyAllTwo(Defaults(Untagged, message), WithHTTPCode(StatusUnprocessableEntity), WithTag(UnprocessableEntity));
    Built(Untagged, message, [WithHTTPCode(StatusUnprocessableEntity), WithTag(UnprocessableEntity)])
  }

  /** A nil error leaves the empty non-nil list of `New` in place, while an
      error none of whose segments yields an entry (blank ones, or ones with
      an empty side of the colon) overwrites it with nil. */
  lemma ValidationNilVersusBlank(message: string, err: Error)
    requires forall i :: 0 <= i < |Split(Text(err), ';')| ==> SegmentEntry(Split(Text(err), ';')[i]).None?
    ensures NewValidation(message, None).fields == Items([])
    ensures NewValidation(message, Some(err)).fields == Nil
  {
    AllDropped(Split(Text(err), ';'));
  }

  /** Segments that each yield nothing yield nothing together. */
  lemma {:induction false} AllDropped(segments: seq<string>)
    requires forall i :: 0 <= i < |segments| ==> SegmentEntry(segments[i]).None?
    ensures ParseSegments(segments) == []
  {
    if segments != [] {
      AllDropped(segments[..|segments| - 1]);
    }
  }

  /** Text made only of white space and semicolons parses to nil, however
      many segments it has. */
  lemma BlankValidation(text: string)
    requires forall i :: 0 <= i < |text| ==> IsSpace(text[i]) || text[i] == ';'
    ensures ParseValidation(text) == Nil
  {
    var segments := Split(text, ';');
    SplitChars(text, ';');
    forall i | 0 <= i < |segments|
      ensures SegmentEntry(segments[i]).None?
    {
      assert AllSpace(segments[i]) by {
        forall j | 0 <= j < |segments[i]|
          ensures IsSpace(segments[i][j])
        {
          assert segments[i][j] in text && segments[i][j] != ';';
        }
      }
    }
    AllDropped(segments);
  }
}
