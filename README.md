# gogem core, modelled in Dafny

`gogem` is a set of small Go utility packages for HTTP services. This project
models the self-contained logic among them and proves properties of it:

- **Tagged error values ("Faults").** There are two coexisting variants:
  - package `fault` (`fault/`);
  - package `pkg/fault` (`pkg/fault/`).

  A Fault is a record with:
  - an HTTP code;
  - a message;
  - a tag;
  - a field-error list, which may be nil or an empty slice;
  - an optional cause.

  Faults are built by folding option closures over defaults. They format as
  `tag: message` or `tag: message (caused by: …)` and unwrap to their cause.
  `Is` differs between the two variants:
  - in `fault`, it matches any Fault;
  - in `pkg/fault`, it compares the tag of the first Fault in the target's
    chain.

  `GetTag` walks a chain to the first non-empty tag. `WithValidationError`
  parses `field: message; field: message.` text into a list of field errors.
- **Error chain to HTTP response.** `WriteError` and `NewHTTPError` choose a
  status and a body from an error chain. The model is a datatype `Error` with
  these cases:
  - a plain error;
  - a sentinel;
  - a wrapper;
  - a Postgres error;
  - a Fault of either variant.
- **Query and header helpers:**
  - `ReadQueryInt`, `ReadQueryBool`, `ReadQueryString` and `ReadQueryArray`
    read from `url.Values`;
  - `GetClientIP` takes `X-Forwarded-For`, then `X-Real-IP`, then
    `RemoteAddr` with IPv6 brackets or the port stripped.
- **Cache-aside accessor.** A `Cache.Client` holds the key space as a
  `map<string, string>`. Its methods are `Get`, `Set`, `GetOrSet` and
  `Delete`. Backend failures and the JSON codec are parameters.
- **Pagination metadata.** `newPaginationMeta` computes a page count by
  integer ceiling division, using Go's truncating `/`, and sets the four
  navigation flags.
- **Postgres helpers:**
  - classifying unique violations (SQLSTATE 23505) and foreign-key
    violations (23503);
  - extracting the column from `Key (…)=` in the error detail, following the
    leftmost-first semantics of the RE2 pattern
    `(?i)Key\s*\(\s*(.*?)\s*\)\s*=`;
  - the begin, run, rollback and commit sequence of `ExecTx`.
- **Identifiers.** `uid.New` builds a 12-byte buffer:
  - bytes 0-3 are a big-endian 32-bit count of seconds since 1700000000;
  - bytes 4-11 are random.

  It formats the buffer as lowercase hex, optionally after `prefix_`.
- **Slice helpers** (`Map`, `ForEach`) and the **expandable field** of
  `pkg/apiutil`.

Files:
- `wrappers.dfy`: `Option` and `Result`.
- `strings.dfy`: the Go `strings` functions the core uses.
- `errors.dfy`: the error chain and the Fault record.
- `options.dfy`: the option fold shared by both `New` functions.
- `legacy_fault.dfy`: `fault/`.
- `pkg_fault.dfy`: `pkg/fault/`.
- `httputil.dfy`, `cache.dfy`, `pagination.dfy`, `dbutil.dfy`, `uid.dfy`,
  `function.dfy` and `apiutil.dfy`: one module per remaining package.

Status codes are those of section 15 of RFC 9110. Code 429 is from section 4
of RFC 6585.

## Model

| member | source | states |
|---|---|---|
| FaultOptions.Construct | fault/fault.go:28-44 | the option loop over a fresh Fault yields exactly the fold of the options over the defaults |
| FaultOptions.BuiltDefaults | pkg/fault/fault.go:31-47 | `New` keeps the message verbatim; with no option touching them the code is 400, the tag Untagged, the field list empty but not nil and the cause absent |
| FaultOptions.LastWriteWins | fault/fault.go:39-41 | for each field, the last option that writes it decides its value |
| FaultOptions.UntouchedSlot | pkg/fault/fault.go:42-44 | a field no option writes keeps its default |
| FaultOptions.ApplyOther | fault/fault.go:96-124 | each option builder writes only its own field; `WithErr(nil)` writes nothing |
| FaultOptions.ApplyAllTwo | pkg/fault/fault.go:42-44 | options apply left to right |
| FaultOptions.ApplyAll | pkg/fault/fault.go:42-44 | no option changes the message |
| LegacyFault.New | fault/fault.go:28-44 | `New` is the fold of its options over the defaults with tag Untagged |
| LegacyFault.WithValidationError | fault/fault.go:46-93 | a nil error gives a no-op option; otherwise the option sets the list parsed from the error's text |
| LegacyFault.CollectSegments | fault/fault.go:51-88 | the loop over the `;` segments appends one entry per kept segment, in input order, and leaves the list nil when none is kept |
| LegacyFault.ReadSegment | fault/fault.go:55-87 | one segment is trimmed, dropped when blank, turned into a `general` entry without a colon, or split at its first colon with both sides trimmed and dropped when either side is empty (the loop body computes `SegmentEntry`; each case is one of the lemmas BlankSegment, SegmentWithoutColon, SegmentAtColon and SegmentEmptySide) |
| LegacyFault.SegmentEntry | fault/fault.go:55-87 | a blank segment gives nothing; a kept entry has a non-empty, trimmed field without `:` |
| LegacyFault.ParseValidation | fault/fault.go:51-91 | a non-nil list holds at least one entry and at most one per `;`-separated segment |
| LegacyFault.SegmentEmptySide | fault/fault.go:69-75 | a segment `left:right` is dropped when either side trims to nothing |
| LegacyFault.PeriodOnlyMessage | fault/fault.go:73-87 | a message that is only `.` is not empty when tested, so the entry is kept with an empty message |
| LegacyFault.RemovePeriod | fault/fault.go:77-82 | exactly one trailing period is removed, and only when present |
| LegacyFault.ParseSegments | fault/fault.go:54-88 | at most one entry per segment |
| LegacyFault.ParseSegmentsAppend | fault/fault.go:54-88 | segments are parsed independently and their entries concatenated in input order |
| LegacyFault.BlankSegment | fault/fault.go:55-58 | a segment that trims to nothing contributes no entry |
| LegacyFault.SegmentWithoutColon | fault/fault.go:60-67 | a segment without `:` becomes field `general` with the trimmed segment as message, no period removed |
| LegacyFault.SegmentAtColon | fault/fault.go:60-87 | a segment splits at its first `:` only, both sides trimmed and one trailing period removed from the message |
| LegacyFault.SegmentOfEntry | fault/fault.go:69-87 | a padded `field : message.` segment yields exactly that field and message |
| LegacyFault.ParseRender | fault/fault.go:46-93 | rendering well-formed entries as `field: message` joined by `;` parses back to the same entries, in order |
| LegacyFault.EntriesShape | fault/fault.go:69-75 | every parsed entry has a non-empty, trimmed field; neither side contains `;` |
| LegacyFault.ValidationNilVersusBlank | fault/fault.go:47-92 | no error keeps the empty list of `New`; an error none of whose segments yields an entry overwrites it with nil |
| LegacyFault.AllDropped | fault/fault.go:54-88 | segments that each yield nothing give no entries |
| LegacyFault.BlankValidation | fault/fault.go:51-91 | any text made only of white space and `;` parses to a nil list |
| LegacyFault.GetHTTPCode | fault/fault.go:127-129 | the code stored in the Fault |
| LegacyFault.Is | fault/fault.go:138-141 | true exactly when the target's chain holds a Fault of package `fault`, whatever its tag or code |
| LegacyFault.IsMatchesAnyFault | fault/fault.go:138-141 | any Fault matches any other |
| LegacyFault.UnwrapIsCause | fault/fault.go:127-145 | `Unwrap` returns the cause, the chain continues with the cause's chain, and `GetHTTPCode` gives the stored code |
| LegacyFault.NewValidation | fault/instances.go:7-14 | code 422, tag ValidationError, message kept, no cause, the field list parsed from the error (empty when the error is nil) |
| LegacyFault.NewBadRequest | fault/instances.go:16-22 | code 400, tag BadRequest, empty list, no cause; its text is `tag: message` |
| LegacyFault.NewNotFound | fault/instances.go:24-30 | code 404, tag NotFound, empty list, no cause; its text is `tag: message` |
| LegacyFault.NewInternalServerError | fault/instances.go:32-38 | code 500, tag InternalServerError, empty list, no cause; its text is `tag: message` |
| LegacyFault.NewUnauthorized | fault/instances.go:40-46 | code 401, tag Unauthorized, empty list, no cause; its text is `tag: message` |
| LegacyFault.NewForbidden | fault/instances.go:48-54 | code 403, tag Forbidden, empty list, no cause; its text is `tag: message` |
| LegacyFault.NewConflict | fault/instances.go:56-62 | code 409, tag Conflict, empty list, no cause; its text is `tag: message` |
| LegacyFault.NewTooManyRequests | fault/instances.go:64-70 | code 429, tag TooManyRequests, empty list, no cause; its text is `tag: message` |
| LegacyFault.NewUnprocessableEntity | fault/instances.go:72-78 | code 422, tag UnprocessableEntity, empty list, no cause; its text is `tag: message` |
| Errors.FaultText | fault/fault.go:131-136 | `Error()` starts with `tag: message`, is exactly that without a cause, and otherwise appends ` (caused by: …)` with the cause's text |
| Errors.Unwrap | fault/fault.go:143-145 | a Fault unwraps to its cause, a wrapper to the error it wraps, and the result is smaller |
| Errors.Text | fault/fault.go:131-136 | a Fault's text is its `Error()`; a wrapper's text is its context, `: ` and the wrapped error's text |
| Errors.Chain | pkg/fault/fault.go:100-102 | a chain starts at the error itself and follows `Unwrap` |
| Errors.ChainStep | pkg/fault/fault.go:100-102 | the chain of an error is the error followed by the chain of what it unwraps to |
| Errors.AsFault | pkg/httputil/httputil.go:24-25 | `errors.As` finds a Fault of the requested package in the chain, or reports that there is none |
| Errors.FirstMatch | pkg/fault/fault.go:92-98 | the first link of a chain that satisfies a test, or none when no link does |
| PkgFault.NewFieldError | pkg/fault/fault.go:14-16 | field and message are returned unchanged |
| PkgFault.New | pkg/fault/fault.go:31-47 | `New` is the fold of its options over the defaults with tag Untagged |
| PkgFault.WithFieldErrorReplaces | pkg/fault/fault.go:74-78 | `WithFieldError` as the last option leaves exactly the given entries, in order |
| PkgFault.Is | pkg/fault/fault.go:92-98 | true exactly when the target's chain holds a `pkg/fault` Fault and the first such Fault has the receiver's tag |
| PkgFault.IsReflexive | pkg/fault/fault.go:92-98 | every Fault matches itself |
| PkgFault.IsStopsAtFirstFault | pkg/fault/fault.go:92-98 | only the first Fault of the target's chain is compared, even if a later one carries the receiver's tag |
| PkgFault.IsComparesTags | pkg/fault/fault.go:92-98 | against a bare Fault, `Is` holds exactly when the tags are equal |
| PkgFault.GetHTTPCode | pkg/fault/fault.go:81-83 | the code stored in the Fault |
| PkgFault.ErrorAndUnwrap | pkg/fault/fault.go:85-102 | `Error()` is `tag: message`, with ` (caused by: …)` when there is a cause; `Unwrap` returns the cause |
| PkgFault.FirstTag | pkg/fault/tag.go:49-63 | the tag of the first `pkg/fault` Fault in the chain with a non-empty tag; UNTAGGED when there is none, including for nil |
| PkgFault.GetTag | pkg/fault/tag.go:49-63 | the loop that reassigns the error along the chain returns the first non-empty tag of a `pkg/fault` Fault, and terminates |
| PkgFault.FirstTagStep | pkg/fault/tag.go:54-60 | one step of the walk: a tagged Fault answers its tag, anything else defers to what it unwraps to |
| PkgFault.GetTagSkipsEmptyTag | pkg/fault/tag.go:55-59 | a Fault with an empty tag is skipped and the walk goes on into its cause |
| PkgFault.GetTagSkipsLegacyFault | pkg/fault/tag.go:55 | a Fault of the other package is not a `*Fault` here and is skipped |
| PkgFault.GetTagThroughWrapper | pkg/fault/tag.go:59 | wrappers are unwrapped |
| PkgFault.ConstructorTags | pkg/fault/tag.go:35-37 | `GetTag` of each convenience constructor is its own tag, e.g. BAD_REQUEST for `NewBadRequest` |
| PkgFault.NewBadRequest | pkg/fault/instances.go:24-31 | code 400, tag BAD_REQUEST, message kept, no cause, nil field list |
| PkgFault.NewNotFound | pkg/fault/instances.go:33-40 | code 404, tag NOT_FOUND, message kept, no cause, nil field list |
| PkgFault.NewInternalServerError | pkg/fault/instances.go:42-49 | code 500, tag INTERNAL_SERVER_ERROR, message kept, no cause, nil field list |
| PkgFault.NewUnauthorized | pkg/fault/instances.go:51-58 | code 401, tag UNAUTHORIZED, message kept, no cause, nil field list |
| PkgFault.NewForbidden | pkg/fault/instances.go:60-67 | code 403, tag FORBIDDEN, message kept, no cause, nil field list |
| PkgFault.NewConflict | pkg/fault/instances.go:69-76 | code 409, tag CONFLICT, message kept, no cause, nil field list |
| PkgFault.NewTooManyRequests | pkg/fault/instances.go:78-85 | code 429, tag TOO_MANY_REQUESTS, message kept, no cause, nil field list |
| PkgFault.LiteralDiffersFromNew | pkg/fault/instances.go:24-31 | the struct-literal constructor differs from `New` with the same code and tag: a nil field list instead of an empty one |
| PkgFault.Unexpected | pkg/fault/instances.go:20-21 | the fallback response is 500 with a body tagged INTERNAL_SERVER_ERROR, message "an unexpected error occurred", a nil field list and no cause |
| PkgFault.NewHTTPError | pkg/fault/instances.go:11-22 | an error that is itself a `pkg/fault` Fault is sent with its own code and as body; anything else gets the 500 fallback |
| PkgFault.NewHTTPErrorIgnoresWrappedFault | pkg/fault/instances.go:14 | a Fault behind a wrapper is not recognised |
| HttpUtil.SentinelIs | pkg/httputil/sentinel.go:7-11 | `errors.Is` with a sentinel holds exactly when that sentinel itself is in the chain, so neither Fault's `Is` ever claims a sentinel |
| HttpUtil.WriteError | pkg/httputil/httputil.go:19-49 | the first `pkg/fault` Fault anywhere in the chain decides status and body; otherwise the result is 400 or 500 |
| HttpUtil.LinkIs | pkg/httputil/httputil.go:32-40 | a link matches a target equal to it, any Fault of package `fault` matches another, and a `pkg/fault` Fault matches one with its tag |
| HttpUtil.ErrorsIs | pkg/httputil/httputil.go:32-40 | nil matches nothing |
| HttpUtil.ErrorsIsStep | pkg/httputil/httputil.go:32-40 | `errors.Is` holds exactly when the first link matches or the rest of the chain does |
| HttpUtil.WriteErrorWithoutFault | pkg/httputil/httputil.go:31-48 | without a Fault, the sentinels are tried in order (unknown key, empty body, invalid field) and answered with 400, the BAD_REQUEST tag and each one's fixed message; anything else gets 500 and never the raw text |
| HttpUtil.WriteErrorVersusNewHTTPError | pkg/httputil/httputil.go:24-29 | `WriteError` finds a wrapped Fault that `NewHTTPError` misses; on a bare Fault they agree |
| HttpUtil.WriteErrorIgnoresLegacyFault | pkg/httputil/httputil.go:24-25 | a Fault of package `fault` is not a `pkg/fault` Fault and gets 500 |
| HttpUtil.Get | pkg/httputil/httputil.go:78 | `url.Values.Get` returns the first value of the key, or `""` |
| HttpUtil.Atoi | pkg/httputil/httputil.go:83 | a parse yields a value in the 64-bit range; a missing or non-digit body fails |
| HttpUtil.AtoiItoa | pkg/httputil/httputil.go:83 | every 64-bit integer's decimal text parses back to it |
| HttpUtil.NatDigits | pkg/httputil/httputil.go:83 | the decimal digits of a natural number, unsigned, denote that number |
| HttpUtil.ReadQueryInt | pkg/httputil/httputil.go:77-89 | 0 when the value is absent, empty or not an integer, the parsed value otherwise |
| HttpUtil.ReadQueryIntRoundTrip | pkg/httputil/httputil.go:77-89 | a stored integer is read back |
| HttpUtil.ParseBool | pkg/httputil/httputil.go:106 | exactly `1 t T TRUE true True` are true and `0 f F FALSE false False` are false |
| HttpUtil.ReadQueryBool | pkg/httputil/httputil.go:100-112 | true exactly when the value parses as true; false when absent, empty or unparsable |
| HttpUtil.ReadQueryBoolRoundTrip | pkg/httputil/httputil.go:100-112 | a stored boolean is read back |
| HttpUtil.ReadQueryString | pkg/httputil/httputil.go:122-128 | the stored first value, or `""` when absent |
| HttpUtil.QueryArray | pkg/httputil/httputil.go:140-153 | `[]` for an empty value; otherwise one trimmed entry per `,` segment, in order, empty ones kept, so commas plus one entries |
| HttpUtil.ReadQueryArray | pkg/httputil/httputil.go:140-153 | the loop that fills the preallocated slice produces exactly that list |
| HttpUtil.QueryArrayRoundTrip | pkg/httputil/httputil.go:140-153 | joining padded entries with commas reads back as the trimmed entries |
| HttpUtil.GetClientIP | pkg/httputil/httputil.go:230-260 | a non-empty X-Forwarded-For gives its trimmed first entry; else a non-empty X-Real-IP, trimmed; else RemoteAddr without brackets or port |
| HttpUtil.ForwardedForFirstEntry | pkg/httputil/httputil.go:232-236 | with several entries the first one, trimmed, is the client |
| HttpUtil.StripPort | pkg/httputil/httputil.go:245-259 | the fallback never lengthens the address |
| HttpUtil.StripPortHostPort | pkg/httputil/httputil.go:252-256 | `host:port` loses the text from the last colon |
| HttpUtil.StripPortBracketed | pkg/httputil/httputil.go:248-251 | `[host]…` gives the text strictly between the brackets |
| HttpUtil.StripPortUnchanged | pkg/httputil/httputil.go:245-259 | `[` without `]`, and an address without `:`, come back unchanged |
| Strings.TrimSpace | fault/fault.go:55 | the result is trimmed and no longer than the input |
| Strings.TrimSpaceEmpty | fault/fault.go:56 | the result is empty exactly when the input is all white space |
| Strings.TrimSpaceSlice | pkg/httputil/httputil.go:149 | the result is a contiguous slice of the input |
| Strings.TrimSpaceOfPadded | fault/fault.go:69-70 | white space around trimmed non-empty text is removed and nothing else |
| Strings.TrimSpaceIdempotent | fault/fault.go:55-70 | trimming twice is trimming once |
| Strings.IndexOf | pkg/httputil/httputil.go:249 | the first position of a character, or none when absent |
| Strings.LastIndexOf | pkg/httputil/httputil.go:254 | the last position of a character, or none when absent |
| Strings.Split | pkg/httputil/httputil.go:146 | one part more than separators, no part containing the separator |
| Strings.JoinSplit | pkg/httputil/httputil.go:146 | joining the parts with the separator gives the input back |
| Strings.SplitJoin | fault/fault.go:52 | parts free of the separator are recovered by splitting their join |
| Strings.SplitChars | fault/fault.go:52 | every character of every part comes from the input |
| Strings.SplitHead | pkg/httputil/httputil.go:235 | the first part is the text before the first separator, or all of it |
| Cache.CacheFault | pkg/cache/cache.go:54 | the package's Faults have code 400, an empty list, and the given message, tag and cause |
| Cache.Lookup | pkg/cache/cache.go:60-77 | a value comes back exactly when the backend answers, the key is there and decodes; backend error, absent key and decode error give the DB, NotFound and DB Faults with their messages and causes |
| Cache.Write | pkg/cache/cache.go:79-90 | the store changes exactly when encoding and the backend succeed, to map the key to the encoded value; otherwise the matching DB Fault is returned and nothing is written |
| Cache.GetOrSetOutcome | pkg/cache/cache.go:32-50 | the callback runs exactly when the read fails; a hit returns the cached value unchanged; a callback error returns the zero value and that error; a produced value is written and returned |
| Cache.Without | pkg/cache/cache.go:52-58 | exactly the listed keys are removed; the others keep their values |
| Cache.Client.constructor | pkg/cache/cache.go:25-30 | the client starts on the given key space |
| Cache.Client.Get | pkg/cache/cache.go:60-77 | returns the decoded value and no error, or the zero value and the Fault `Lookup` names; the store is not changed |
| Cache.Client.Set | pkg/cache/cache.go:79-90 | the returned error and the new store are those of `Write` |
| Cache.Client.GetOrSet | pkg/cache/cache.go:32-50 | value, error, whether the callback ran, and the new store are those of `GetOrSetOutcome` |
| Cache.Client.Delete | pkg/cache/cache.go:52-58 | a backend failure returns the DB Fault and removes nothing; otherwise the listed keys are removed |
| Cache.HitSkipsCallback | pkg/cache/cache.go:35-38 | on a hit the callback does not run and nothing is written |
| Cache.ProducerFailureWritesNothing | pkg/cache/cache.go:40-43 | a failing callback writes nothing, and its error comes back with the zero value |
| Cache.WriteFailureSwallowed | pkg/cache/cache.go:45-49 | a failed write still returns the produced value with a nil error |
| Cache.MissThenHit | pkg/cache/cache.go:32-50 | when the codec round-trips, after any miss (absent key, backend error or undecodable entry) whose value is written, the next call hits without running the callback |
| Cache.CacheFaultShape | pkg/cache/cache.go:68 | a wrapping Fault has code 400 and the given tag, unwraps to its cause, and the cause's chain follows it |
| Pagination.GoDiv | pkg/pagination/pagination.go:36 | Go's truncating division agrees with `/` on non-negative operands and meets the remainder identity |
| Pagination.NewPaginationMeta | pkg/pagination/pagination.go:35-52 | inputs are copied; for a non-negative count and a positive page size the page count is the ceiling of count over page size; previous exactly after page 1, next exactly before the last page, first exactly on page 1, last exactly on the last page |
| Pagination.CeilingBounds | pkg/pagination/pagination.go:36 | `(n + p - 1) / p` is the least page count whose pages hold `n` items |
| Pagination.New | pkg/pagination/pagination.go:30-33 | the data is returned unchanged beside metadata holding the inputs |
| Pagination.NoPagesIffNoItems | pkg/pagination/pagination.go:36 | there are no pages exactly when there are no items |
| Pagination.NavigationFlags | pkg/pagination/pagination.go:37-40 | on an existing page, next exactly when not last, previous exactly when not first, first exactly on page 1, last exactly on the last page |
| Pagination.EmptyCollection | pkg/pagination/pagination.go:36-40 | with no items, page 1 is first but not last, and has no neighbours |
| Pagination.LastPageHolds | pkg/pagination/pagination.go:36 | the last page holds between one item and a full page |
| DbUtil.AsPq | dbutil/dbutil.go:26-27 | `errors.As` gives a Postgres error of the chain with none before it, or none when there is none |
| DbUtil.MatchAt | dbutil/dbutil.go:29-30 | a match starts with `Key` at the position, and its capture holds no newline and fits in the rest of the text |
| DbUtil.FirstFrom | dbutil/dbutil.go:30 | the leftmost position that satisfies a test |
| DbUtil.KeyField | dbutil/dbutil.go:29-31 | the capture of the match at the leftmost position where one starts, present exactly when some position matches |
| DbUtil.Leftmost | dbutil/dbutil.go:30 | the leftmost matching position |
| DbUtil.SkipSpace | dbutil/dbutil.go:29 | `\s*` consumes exactly the white space run |
| DbUtil.GroupEnd | dbutil/dbutil.go:29 | the lazy group ends at a closing `\s*\)\s*=` |
| DbUtil.GroupEndAt | dbutil/dbutil.go:29 | the lazy group stops at the first close after characters that do not close it |
| DbUtil.KeyOfDetail | dbutil/dbutil.go:29-31 | a detail starting `Key`, in any letter case (the Kelvin sign included), then `(field)=` with any white space around either parenthesis, yields that field |
| DbUtil.CaptureTrimmed | dbutil/dbutil.go:29 | a non-empty capture neither starts nor ends with white space |
| DbUtil.PostgresDetail | dbutil/dbutil.go:29-31 | the detail Postgres writes, `Key (field)=…`, yields that field |
| DbUtil.DbFault | dbutil/dbutil.go:33 | code 400, tag DB, the message, no cause |
| DbUtil.Verify | dbutil/dbutil.go:25-37 | a Fault and the captured field exactly when the first Postgres error has the code; `""` and nil otherwise |
| DbUtil.VerifyDuplicatedKey | dbutil/dbutil.go:25-37 | on code 23505, the captured field and the DB Fault "duplicated constraint key"; `""` and nil otherwise |
| DbUtil.VerifyForeignKeyViolation | dbutil/dbutil.go:51-63 | on code 23503, the captured field and the DB Fault "foreign key constraint violation"; `""` and nil otherwise |
| DbUtil.AsPqSkips | dbutil/dbutil.go:27 | a link that is not a Postgres error is looked through |
| DbUtil.DuplicatedKeyThroughWrapper | dbutil/dbutil.go:25-33 | a wrapped unique violation is still found and its column reported |
| DbUtil.NotAViolation | dbutil/dbutil.go:36 | any other code, or no Postgres error, gives `""` and nil from both functions |
| DbUtil.TxFault | dbutil/dbutil.go:68 | code 400, tag TX, the message, unwrapping to the cause |
| DbUtil.ExecTx | dbutil/dbutil.go:65-83 | a begin failure stops before running; a failed run rolls back and never commits, a failed rollback hiding the run's error; a successful run commits and never rolls back; nil only when all succeed |
| Uid.Stamp | pkg/uid/uid.go:34 | the stamp is below 2^32 and, inside the 32-bit window, the seconds since 1700000000 |
| Uid.PutUint32 | pkg/uid/uid.go:35 | four bytes whose big-endian value is the argument |
| Uid.Format | pkg/uid/uid.go:42-46 | the id is the prefix and `_` when the prefix is non-empty, followed by two hex digits per byte |
| Uid.Layout | pkg/uid/uid.go:33-40 | the random bytes follow the four stamp bytes |
| Uid.PutUint32IsBigEndian | pkg/uid/uid.go:35 | the four bytes are the big-endian encoding of the stamp |
| Uid.BigEndianRoundTrip | pkg/uid/uid.go:35 | a big-endian encoding decodes back to its value |
| Uid.Hex | pkg/uid/uid.go:42-46 | two lowercase hex digits per byte |
| Uid.UnHexHex | pkg/uid/uid.go:42-46 | the hex text decodes back to the bytes |
| Uid.DigitValue | pkg/uid/uid.go:43 | each hex digit stands for one value below 16 |
| Uid.New | pkg/uid/uid.go:32-47 | the buffer filled in place and formatted gives the formatting of the stamp followed by the random bytes |
| Uid.IdShape | pkg/uid/uid.go:42-46 | without a prefix the id is 24 hex digits; with one it is `prefix_` and 24 hex digits; the digits decode to the buffer |
| Uid.LayoutFields | pkg/uid/uid.go:33-40 | bytes 0-3 decode to the stamp and bytes 4-11 are the random bytes |
| Uid.FormatInjective | pkg/uid/uid.go:42-46 | ids with the same prefix are equal only for equal buffers |
| Uid.BigEndianOrder | pkg/uid/uid.go:35 | a smaller value has a lexicographically smaller big-endian encoding |
| Uid.HexOrder | pkg/uid/uid.go:42-46 | hex encoding keeps the lexicographic order of equal-length byte strings |
| Uid.TimeSortable | pkg/uid/uid.go:32-47 | within the 32-bit window an earlier id sorts before a later one, whatever the random bytes |
| Functions.Map | function/function.go:15-24 | nil gives nil; otherwise the output has the input's length and its i-th element is the callback on the i-th input |
| Functions.MapEmpty | function/function.go:19-23 | an empty non-nil input gives an empty non-nil output |
| Functions.ForEach | function/function.go:37-41 | the state after the loop is the fold of the callback over the elements in index order |
| Functions.FoldAppend | function/function.go:38-40 | the calls for `a + b` are those for `a` and then those for `b` |
| Functions.ForEachVisitsInOrder | function/function.go:37-41 | a recording callback sees every element once, in order |
| ApiUtil.NewExpandableField | pkg/apiutil/expandable.go:15-32 | id and data are kept, and the value is expanded exactly when data is present |
| ApiUtil.MarshalJSON | pkg/apiutil/expandable.go:34-39 | the data is encoded exactly when the value is expanded |
| ApiUtil.MarshalConstructed | pkg/apiutil/expandable.go:15-39 | a constructed field encodes its data when given one and its id otherwise |
| ApiUtil.MarshalRecovers | pkg/apiutil/expandable.go:34-39 | the encoding of a consistent value holds its data, which is present, or its id |

## Left out

- Packages outside the core:
  - the logger, the HTTP server and the SQS queue;
  - the crypto helpers (JWT, HMAC, bcrypt, OTP);
  - the JSONB adaptor;
  - `ReadRequestBody`, `WriteJSON`, `WriteSuccess` and the request decorator.

  They are thin wrappers over foreign libraries, concurrency or I/O.
- Writing the response. `WriteError` and `NewHTTPError` are modelled as the
  choice of status and body. Headers, the writer and the JSON encoding are
  not modelled.
- JSON. The cache codec is a pair of `encode`/`decode` parameters. The body
  of `MarshalJSON` is the datatype `ApiUtil.Encoded`, not bytes. A nil field
  list versus an empty one (JSON `null` versus `[]`) is kept as
  `Errors.FieldList`.
- The Redis backend is not modelled:
  - no network, TTL expiry or warning log;
  - a backend failure is an `Option<Error>` parameter;
  - no concurrent callers (the code gives no single-flight guarantee);
  - Redis answering `redis.Nil` is modelled as the key being absent from
    the map.
- Time and randomness. `uid.New` takes the current Unix time and the eight
  random bytes as parameters. Uid.New: a failure of the random source (a
  panic) is not modelled.
- `uid.IsValid` is not part of this model. `ApiUtil.NewExpandableField`
  takes the id validator as a parameter, and its panic on a rejected id is
  a precondition.
- DbUtil.VerifyDuplicatedKey and DbUtil.VerifyForeignKeyViolation: the
  panic on a matching code whose detail has no `Key (…)=` is a
  precondition (`DetailHasKey`). The regular-expression engine is replaced
  by a direct leftmost-first extractor for that one pattern.
- DbUtil.ExecTx: the effects of `fn` on the transaction are not modelled.
  The outcomes of begin, `fn`, rollback and commit are parameters, and the
  steps taken are returned.
- Pagination.NewPaginationMeta: Go's 64-bit `int` overflow in
  `totalItems + itemsPerPage - 1` is not modelled. The page-count bounds are
  stated for a non-negative count and a positive page size only, and a page
  size of zero (a division panic) is a precondition.
- Option closures. Functional options are the datatype
  `FaultOptions.Configure`, one case per option builder of the packages.
  Caller-written closures are not modelled.
- Error identity. Go compares sentinel errors by pointer; the model
  compares the datatype's values. Errors joined with `errors.Join` are not
  modelled: a chain is linear.
- Tag constants defined outside the modelled files have placeholder
  string values:
  - in `fault`: Untagged, DB, TX, ValidationError, BadRequest and the other
    status tags;
  - in `pkg/fault`: Untagged, NotFound and DB.

  Only their distinctness and non-emptiness are used.
- `fmt`'s `%v` of a cause is the cause's own `Error()` text
  (`Errors.Text`).
- Functions.Map and Functions.ForEach: callbacks are side-effect free.
  `ForEach`'s side effect is modelled as a state the callback threads from
  call to call.
- Strings are sequences of characters (code points), not the UTF-8 bytes
  Go's strings hold. The two agree on valid UTF-8; on invalid bytes Go's
  `TrimSpace` and byte indexing could differ from the model.
- `strconv.Atoi` is modelled as an optional sign followed by decimal digits
  in the 64-bit range. Go's detailed error values are not modelled.
- Where the source's comments and its code disagree, the model follows the
  code:
  - `ReadQueryInt`, `ReadQueryBool` and `ReadQueryString` have no `defval`
    parameter, although their comments at
    pkg/httputil/httputil.go:67-76, 91-99 and 114-121 describe one. They
    return `0`, `false` and `""`.
  - The comment on `uid.New` (pkg/uid/uid.go:12-31) describes 27-character
    base62 KSUIDs with 16 random bytes. The code writes 24 hex digits of a
    4-byte stamp and 8 random bytes.
  - The pagination package documentation names the JSON fields `items` and
    `pagination`. The code uses `data` and `meta`.
