/** Package `dbutil`: classification of Postgres constraint violations and
    the commit-or-rollback wrapper around a transaction. */
module DbUtil {
  import opened Wrappers
  import opened Errors
  import opened FaultOptions
  import LegacyFault

  /** SQLSTATE codes of class 23, integrity constraint violation. */
  const UniqueViolation: string := "23505"
  const ForeignKeyViolation: string := "23503"

  /** `errors.As(target, &pqErr)`: the first `*pq.Error` on the chain. */
  function AsPq(target: Option<Error>): (r: Option<Error>)
    ensures r.None? <==> forall i :: 0 <= i < |ChainOf(target)| ==> !ChainOf(target)[i].PqError?
    ensures r.Some? ==> r.value.PqError?
                        && exists i :: 0 <= i < |ChainOf(target)| && ChainOf(target)[i] == r.value
                                       && forall j :: 0 <= j < i ==> !ChainOf(target)[j].PqError?
  {
    var c := ChainOf(target);
    match FirstMatch(c, (x: Error) => x.PqError?)
    case None => None
    case Some(i) => assert c[i].PqError?; Some(c[i])
  }

  // The pattern `(?i)Key\s*\(\s*(.*?)\s*\)\s*=`, matched as RE2 does:
  // leftmost start, and at that start the greedy `\s*` and lazy `.*?`
  // preferences. `\s` is RE2's ASCII class and `.` stops at a newline.

  /** RE2's `\s`: tab, newline, form feed, carriage return and space. */
  predicate ReSpace(c: char) {
    c == '\t' || c == '\n' || c == '\U{000C}' || c == '\r' || c == ' '
  }

  /** Where a greedy `\s*` starting at `q` stops. */
  function SkipSpace(s: string, q: nat): (r: nat)
    requires q <= |s|
    ensures q <= r <= |s| && (r < |s| ==> !ReSpace(s[r]))
    ensures forall k :: q <= k < r ==> ReSpace(s[k])
    decreases |s| - q
  {
    if q < |s| && ReSpace(s[q]) then SkipSpace(s, q + 1) else q
  }

  /** `(?i)Key` at `p`; under simple case folding `k` also matches the
      Kelvin sign U+212A. */
  predicate KeyAt(s: string, p: nat) {
    p + 3 <= |s| && (s[p] == 'k' || s[p] == 'K' || s[p] == '\U{212A}')
    && (s[p + 1] == 'e' || s[p + 1] == 'E') && (s[p + 2] == 'y' || s[p + 2] == 'Y')
  }

  /** `\s*\)\s*=` matches at `q`. */
  predicate CloseAt(s: string, q: nat)
    requires q <= |s|
  {
    var a := SkipSpace(s, q);
    a < |s| && s[a] == ')' && SkipSpace(s, a + 1) < |s| && s[SkipSpace(s, a + 1)] == '='
  }

  /** The lazy group can take the character at `k` and go on: it is not a
      newline and the rest of the pattern does not match from there. */
  predicate Passes(s: string, k: nat)
    requires k < |s|
  {
    s[k] != '\n' && !CloseAt(s, k)
  }

  /** Where the lazy group `(.*?)` begun at `q` ends: the first position
      from which the rest of the pattern matches, if no newline comes first. */
  function GroupEnd(s: string, q: nat): (r: Option<nat>)
    requires q <= |s|
    ensures r.Some? ==> q <= r.value <= |s| && CloseAt(s, r.value)
                        && forall k :: q <= k < r.value ==> Passes(s, k)
    decreases |s| - q
  {
    if CloseAt(s, q) then Some(q)
    else if q < |s| && s[q] != '\n' then GroupEnd(s, q + 1)
    else None
  }

  /** The group captured by a match starting at `p`, if one starts there. */
  function MatchAt(s: string, p: nat): (r: Option<string>)
    requires p <= |s|
    ensures r.Some? ==> KeyAt(s, p) && '\n' !in r.value && |r.value| <= |s| - p
  {
    if !KeyAt(s, p) then None
    else
      var open := SkipSpace(s, p + 3);
      if open == |s| || s[open] != '(' then None
      else
        var start := SkipSpace(s, open + 1);
        match GroupEnd(s, start)
        case None => None
        case Some(e) =>
          assert forall i :: 0 <= i < e - start ==> Passes(s, start + i) && s[start..e][i] == s[start + i];
          Some(s[start..e])
  }

  /** The least `k` in `p..n` that satisfies `ok`. */
  function FirstFrom(p: nat, n: nat, ok: nat -> bool): (r: Option<nat>)
    requires p <= n
    ensures r.None? ==> forall k :: p <= k <= n ==> !ok(k)
    ensures r.Some? ==> p <= r.value <= n && ok(r.value) && forall j :: p <= j < r.value ==> !ok(j)
    decreases n - p
  {
    if ok(p) then Some(p)
    else if p == n then None
    else FirstFrom(p + 1, n, ok)
  }

  /** `re.FindStringSubmatch(detail)[1]`: the group of the leftmost match,
      or `None` where Go's `matches` is nil. */
  function KeyField(s: string): (r: Option<string>)
    ensures r.None? <==> forall k :: 0 <= k <= |s| ==> MatchAt(s, k).None?
    ensures forall k :: 0 <= k <= |s| && MatchAt(s, k).Some? && (forall j :: 0 <= j < k ==> MatchAt(s, j).None?)
                        ==> r == MatchAt(s, k)
  {
    match Leftmost(s)
    case None => None
    case Some(k) =>
      assert forall k' :: 0 <= k' <= |s| && MatchAt(s, k').Some? && (forall j :: 0 <= j < k' ==> MatchAt(s, j).None?)
                          ==> k' == k;
      MatchAt(s, k)
  }

  /** Where the leftmost match starts. */
  function Leftmost(s: string): (r: Option<nat>)
    ensures r.None? ==> forall k :: 0 <= k <= |s| ==> MatchAt(s, k).None?
    ensures r.Some? ==> r.value <= |s| && MatchAt(s, r.value).Some?
                        && forall j :: 0 <= j < r.value ==> MatchAt(s, j).None?
  {
    var starts := (k: nat) => k <= |s| && MatchAt(s, k).Some?;
    assert forall k :: 0 <= k <= |s| ==> (starts(k) <==> MatchAt(s, k).Some?);
    FirstFrom(0, |s|, starts)
  }

  /** A field name Postgres can report: no newline or closing parenthesis,
      and no leading or trailing space (which the pattern would trim). */
  predicate PlainField(f: string) {
    (forall i :: 0 <= i < |f| ==> f[i] != '\n' && f[i] != ')')
    && (f != [] ==> !ReSpace(f[0]) && !ReSpace(f[|f| - 1]))
  }

  /** The lazy group ends at the first position where the rest matches. */
  lemma {:induction false} GroupEndAt(s: string, q: nat, e: nat)
    requires q <= e <= |s| && CloseAt(s, e)
    requires forall k :: q <= k < e ==> Passes(s, k)
    ensures GroupEnd(s, q) == Some(e)
    decreases e - q
  {
    if q < e {
      assert Passes(s, q);
      GroupEndAt(s, q + 1, e);
    }
  }

  /** Inside a plain field the rest of the pattern cannot match. */
  lemma NoCloseInField(s: string, lo: nat, f: string, k: nat)
    requires lo + |f| <= |s| && s[lo..lo + |f|] == f && PlainField(f)
    requires lo <= k < lo + |f|
    ensures !CloseAt(s, k)
  {
    var a := SkipSpace(s, k);
    assert s[lo + |f| - 1] == f[|f| - 1];
    assert a < lo + |f|;
    assert s[a] == f[a - lo];
  }

  /** A run of RE2 white space. */
  predicate ReBlank(w: string) {
    forall i :: 0 <= i < |w| ==> ReSpace(w[i])
  }

  /** `\s*` passes over a run of white space without stopping. */
  lemma {:induction false} SkipRun(s: string, q: nat, n: nat)
    requires q + n <= |s| && forall i :: q <= i < q + n ==> ReSpace(s[i])
    ensures SkipSpace(s, q) == SkipSpace(s, q + n)
    decreases n
  {
    if n > 0 {
      SkipRun(s, q + 1, n - 1);
    }
  }

  /** The lazy group never ends just after white space: `\s*\)\s*=` would
      already have matched one position earlier. */
  lemma GroupEndsAfterNonSpace(s: string, q: nat, e: nat)
    requires q < e <= |s| && CloseAt(s, e) && Passes(s, e - 1)
    ensures !ReSpace(s[e - 1])
  {
  }

  /** The capture is trimmed: the greedy `\s*` before the group takes the
      leading white space, and the lazy group stops before trailing white
      space. */
  lemma CaptureTrimmed(s: string, p: nat)
    requires p <= |s| && MatchAt(s, p).Some? && MatchAt(s, p).value != []
    ensures !ReSpace(MatchAt(s, p).value[0])
    ensures !ReSpace(MatchAt(s, p).value[|MatchAt(s, p).value| - 1])
  {
    var open := SkipSpace(s, p + 3);
    var start := SkipSpace(s, open + 1);
    var e := GroupEnd(s, start).value;
    assert MatchAt(s, p) == Some(s[start..e]);
    GroupEndsAfterNonSpace(s, start, e);
  }

  /** `\s*` from `a` stops at `b` when `a..b` is white space and `s[b]` is not. */
  lemma SkipOver(s: string, a: nat, b: nat)
    requires a <= b < |s| && (forall i :: a <= i < b ==> ReSpace(s[i])) && !ReSpace(s[b])
    ensures SkipSpace(s, a) == b
  {
    SkipRun(s, a, b - a);
  }

  /** The characters of a slice equal to a blank string are white space. */
  lemma SliceBlank(s: string, a: nat, w: string)
    requires a + |w| <= |s| && s[a..a + |w|] == w && ReBlank(w)
    ensures forall i :: a <= i < a + |w| ==> ReSpace(s[i])
  {
    forall i | a <= i < a + |w|
      ensures ReSpace(s[i])
    {
      assert s[i] == w[i - a];
    }
  }

  /** Blanks, `)`, blanks, `=` from `hi`: the rest of the pattern matches at
      `hi` and at the `)`. */
  lemma CloseOfLayout(s: string, hi: nat, c: nat, q: nat)
    requires hi <= c < q < |s| && (forall i :: hi <= i < c ==> ReSpace(s[i])) && s[c] == ')'
    requires (forall i :: c < i < q ==> ReSpace(s[i])) && s[q] == '='
    ensures CloseAt(s, hi) && CloseAt(s, c)
  {
    SkipOver(s, hi, c);
    SkipOver(s, c, c);
    SkipOver(s, c + 1, q);
  }

  /** A plain field followed by a closing match is exactly the lazy group. */
  lemma GroupOfField(s: string, lo: nat, hi: nat)
    requires lo <= hi <= |s| && CloseAt(s, hi) && PlainField(s[lo..hi])
    ensures GroupEnd(s, lo) == Some(hi)
  {
    var f := s[lo..hi];
    forall i | lo <= i < hi
      ensures Passes(s, i)
    {
      assert s[i] == f[i - lo];
      NoCloseInField(s, lo, f, i);
    }
    GroupEndAt(s, lo, hi);
  }

  /** `MatchAt` at 0, given where each `\s*` stops and where the group ends. */
  lemma MatchOfSteps(s: string, o: nat, start: nat, e: nat)
    requires KeyAt(s, 0) && SkipSpace(s, 3) == o && o < |s| && s[o] == '('
    requires SkipSpace(s, o + 1) == start && GroupEnd(s, start) == Some(e)
    ensures MatchAt(s, 0) == Some(s[start..e])
  {
  }

  /** Where each piece of a `Key (<field>)=` detail sits. */
  lemma DetailPieces(s: string, k: char, e: char, y: char, w1: string, w2: string, f: string, w3: string, w4: string, rest: string)
    requires s == [k, e, y] + w1 + "(" + w2 + f + w3 + ")" + w4 + "=" + rest
    ensures var o := 3 + |w1|;
            var lo := o + 1 + |w2|;
            var hi := lo + |f|;
            var c := hi + |w3|;
            var q := c + 1 + |w4|;
            q < |s| && s[0] == k && s[1] == e && s[2] == y
            && s[3..o] == w1 && s[o] == '(' && s[o + 1..lo] == w2 && s[lo..hi] == f
            && s[hi..c] == w3 && s[c] == ')' && s[c + 1..q] == w4 && s[q] == '='
  {
  }

  /** A detail laid out as `Key`, blanks, `(`, blanks, a plain field,
      blanks, `)`, blanks, `=`: the field is what `KeyField` captures. */
  lemma KeyOfLayout(s: string, o: nat, lo: nat, hi: nat, c: nat, q: nat)
    requires KeyAt(s, 0) && 3 <= o < lo <= hi <= c < q < |s|
    requires (forall i :: 3 <= i < o ==> ReSpace(s[i])) && s[o] == '('
    requires forall i :: o < i < lo ==> ReSpace(s[i])
    requires PlainField(s[lo..hi])
    requires (forall i :: hi <= i < c ==> ReSpace(s[i])) && s[c] == ')'
    requires (forall i :: c < i < q ==> ReSpace(s[i])) && s[q] == '='
    ensures KeyField(s) == Some(s[lo..hi])
  {
    SkipOver(s, 3, o);
    CloseOfLayout(s, hi, c, q);
    if lo == hi {
      SkipOver(s, o + 1, c);
      GroupEndAt(s, c, c);
      MatchOfSteps(s, o, c, c);
    } else {
      assert s[lo] == s[lo..hi][0];
      SkipOver(s, o + 1, lo);
      GroupOfField(s, lo, hi);
      MatchOfSteps(s, o, lo, hi);
    }
  }

  /** The white-space pieces of a laid-out detail are white space. */
  lemma BlankPieces(s: string, o: nat, lo: nat, hi: nat, c: nat, q: nat, w1: string, w2: string, w3: string, w4: string)
    requires 3 <= o < lo <= hi <= c < q < |s|
    requires s[3..o] == w1 && s[o + 1..lo] == w2 && s[hi..c] == w3 && s[c + 1..q] == w4
    requires ReBlank(w1) && ReBlank(w2) && ReBlank(w3) && ReBlank(w4)
    ensures forall i :: 3 <= i < o ==> ReSpace(s[i])
    ensures forall i :: o < i < lo ==> ReSpace(s[i])
    ensures forall i :: hi <= i < c ==> ReSpace(s[i])
    ensures forall i :: c < i < q ==> ReSpace(s[i])
  {
    SliceBlank(s, 3, w1);
    SliceBlank(s, o + 1, w2);
    SliceBlank(s, hi, w3);
    SliceBlank(s, c + 1, w4);
  }

  /** The pieces of a detail, located by `DetailPieces`, give back the field. */
  lemma KeyOfPieces(s: string, k: char, e: char, y: char, w1: string, w2: string, f: string, w3: string, w4: string,
                    o: nat, lo: nat, hi: nat, c: nat, q: nat)
    requires (k == 'k' || k == 'K' || k == '\U{212A}') && (e == 'e' || e == 'E') && (y == 'y' || y == 'Y')
    requires ReBlank(w1) && ReBlank(w2) && ReBlank(w3) && ReBlank(w4) && PlainField(f)
    requires o == 3 + |w1| && lo == o + 1 + |w2| && hi == lo + |f| && c == hi + |w3| && q == c + 1 + |w4|
    requires q < |s| && s[0] == k && s[1] == e && s[2] == y
    requires s[3..o] == w1 && s[o] == '(' && s[o + 1..lo] == w2 && s[lo..hi] == f
    requires s[hi..c] == w3 && s[c] == ')' && s[c + 1..q] == w4 && s[q] == '='
    ensures KeyField(s) == Some(f)
  {
    BlankPieces(s, o, lo, hi, c, q, w1, w2, w3, w4);
    KeyOfLayout(s, o, lo, hi, c, q);
  }

  /** A detail holding `Key (<field>)=` in any letter case, with any white
      space around the parentheses, gives back the field. */
  lemma KeyOfDetail(k: char, e: char, y: char, w1: string, w2: string, f: string, w3: string, w4: string, rest: string)
    requires (k == 'k' || k == 'K' || k == '\U{212A}') && (e == 'e' || e == 'E') && (y == 'y' || y == 'Y')
    requires ReBlank(w1) && ReBlank(w2) && ReBlank(w3) && ReBlank(w4)
    requires PlainField(f)
    ensures KeyField([k, e, y] + w1 + "(" + w2 + f + w3 + ")" + w4 + "=" + rest) == Some(f)
  {
    var s := [k, e, y] + w1 + "(" + w2 + f + w3 + ")" + w4 + "=" + rest;
    DetailPieces(s, k, e, y, w1, w2, f, w3, w4, rest);
    var o := 3 + |w1|;
    var lo := o + 1 + |w2|;
    var hi := lo + |f|;
    KeyOfPieces(s, k, e, y, w1, w2, f, w3, w4, o, lo, hi, hi + |w3|, hi + |w3| + 1 + |w4|);
  }

  /** The detail Postgres writes, `Key (<field>)=(<value>) ...`, gives back
      the field. */
  lemma PostgresDetail(f: string, rest: string)
    requires PlainField(f)
    ensures KeyField("Key (" + f + ")=" + rest) == Some(f)
  {
    assert "Key (" + f + ")=" + rest == ['K', 'e', 'y'] + " " + "(" + "" + f + "" + ")" + "" + "=" + rest;
    KeyOfDetail('K', 'e', 'y', " ", "", f, "", "", rest);
  }

  /** The Fault both checks return, `fault.New(msg, fault.WithTag(fault.DB))`. */
  function DbFault(msg: string): (e: Error)
    ensures e.FaultError? && e.variant == Legacy
    ensures e.fault == Fault(StatusBadRequest, msg, Items([]), LegacyFault.DB, None)
  {
    ApplyAllOne(Defaults(LegacyFault.Untagged, msg), WithTag(LegacyFault.DB));
    FaultError(Legacy, Built(LegacyFault.Untagged, msg, [WithTag(LegacyFault.DB)]))
  }

  /** The source indexes `matches[1]` unguarded: when the code matches, the
      detail must hold the pattern or the call panics. */
  predicate DetailHasKey(target: Option<Error>, code: string) {
    AsPq(target).Some? && AsPq(target).value.code == code ==> KeyField(AsPq(target).value.detail).Some?
  }

  /** The shared body of the two checks: the field and a DB Fault when the
      first pq error on the chain has `code`, and `("", nil)` otherwise. */
  function Verify(target: Option<Error>, code: string, msg: string): (r: (string, Option<Error>))
    requires DetailHasKey(target, code)
    ensures r.1.None? <==> AsPq(target).None? || AsPq(target).value.code != code
    ensures r.1.None? ==> r.0 == ""
    ensures r.1.Some? ==> r.1 == Some(DbFault(msg)) && Some(r.0) == KeyField(AsPq(target).value.detail)
  {
    match AsPq(target)
    case Some(pq) =>
      if pq.code == code then (KeyField(pq.detail).value, Some(DbFault(msg))) else ("", None)
    case None => ("", None)
  }

  /** `VerifyDuplicatedKey`: a unique violation. */
  function VerifyDuplicatedKey(target: Option<Error>): (r: (string, Option<Error>))
    requires DetailHasKey(target, UniqueViolation)
    ensures r.1.Some? <==> AsPq(target).Some? && AsPq(target).value.code == UniqueViolation
    ensures r.1.Some? ==> r.1 == Some(DbFault("duplicated constraint key")) && Some(r.0) == KeyField(AsPq(target).value.detail)
    ensures r.1.None? ==> r.0 == ""
  {
    Verify(target, UniqueViolation, "duplicated constraint key")
  }

  /** `VerifyForeignKeyViolation`: a foreign key violation. */
  function VerifyForeignKeyViolation(target: Option<Error>): (r: (string, Option<Error>))
    requires DetailHasKey(target, ForeignKeyViolation)
    ensures r.1.Some? <==> AsPq(target).Some? && AsPq(target).value.code == ForeignKeyViolation
    ensures r.1.Some? ==> r.1 == Some(DbFault("foreign key constraint violation")) && Some(r.0) == KeyField(AsPq(target).value.detail)
    ensures r.1.None? ==> r.0 == ""
  {
    Verify(target, ForeignKeyViolation, "foreign key constraint violation")
  }

  /** `errors.As` looks past any link that is not a pq error. */
  lemma AsPqSkips(e: Error)
    requires !e.PqError?
    ensures AsPq(Some(e)) == AsPq(Unwrap(e))
  {
    ChainStep(e);
    var c := ChainOf(Some(e));
    assert c[1..] == ChainOf(Unwrap(e));
  }

  /** A unique violation found behind a wrapper is reported with the field
      from its detail; for the detail Postgres writes, that is the column. */
  lemma DuplicatedKeyThroughWrapper(context: string, message: string, f: string, rest: string)
    requires PlainField(f)
    ensures var pq := PqError(UniqueViolation, message, "Key (" + f + ")=" + rest);
            AsPq(Some(Wrapped(context, pq))) == Some(pq) && KeyField(pq.detail) == Some(f)
            && VerifyDuplicatedKey(Some(Wrapped(context, pq))) == (f, Some(DbFault("duplicated constraint key")))
  {
    var pq := PqError(UniqueViolation, message, "Key (" + f + ")=" + rest);
    AsPqSkips(Wrapped(context, pq));
    assert ChainOf(Some(pq)) == [pq];
    PostgresDetail(f, rest);
  }

  /** A chain without a pq error, or whose first pq error has another code,
      is not a violation of either kind. */
  lemma NotAViolation(target: Option<Error>)
    requires AsPq(target).None? || AsPq(target).value.code !in {UniqueViolation, ForeignKeyViolation}
    ensures VerifyDuplicatedKey(target) == ("", None)
    ensures VerifyForeignKeyViolation(target) == ("", None)
  {
  }

  // ExecTx

  /** The calls `ExecTx` makes, in order. */
  datatype TxStep = Begin | Run | Rollback | Commit

  /** A Fault `ExecTx` returns: tagged TX, wrapping the error it reports. */
  function TxFault(msg: string, cause: Error): (e: Error)
    ensures e.FaultError? && e.variant == Legacy && e.fault.tag == LegacyFault.TX
    ensures e.fault.message == msg && e.fault.httpCode == StatusBadRequest && Unwrap(e) == Some(cause)
  {
    ApplyAllTwo(Defaults(LegacyFault.Untagged, msg), WithTag(LegacyFault.TX), WithErr(Some(cause)));
    FaultError(Legacy, Built(LegacyFault.Untagged, msg, [WithTag(LegacyFault.TX), WithErr(Some(cause))]))
  }

  /** `ExecTx`: begin, run `fn`, then roll back if it failed or commit if it
      succeeded. The outcomes of the database calls and of `fn` are
      parameters; the calls made are returned in order. */
  method ExecTx(beginErr: Option<Error>, fnErr: Option<Error>, rollbackErr: Option<Error>, commitErr: Option<Error>)
    returns (err: Option<Error>, steps: seq<TxStep>)
    ensures beginErr.Some? ==> steps == [Begin] && err == Some(TxFault("failed to begin transaction", beginErr.value))
    ensures beginErr.None? && fnErr.Some? ==>
              steps == [Begin, Run, Rollback]
              && err == Some(if rollbackErr.Some? then TxFault("failed to rollback transaction", rollbackErr.value)
                             else TxFault("transaction failed", fnErr.value))
    ensures beginErr.None? && fnErr.None? ==>
              steps == [Begin, Run, Commit]
              && err == (if commitErr.Some? then Some(TxFault("failed to commit transaction", commitErr.value)) else None)
    ensures err.None? <==> beginErr.None? && fnErr.None? && commitErr.None?
    ensures beginErr.None? ==> (Commit in steps) != (Rollback in steps)
    ensures Run in steps <==> beginErr.None?
  {
    steps := [Begin];
    if beginErr.Some? {
      var f := LegacyFault.New("failed to begin transaction", [WithTag(LegacyFault.TX), WithErr(beginErr)]);
      return Some(FaultError(Legacy, f)), steps;
    }
    steps := steps + [Run];
    if fnErr.Some? {
      steps := steps + [Rollback];
      if rollbackErr.Some? {
        var f := LegacyFault.New("failed to rollback transaction", [WithTag(LegacyFault.TX), WithErr(rollbackErr)]);
        return Some(FaultError(Legacy, f)), steps;
      }
      var f := LegacyFault.New("transaction failed", [WithTag(LegacyFault.TX), WithErr(fnErr)]);
      return Some(FaultError(Legacy, f)), steps;
    }
    steps := steps + [Commit];
    if commitErr.Some? {
      var f := LegacyFault.New("failed to commit transaction", [WithTag(LegacyFault.TX), WithErr(commitErr)]);
      return Some(FaultError(Legacy, f)), steps;
    }
    return None, steps;
  }
}
