/** Package `pkg/httputil`: the status and body `WriteError` picks for an
    error, the query-string readers, and the client address taken from the
    forwarding headers or the connection's remote address. */
module HttpUtil {
  import opened Wrappers
  import opened Strings
  import opened Errors
  import LegacyFault
  import PkgFault

  // ---------------------------------------------------------------------
  // WriteError

  /** Whether link `x` answers `errors.Is(_, target)`: it equals the target,
      or its own `Is` method says it matches. */
  predicate LinkIs(x: Error, target: Error)
    ensures x == target ==> LinkIs(x, target)
    ensures IsFaultOf(x, Legacy) && IsFaultOf(target, Legacy) ==> LinkIs(x, target)
    ensures IsFaultOf(x, Pkg) && IsFaultOf(target, Pkg) && x.fault.tag == target.fault.tag ==> LinkIs(x, target)
  {
    x == target
    || (x.FaultError? && x.variant == Legacy && LegacyFault.Is(x.fault, Some(target)))
    || (x.FaultError? && x.variant == Pkg && PkgFault.Is(x.fault, Some(target)))
  }

  /** `errors.Is`: some link of the chain matches the target; nil matches
      nothing. */
  predicate ErrorsIs(err: Option<Error>, target: Error)
    ensures err.None? ==> !ErrorsIs(err, target)
  {
    exists i :: 0 <= i < |ChainOf(err)| && LinkIs(ChainOf(err)[i], target)
  }

  /** `errors.Is` walks the chain: the first link matches, or the rest of
      the chain does. */
  lemma ErrorsIsStep(e: Error, target: Error)
    ensures ErrorsIs(Some(e), target) <==> LinkIs(e, target) || ErrorsIs(Unwrap(e), target)
  {
    ChainStep(e);
    var c := ChainOf(Some(e));
    if ErrorsIs(Unwrap(e), target) {
      var i :| 0 <= i < |ChainOf(Unwrap(e))| && LinkIs(ChainOf(Unwrap(e))[i], target);
      assert c[i + 1] == ChainOf(Unwrap(e))[i];
    }
    if ErrorsIs(Some(e), target) && !LinkIs(e, target) {
      var i :| 0 <= i < |c| && LinkIs(c[i], target);
      assert i > 0;
      assert ChainOf(Unwrap(e))[i - 1] == c[i];
    }
  }

  /** A sentinel is matched only by itself: neither Fault's `Is` accepts it,
      since its chain holds no Fault. */
  lemma SentinelIs(err: Option<Error>, k: SentinelKind)
    ensures ErrorsIs(err, Sentinel(k)) <==> Sentinel(k) in ChainOf(err)
  {
    var t := Sentinel(k);
    assert ChainOf(Some(t)) == [t];
    forall x: Error | x.FaultError?
      ensures !LegacyFault.Is(x.fault, Some(t)) && !PkgFault.Is(x.fault, Some(t))
    {
    }
    if Sentinel(k) in ChainOf(err) {
      var i :| 0 <= i < |ChainOf(err)| && ChainOf(err)[i] == t;
      assert LinkIs(ChainOf(err)[i], t);
    }
  }

  /** The three fixed messages that answer a sentinel. */
  function SentinelMessage(k: SentinelKind): string {
    match k
    case UnknownRequestBodyKey => "request body contains unknown field"
    case EmptyRequestBody => "request body cannot be empty"
    case InvalidJSONField => "request body contains incorrect JSON field type"
  }

  /** `WriteError`: the first Fault of package `pkg/fault` anywhere in the
      chain is sent with its own code; otherwise the sentinels are tried in
      order and answered with 400; anything else gets the 500 body. */
  function WriteError(err: Option<Error>): (r: PkgFault.Response)
    ensures r.status == r.body.httpCode
    ensures AsFault(err, Pkg).Some? ==> r == PkgFault.Response(AsFault(err, Pkg).value.httpCode, AsFault(err, Pkg).value)
    ensures AsFault(err, Pkg).None? ==>
              (r.status == StatusBadRequest || r.status == StatusInternalServerError)
              && r.body.cause.None? && r.body.fields.Nil?
  {
    match AsFault(err, Pkg)
    case Some(f) => PkgFault.Response(PkgFault.GetHTTPCode(f), f)
    case None =>
      if ErrorsIs(err, Sentinel(UnknownRequestBodyKey)) then
        PkgFault.Response(StatusBadRequest, PkgFault.NewBadRequest(SentinelMessage(UnknownRequestBodyKey)))
      else if ErrorsIs(err, Sentinel(EmptyRequestBody)) then
        PkgFault.Response(StatusBadRequest, PkgFault.NewBadRequest(SentinelMessage(EmptyRequestBody)))
      else if ErrorsIs(err, Sentinel(InvalidJSONField)) then
        PkgFault.Response(StatusBadRequest, PkgFault.NewBadRequest(SentinelMessage(InvalidJSONField)))
      else
        PkgFault.Unexpected()
  }

  /** Without a Fault in the chain, the answer is 400 exactly when a
      sentinel is in the chain, with the message of the first sentinel in
      the fixed order; otherwise it is the 500 body. The error's own text is
      never sent. */
  lemma WriteErrorWithoutFault(err: Option<Error>)
    requires AsFault(err, Pkg).None?
    ensures WriteError(err).status == StatusBadRequest <==>
              exists k :: Sentinel(k) in ChainOf(err)
    ensures Sentinel(UnknownRequestBodyKey) in ChainOf(err) ==>
              WriteError(err).body.message == SentinelMessage(UnknownRequestBodyKey)
    ensures Sentinel(UnknownRequestBodyKey) !in ChainOf(err) && Sentinel(EmptyRequestBody) in ChainOf(err) ==>
              WriteError(err).body.message == SentinelMessage(EmptyRequestBody)
    ensures Sentinel(UnknownRequestBodyKey) !in ChainOf(err) && Sentinel(EmptyRequestBody) !in ChainOf(err)
            && Sentinel(InvalidJSONField) in ChainOf(err) ==>
              WriteError(err).body.message == SentinelMessage(InvalidJSONField)
    ensures WriteError(err).status == StatusBadRequest ==> WriteError(err).body.tag == PkgFault.BAD_REQUEST
    ensures (forall k :: Sentinel(k) !in ChainOf(err)) ==> WriteError(err) == PkgFault.Unexpected()
  {
    SentinelIs(err, UnknownRequestBodyKey);
    SentinelIs(err, EmptyRequestBody);
    SentinelIs(err, InvalidJSONField);
    if exists k :: Sentinel(k) in ChainOf(err) {
      var k :| Sentinel(k) in ChainOf(err);
      assert k == UnknownRequestBodyKey || k == EmptyRequestBody || k == InvalidJSONField;
    }
  }

  /** `WriteError` looks through wrappers, `NewHTTPError` does not: a Fault
      wrapped once is sent with its code by the first and as a 500 by the
      second. For a bare Fault the two agree. */
  lemma WriteErrorVersusNewHTTPError(context: string, f: Fault)
    ensures WriteError(Some(Wrapped(context, FaultError(Pkg, f)))) == PkgFault.Response(f.httpCode, f)
    ensures PkgFault.NewHTTPError(Some(Wrapped(context, FaultError(Pkg, f)))) == PkgFault.Unexpected()
    ensures WriteError(Some(FaultError(Pkg, f))) == PkgFault.NewHTTPError(Some(FaultError(Pkg, f)))
  {
    var w := Wrapped(context, FaultError(Pkg, f));
    ChainStep(w);
    assert ChainOf(Some(w))[1] == FaultError(Pkg, f);
    assert !IsFaultOf(ChainOf(Some(w))[0], Pkg);
    assert ChainOf(Some(FaultError(Pkg, f)))[0] == FaultError(Pkg, f);
  }

  /** A Fault of the other package is not what `errors.As` looks for: alone,
      it is answered with the 500 body whatever its code. */
  lemma WriteErrorIgnoresLegacyFault(f: Fault)
    requires f.cause.None?
    ensures WriteError(Some(FaultError(Legacy, f))) == PkgFault.Unexpected()
  {
    var e := FaultError(Legacy, f);
    assert ChainOf(Some(e)) == [e];
    assert !IsFaultOf(e, Pkg);
    WriteErrorWithoutFault(Some(e));
  }

  // ---------------------------------------------------------------------
  // Query strings

  /** `url.Values`: each key maps to the list of its values. */
  type Values = map<string, seq<string>>

  /** `Values.Get`: the first value of the key, or "" if there is none. */
  function Get(qs: Values, key: string): (v: string)
    ensures key in qs && qs[key] != [] ==> v == qs[key][0]
    ensures !(key in qs && qs[key] != []) ==> v == ""
  {
    if key in qs && |qs[key]| > 0 then qs[key][0] else ""
  }

  predicate IsDigit(c: char) {
    '0' <= c <= '9'
  }

  predicate AllDigits(s: string) {
    forall i :: 0 <= i < |s| ==> IsDigit(s[i])
  }

  /** The number a run of decimal digits spells, most significant first. */
  function DigitsValue(s: string): nat
    requires AllDigits(s)
  {
    if s == [] then 0 else 10 * DigitsValue(s[..|s| - 1]) + (s[|s| - 1] as int - '0' as int)
  }

  const MinInt64: int := -0x8000_0000_0000_0000
  const MaxInt64: int := 0x7FFF_FFFF_FFFF_FFFF

  /** The digits after an optional leading sign. */
  function Unsigned(s: string): string {
    if |s| > 0 && (s[0] == '-' || s[0] == '+') then s[1..] else s
  }

  /** `strconv.Atoi` on a 64-bit platform: an optional sign, then at least
      one decimal digit and nothing else; a value outside the 64-bit range is
      an error. */
  function Atoi(s: string): (r: Option<int>)
    ensures r.Some? ==> MinInt64 <= r.value <= MaxInt64
    ensures Unsigned(s) == [] || !AllDigits(Unsigned(s)) ==> r.None?
  {
    var digits := Unsigned(s);
    if digits == [] || !AllDigits(digits) then None
    else
      var v: int := if s[0] == '-' then 0 - DigitsValue(digits) as int else DigitsValue(digits);
      if MinInt64 <= v <= MaxInt64 then Some(v) else None
  }

  /** The decimal digits of a natural number, no leading zeros. */
  function NatDigits(n: nat): (s: string)
    ensures s != [] && AllDigits(s) && DigitsValue(s) == n
    ensures s[0] != '-' && s[0] != '+'
  {
    var d := ['0' + (n % 10) as char];
    if n < 10 then d
    else
      var head := NatDigits(n / 10);
      assert (head + d)[..|head|] == head;
      head + d
  }

  /** `strconv.Itoa`: a minus sign for negative numbers, then the digits. */
  function Itoa(n: int): string {
    if n < 0 then "-" + NatDigits(-n) else NatDigits(n)
  }

  /** Every 64-bit integer written out in decimal reads back as itself. */
  lemma AtoiItoa(n: int)
    requires MinInt64 <= n <= MaxInt64
    ensures Atoi(Itoa(n)) == Some(n)
  {
    if n < 0 {
      assert Unsigned(Itoa(n)) == NatDigits(-n);
    } else {
      assert Unsigned(Itoa(n)) == NatDigits(n);
    }
  }

  /** `ReadQueryInt`: the parsed value, or 0 when the key is absent, the value
      is empty, or it is not a 64-bit decimal integer. */
  function ReadQueryInt(qs: Values, key: string): (r: int)
    ensures Get(qs, key) == "" ==> r == 0
    ensures Atoi(Get(qs, key)).None? ==> r == 0
    ensures Atoi(Get(qs, key)).Some? ==> r == Atoi(Get(qs, key)).value
    ensures MinInt64 <= r <= MaxInt64
  {
    var val := Get(qs, key);
    if val == "" then 0
    else
      match Atoi(val)
      case None => 0
      case Some(i) => i
  }

  /** A number stored as the key's first value is read back. */
  lemma ReadQueryIntRoundTrip(qs: Values, key: string, n: int, rest: seq<string>)
    requires MinInt64 <= n <= MaxInt64
    ensures ReadQueryInt(qs[key := [Itoa(n)] + rest], key) == n
  {
    AtoiItoa(n);
  }

  /** `strconv.ParseBool`: the fixed literals for true and for false; any
      other text is an error. */
  function ParseBool(s: string): (r: Option<bool>)
    ensures r == Some(true) <==> s in {"1", "t", "T", "TRUE", "true", "True"}
    ensures r == Some(false) <==> s in {"0", "f", "F", "FALSE", "false", "False"}
  {
    if s in {"1", "t", "T", "TRUE", "true", "True"} then Some(true)
    else if s in {"0", "f", "F", "FALSE", "false", "False"} then Some(false)
    else None
  }

  /** `strconv.FormatBool`. */
  function FormatBool(b: bool): string {
    if b then "true" else "false"
  }

  /** `ReadQueryBool`: true exactly for the literals `ParseBool` reads as
      true; absent, empty, false and unreadable values all give false. */
  function ReadQueryBool(qs: Values, key: string): (r: bool)
    ensures r <==> ParseBool(Get(qs, key)) == Some(true)
  {
    var val := Get(qs, key);
    if val == "" then false
    else
      match ParseBool(val)
      case None => false
      case Some(b) => b
  }

  /** A boolean stored as "true" or "false" is read back. */
  lemma ReadQueryBoolRoundTrip(qs: Values, key: string, b: bool, rest: seq<string>)
    ensures ReadQueryBool(qs[key := [FormatBool(b)] + rest], key) == b
  {
  }

  /** `ReadQueryString`: the stored value, or "" when there is none. */
  function ReadQueryString(qs: Values, key: string): (r: string)
    ensures key in qs && qs[key] != [] ==> r == qs[key][0]
    ensures !(key in qs && qs[key] != []) ==> r == ""
  {
    var val := Get(qs, key);
    if val == "" then "" else val
  }

  /** The entries `ReadQueryArray` returns for a value: none for "", else one
      trimmed entry per comma-separated piece, empty pieces kept. */
  function QueryArray(val: string): (r: seq<string>)
    ensures val == "" ==> r == []
    ensures val != "" ==> |r| == multiset(val)[','] + 1
    ensures val != "" ==> forall i :: 0 <= i < |r| ==> r[i] == TrimSpace(Split(val, ',')[i])
  {
    if val == "" then []
    else
      var parts := Split(val, ',');
      seq(|parts|, i requires 0 <= i < |parts| => TrimSpace(parts[i]))
  }

  /** `ReadQueryArray`: split the value at commas and fill a slice of the
      same length with the trimmed pieces. */
  method ReadQueryArray(qs: Values, key: string) returns (r: seq<string>)
    ensures r == QueryArray(Get(qs, key))
  {
    var val := Get(qs, key);
    if val == "" {
      return [];
    }
    var parts := Split(val, ',');
    var result := new string[|parts|];
    for i := 0 to |parts|
      invariant forall j :: 0 <= j < i ==> result[j] == TrimSpace(parts[j])
    {
      result[i] := TrimSpace(parts[i]);
    }
    r := result[..];
  }

  /** Writing trimmed, comma-free entries joined by commas (with any white
      space around them) reads them back, as long as the text is not empty. */
  lemma QueryArrayRoundTrip(padded: seq<string>, entries: seq<string>)
    requires |padded| == |entries| >= 1
    requires forall i :: 0 <= i < |padded| ==> ',' !in padded[i] && TrimSpace(padded[i]) == entries[i]
    requires Join(padded, ',') != ""
    ensures QueryArray(Join(padded, ',')) == entries
  {
    SplitJoin(padded, ',');
  }

  // ---------------------------------------------------------------------
  // GetClientIP

  /** The connection's address without its port: the text between the
      brackets of "[host]:port", else the text before the last colon, else
      the address unchanged. Each case is stated by StripPortBracketed,
      StripPortHostPort and StripPortUnchanged below. */
  function StripPort(ip: string): (r: string)
    ensures |r| <= |ip|
  {
    if |ip| > 0 && ip[0] == '[' then
      match IndexOf(ip, ']')
      case Some(k) => ip[1..k]
      case None => ip
    else
      match LastIndexOf(ip, ':')
      case Some(k) => ip[..k]
      case None => ip
  }

  /** `GetClientIP`, given the X-Forwarded-For and X-Real-IP header values
      and the remote address: the first forwarded entry, trimmed, if that
      header is set; else the trimmed X-Real-IP if set; else the remote
      address without its port. */
  function GetClientIP(forwardedFor: string, realIP: string, remoteAddr: string): (r: string)
    ensures forwardedFor != "" ==> r == TrimSpace(Split(forwardedFor, ',')[0])
    ensures forwardedFor == "" && realIP != "" ==> r == TrimSpace(realIP)
    ensures forwardedFor == "" && realIP == "" ==> r == StripPort(remoteAddr)
  {
    if forwardedFor != "" then TrimSpace(Split(forwardedFor, ',')[0])
    else if realIP != "" then TrimSpace(realIP)
    else StripPort(remoteAddr)
  }

  /** The first entry of X-Forwarded-For wins, trimmed, even when it is
      blank and whatever the other inputs are. */
  lemma ForwardedForFirstEntry(first: string, rest: string, realIP: string, remoteAddr: string)
    requires ',' !in first
    ensures GetClientIP(first + "," + rest, realIP, remoteAddr) == TrimSpace(first)
  {
    SplitFirst(first, rest, ',');
  }

  /** "host:port" gives back the host; the split is at the last colon, so
      the host may hold colons as long as the port does not. */
  lemma StripPortHostPort(host: string, port: string)
    requires ':' !in port && (host == [] || host[0] != '[')
    ensures StripPort(host + ":" + port) == host
  {
    var ip := host + ":" + port;
    assert ip[|host|] == ':';
    assert ip[|host| + 1..] == port;
    assert ip[..|host|] == host;
  }

  /** "[host]:port" gives back the host between the brackets. */
  lemma StripPortBracketed(host: string, rest: string)
    requires ']' !in host
    ensures StripPort("[" + host + "]" + rest) == host
  {
    var ip := "[" + host + "]" + rest;
    assert ip == ['['] + (host + [']'] + rest);
    IndexAfterFree(['['] + host, rest, ']');
    assert ip == (['['] + host) + [']'] + rest;
    assert ip[1..|host| + 1] == host;
  }

  /** An address with a "[" but no "]", or with neither bracket nor colon,
      is returned unchanged. */
  lemma StripPortUnchanged(ip: string)
    requires (|ip| > 0 && ip[0] == '[' && ']' !in ip) || ((ip == [] || ip[0] != '[') && ':' !in ip)
    ensures StripPort(ip) == ip
  {
  }
}
