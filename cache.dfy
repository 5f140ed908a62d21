/** Package `pkg/cache`: a cache-aside accessor over a key-value store. The
    store is the map the client reads and writes; the backend's failures
    and the value codec are parameters, so every outcome the code
    distinguishes can be chosen by the caller. */
module Cache {
  import opened Wrappers
  import opened Errors
  import opened FaultOptions
  import PkgFault

  /** The key space: each key holds the encoded text of a value. */
  type Store = map<string, string>

  /** A Fault built by `fault.New(msg, fault.WithTag(tag), fault.WithErr(cause))`. */
  function CacheFault(msg: string, tag: Tag, cause: Option<Error>): (e: Error)
    ensures e.FaultError? && e.variant == Pkg
    ensures e.fault.message == msg && e.fault.tag == tag && e.fault.cause == cause
    ensures e.fault.httpCode == StatusBadRequest && e.fault.fields == Items([])
  {
    ApplyAllTwo(Defaults(PkgFault.Untagged, msg), WithTag(tag), WithErr(cause));
    FaultError(Pkg, Built(PkgFault.Untagged, msg, [WithTag(tag), WithErr(cause)]))
  }

  /** What `get` returns for a key: a backend failure (other than the key
      being absent) is a DB Fault wrapping it, an absent key a NotFound
      Fault, an undecodable value a DB Fault wrapping the decoder's error. */
  function Lookup<T>(store: Store, key: string, decode: string -> Result<T, Error>,
                     backendFailure: Option<Error>): (r: Result<T, Error>)
    ensures r.Ok? <==> backendFailure.None? && key in store && decode(store[key]).Ok?
    ensures r.Ok? ==> r == decode(store[key])
    ensures backendFailure.Some? ==> r == Err(CacheFault("failed to get from cache", PkgFault.DB, backendFailure))
    ensures backendFailure.None? && key !in store ==>
              r == Err(CacheFault("key not found", PkgFault.NotFound, None))
    ensures backendFailure.None? && key in store && decode(store[key]).Err? ==>
              r == Err(CacheFault("failed to deserialize cached value", PkgFault.DB, Some(decode(store[key]).error)))
  {
    if backendFailure.Some? then Err(CacheFault("failed to get from cache", PkgFault.DB, backendFailure))
    else if key !in store then Err(CacheFault("key not found", PkgFault.NotFound, None))
    else
      match decode(store[key])
      case Err(e) => Err(CacheFault("failed to deserialize cached value", PkgFault.DB, Some(e)))
      case Ok(v) => Ok(v)
  }

  /** What `set` does: the error it returns, and the store afterwards. A
      value that cannot be encoded is never written; a backend failure
      writes nothing either. */
  function Write<T>(store: Store, key: string, value: T, encode: T -> Result<string, Error>,
                    backendFailure: Option<Error>): (r: (Option<Error>, Store))
    ensures r.0.None? <==> encode(value).Ok? && backendFailure.None?
    ensures r.0.None? ==> r.1 == store[key := encode(value).value]
    ensures r.0.Some? ==> r.1 == store
    ensures encode(value).Err? ==>
              r.0 == Some(CacheFault("failed to serialize value", PkgFault.DB, Some(encode(value).error)))
    ensures encode(value).Ok? && backendFailure.Some? ==>
              r.0 == Some(CacheFault("failed to set cache", PkgFault.DB, backendFailure))
  {
    match encode(value)
    case Err(e) => (Some(CacheFault("failed to serialize value", PkgFault.DB, Some(e))), store)
    case Ok(data) =>
      if backendFailure.Some? then (Some(CacheFault("failed to set cache", PkgFault.DB, backendFailure)), store)
      else (None, store[key := data])
  }

  /** The outcome of `GetOrSet`: the value and error returned, whether the
      callback ran, and the store afterwards. */
  datatype Outcome<T> = Outcome(value: T, err: Option<Error>, called: bool, store: Store)

  /** `GetOrSet`: a cached value is returned as it is; on any miss the
      callback runs once, its error is returned with the zero value, and
      its value is written (a failed write is only logged) and returned. */
  function GetOrSetOutcome<T>(store: Store, key: string, zero: T, produce: () -> Result<T, Error>,
                              decode: string -> Result<T, Error>, encode: T -> Result<string, Error>,
                              getFailure: Option<Error>, setFailure: Option<Error>): (o: Outcome<T>)
    ensures o.called <==> Lookup(store, key, decode, getFailure).Err?
    ensures !o.called ==> o == Outcome(Lookup(store, key, decode, getFailure).value, None, false, store)
    ensures o.called && produce().Err? ==> o == Outcome(zero, Some(produce().error), true, store)
    ensures o.called && produce().Ok? ==>
              o.value == produce().value && o.err.None?
              && o.store == Write(store, key, produce().value, encode, setFailure).1
  {
    match Lookup(store, key, decode, getFailure)
    case Ok(cached) => Outcome(cached, None, false, store)
    case Err(_) =>
      match produce()
      case Err(e) => Outcome(zero, Some(e), true, store)
      case Ok(v) => Outcome(v, None, true, Write(store, key, v, encode, setFailure).1)
  }

  /** The store after `Delete`: every listed key is gone, the others stay. */
  function Without(store: Store, keys: seq<string>): (r: Store)
    ensures forall k :: k in r <==> k in store && k !in keys
    ensures forall k :: k in r ==> r[k] == store[k]
  {
    map k | k in store && k !in keys :: store[k]
  }

  /** A client of the key-value store. */
  class Client {
    var store: Store

    constructor (initial: Store)
      ensures store == initial
    {
      store := initial;
    }

    /** `get`: read and decode one key; the store is not changed. */
    method Get<T>(key: string, zero: T, decode: string -> Result<T, Error>, backendFailure: Option<Error>)
      returns (value: T, err: Option<Error>)
      ensures Lookup(store, key, decode, backendFailure).Ok? ==>
                value == Lookup(store, key, decode, backendFailure).value && err.None?
      ensures Lookup(store, key, decode, backendFailure).Err? ==>
                value == zero && err == Some(Lookup(store, key, decode, backendFailure).error)
    {
      if backendFailure.Some? {
        var f := PkgFault.New("failed to get from cache", [WithTag(PkgFault.DB), WithErr(backendFailure)]);
        return zero, Some(FaultError(Pkg, f));
      }
      if key !in store {
        var f := PkgFault.New("key not found", [WithTag(PkgFault.NotFound)]);
        assert [WithTag(PkgFault.NotFound)][..0] == [];
        ApplyAllTwo(Defaults(PkgFault.Untagged, "key not found"), WithTag(PkgFault.NotFound), WithErr(None));
        return zero, Some(FaultError(Pkg, f));
      }
      match decode(store[key])
      case Err(e) =>
        var f := PkgFault.New("failed to deserialize cached value", [WithTag(PkgFault.DB), WithErr(Some(e))]);
        return zero, Some(FaultError(Pkg, f));
      case Ok(v) =>
        return v, None;
    }

    /** `set`: encode the value and write it under the key. */
    method Set<T>(key: string, value: T, encode: T -> Result<string, Error>, backendFailure: Option<Error>)
      returns (err: Option<Error>)
      modifies this
      ensures (err, store) == Write(old(store), key, value, encode, backendFailure)
    {
      match encode(value)
      case Err(e) =>
        var f := PkgFault.New("failed to serialize value", [WithTag(PkgFault.DB), WithErr(Some(e))]);
        return Some(FaultError(Pkg, f));
      case Ok(data) =>
        var backendErr := backendFailure;
        if backendErr.Some? {
          var f := PkgFault.New("failed to set cache", [WithTag(PkgFault.DB), WithErr(backendErr)]);
          return Some(FaultError(Pkg, f));
        }
        store := store[key := data];
        return None;
    }

    /** `GetOrSet`: try the cache, and on a miss run the callback and store
      what it produced; a failed write is swallowed. */
    method GetOrSet<T>(key: string, zero: T, produce: () -> Result<T, Error>,
                       decode: string -> Result<T, Error>, encode: T -> Result<string, Error>,
                       getFailure: Option<Error>, setFailure: Option<Error>)
      returns (value: T, err: Option<Error>, called: bool)
      modifies this
      ensures Outcome(value, err, called, store)
              == GetOrSetOutcome(old(store), key, zero, produce, decode, encode, getFailure, setFailure)
    {
      var cached, getErr := Get(key, zero, decode, getFailure);
      if getErr.None? {
        return cached, None, false;
      }
      var produced := produce();
      called := true;
      if produced.Err? {
        return zero, Some(produced.error), called;
      }
      var setErr := Set(key, produced.value, encode, setFailure);
      // the write failure is only logged
      return produced.value, None, called;
    }

    /** `Delete`: remove the listed keys; a backend failure is a DB Fault
      wrapping it and removes nothing. */
    method Delete(keys: seq<string>, backendFailure: Option<Error>) returns (err: Option<Error>)
      modifies this
      ensures backendFailure.Some? ==>
                err == Some(CacheFault("failed to delete from cache", PkgFault.DB, backendFailure))
                && store == old(store)
      ensures backendFailure.None? ==> err.None? && store == Without(old(store), keys)
    {
      if backendFailure.Some? {
        var f := PkgFault.New("failed to delete from cache", [WithTag(PkgFault.DB), WithErr(backendFailure)]);
        return Some(FaultError(Pkg, f));
      }
      store := Without(store, keys);
      return None;
    }
  }

  /** On a hit the callback does not run and nothing is written. */
  lemma HitSkipsCallback<T>(store: Store, key: string, zero: T, produce: () -> Result<T, Error>,
                            decode: string -> Result<T, Error>, encode: T -> Result<string, Error>,
                            setFailure: Option<Error>)
    requires key in store && decode(store[key]).Ok?
    ensures var o := GetOrSetOutcome(store, key, zero, produce, decode, encode, None, setFailure);
            !o.called && o.value == decode(store[key]).value && o.err.None? && o.store == store
  {
  }

  /** A failing callback writes nothing and its error comes back unchanged. */
  lemma ProducerFailureWritesNothing<T>(store: Store, key: string, zero: T, produce: () -> Result<T, Error>,
                                        decode: string -> Result<T, Error>, encode: T -> Result<string, Error>,
                                        getFailure: Option<Error>, setFailure: Option<Error>)
    requires produce().Err?
    ensures var o := GetOrSetOutcome(store, key, zero, produce, decode, encode, getFailure, setFailure);
            o.store == store && (o.called ==> o.err == Some(produce().error) && o.value == zero)
  {
  }

  /** A failed write does not turn into an error: the produced value is
      returned with a nil error. */
  lemma WriteFailureSwallowed<T>(store: Store, key: string, zero: T, produce: () -> Result<T, Error>,
                                 decode: string -> Result<T, Error>, encode: T -> Result<string, Error>,
                                 getFailure: Option<Error>, setFailure: Option<Error>)
    requires produce().Ok? && setFailure.Some?
    requires Lookup(store, key, decode, getFailure).Err?
    ensures var o := GetOrSetOutcome(store, key, zero, produce, decode, encode, getFailure, setFailure);
            o.called && o.value == produce().value && o.err.None? && o.store == store
  {
  }

  /** Cache-aside round trip: after any miss (an absent key, a backend
      error, or an entry that does not decode) whose value is written,
      asking again returns that value without running the callback,
      provided the codec reads back what it writes. A stale entry is
      overwritten. */
  lemma MissThenHit<T>(store: Store, key: string, zero: T, produce: () -> Result<T, Error>,
                       again: () -> Result<T, Error>,
                       decode: string -> Result<T, Error>, encode: T -> Result<string, Error>,
                       getFailure: Option<Error>)
    requires Lookup(store, key, decode, getFailure).Err? && produce().Ok?
    requires encode(produce().value).Ok? && decode(encode(produce().value).value) == Ok(produce().value)
    ensures var first := GetOrSetOutcome(store, key, zero, produce, decode, encode, getFailure, None);
            var second := GetOrSetOutcome(first.store, key, zero, again, decode, encode, None, None);
            first.called && !second.called && second.value == produce().value && second.err.None?
            && second.store == first.store
  {
  }

  /** Every Fault the package builds has the default code 400 and is tagged;
      those that wrap an error unwrap to it. */
  lemma CacheFaultShape(msg: string, tag: Tag, cause: Error)
    ensures Unwrap(CacheFault(msg, tag, Some(cause))) == Some(cause)
    ensures CacheFault(msg, tag, Some(cause)).fault.httpCode == StatusBadRequest
    ensures CacheFault(msg, tag, Some(cause)).fault.tag == tag
    ensures ChainOf(Some(CacheFault(msg, tag, Some(cause)))) == [CacheFault(msg, tag, Some(cause))] + Chain(cause)
  {
    ChainStep(CacheFault(msg, tag, Some(cause)));
  }
}
