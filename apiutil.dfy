/** Package `pkg/apiutil`: a reference to a resource that is either just its
    id or the id together with the loaded resource. */
module ApiUtil {
  import opened Wrappers

  /** `Expandable[T]`; a nil `data` pointer is `None`. */
  datatype Expandable<T> = Expandable(id: string, data: Option<T>, expanded: bool)

  /** The invariant every constructed value keeps: expanded exactly when the
      data is present. */
  predicate Consistent<T>(e: Expandable<T>) {
    e.expanded <==> e.data.Some?
  }

  /** `NewExpandableField`. An id the id validator rejects is a programming
      error and panics; the validator (`uid.IsValid`) is given as a
      parameter. The id and data are kept as given. */
  function NewExpandableField<T>(isValid: string -> bool, id: string, data: Option<T>): (r: Expandable<T>)
    requires isValid(id)
    ensures r.id == id && r.data == data
    ensures Consistent(r)
  {
    if data.None? then Expandable(id, None, false) else Expandable(id, data, true)
  }

  /** What `MarshalJSON` hands to the JSON encoder. */
  datatype Encoded<T> = EncodeData(data: Option<T>) | EncodeId(id: string)

  /** `MarshalJSON`: the data when expanded, the id string otherwise. The
      payload carried is stated by MarshalConstructed and MarshalRecovers. */
  function MarshalJSON<T>(e: Expandable<T>): (r: Encoded<T>)
    ensures r.EncodeData? <==> e.expanded
  {
    if e.expanded then EncodeData(e.data) else EncodeId(e.id)
  }

  /** A constructed field serialises to its data when the data was given,
      never to a null, and to its id otherwise. */
  lemma MarshalConstructed<T>(isValid: string -> bool, id: string, data: Option<T>)
    requires isValid(id)
    ensures data.Some? ==> MarshalJSON(NewExpandableField(isValid, id, data)) == EncodeData(data)
    ensures data.None? ==> MarshalJSON(NewExpandableField(isValid, id, data)) == EncodeId(id)
  {
  }

  /** The encoding of a consistent value loses nothing it holds: the id, or
      the data, can be read back from it. */
  lemma MarshalRecovers<T>(e: Expandable<T>)
    requires Consistent(e)
    ensures match MarshalJSON(e)
            case EncodeData(d) => d.Some? && d == e.data
            case EncodeId(i) => i == e.id && e.data.None?
  {
  }
}
