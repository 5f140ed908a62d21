/** The functional options `func(*Fault)` that both Fault packages hand to
    `New`. Each builder returns a closure that writes one field of the Fault;
    here a closure is the datatype value naming the write it performs. */
module FaultOptions {
  import opened Wrappers
  import opened Errors

  datatype Configure =
    | WithHTTPCode(code: int)           // sets HTTPCode
    | WithErr(err: Option<Error>)       // sets Err, but WithErr(nil) does nothing
    | WithTag(tag: Tag)                 // sets Tag
    | WithFieldError(fields: FieldList) // sets FieldError to exactly the given slice
    | Keep                              // the closure that does nothing

  /** Running one closure on the Fault. */
  function Apply(f: Fault, o: Configure): Fault {
    match o
    case WithHTTPCode(c) => f.(httpCode := c)
    case WithErr(e) => if e.None? then f else f.(cause := e)
    case WithTag(t) => f.(tag := t)
    case WithFieldError(l) => f.(fields := l)
    case Keep => f
  }

  /** Running the closures in order, as `for _, fn := range options { fn(&fault) }`
      does; no closure ever writes the message. */
  function ApplyAll(f: Fault, opts: seq<Configure>): (r: Fault)
    ensures r.message == f.message
  {
    if opts == [] then f else Apply(ApplyAll(f, opts[..|opts| - 1]), opts[|opts| - 1])
  }

  /** The four fields an option can write. */
  datatype Slot = HTTPCodeSlot | TagSlot | FieldsSlot | CauseSlot

  predicate Writes(o: Configure, s: Slot) {
    match s
    case HTTPCodeSlot => o.WithHTTPCode?
    case TagSlot => o.WithTag?
    case FieldsSlot => o.WithFieldError?
    case CauseSlot => o.WithErr? && o.err.Some?
  }

  predicate SameSlot(f: Fault, g: Fault, s: Slot) {
    match s
    case HTTPCodeSlot => f.httpCode == g.httpCode
    case TagSlot => f.tag == g.tag
    case FieldsSlot => f.fields == g.fields
    case CauseSlot => f.cause == g.cause
  }

  /** A closure that does not write a slot leaves it alone. */
  lemma ApplyOther(f: Fault, o: Configure, s: Slot)
    requires !Writes(o, s)
    ensures SameSlot(Apply(f, o), f, s)
  {
  }

  /** The last option that writes a field decides its value. */
  lemma {:induction false} LastWriteWins(f: Fault, opts: seq<Configure>, s: Slot, i: nat)
    requires i < |opts| && Writes(opts[i], s)
    requires forall j :: i < j < |opts| ==> !Writes(opts[j], s)
    ensures SameSlot(ApplyAll(f, opts), Apply(f, opts[i]), s)
  {
    var n := |opts| - 1;
    if i < n {
      assert opts[..n][i] == opts[i];
      LastWriteWins(f, opts[..n], s, i);
      ApplyOther(ApplyAll(f, opts[..n]), opts[n], s);
    }
  }

  /** A field no option writes keeps the value it had before the options ran. */
  lemma {:induction false} UntouchedSlot(f: Fault, opts: seq<Configure>, s: Slot)
    requires forall j :: 0 <= j < |opts| ==> !Writes(opts[j], s)
    ensures SameSlot(ApplyAll(f, opts), f, s)
  {
    if opts != [] {
      var n := |opts| - 1;
      UntouchedSlot(f, opts[..n], s);
      ApplyOther(ApplyAll(f, opts[..n]), opts[n], s);
    }
  }

  /** One, two and three options run one after the other. */
  lemma ApplyAllOne(f: Fault, a: Configure)
    ensures ApplyAll(f, [a]) == Apply(f, a)
  {
    assert [a][..0] == [];
    assert ApplyAll(f, [a]) == Apply(ApplyAll(f, []), a);
  }

  lemma ApplyAllTwo(f: Fault, a: Configure, b: Configure)
    ensures ApplyAll(f, [a, b]) == Apply(Apply(f, a), b)
  {
    assert [a, b][..1] == [a];
    ApplyAllOne(f, a);
    assert ApplyAll(f, [a, b]) == Apply(ApplyAll(f, [a]), b);
  }

  lemma ApplyAllThree(f: Fault, a: Configure, b: Configure, c: Configure)
    ensures ApplyAll(f, [a, b, c]) == Apply(Apply(Apply(f, a), b), c)
  {
    assert [a, b, c][..2] == [a, b];
    ApplyAllTwo(f, a, b);
  }

  /** The Fault `New` starts from in both packages: 400, the package's
      untagged tag, an empty non-nil field list and no cause. */
  function Defaults(untagged: Tag, msg: string): Fault {
    Fault(StatusBadRequest, msg, Items([]), untagged, None)
  }

  /** What `New(msg, options...)` returns. */
  function Built(untagged: Tag, msg: string, opts: seq<Configure>): Fault {
    ApplyAll(Defaults(untagged, msg), opts)
  }

  /** The body both packages' `New` share: build the defaults, then run every
      option on the record in order. */
  method Construct(untagged: Tag, msg: string, opts: seq<Configure>) returns (f: Fault)
    ensures f == Built(untagged, msg, opts)
  {
    f := Fault(StatusBadRequest, msg, Items([]), untagged, None);
    for i := 0 to |opts|
      invariant f == ApplyAll(Defaults(untagged, msg), opts[..i])
    {
      assert opts[..i + 1][..i] == opts[..i];
      f := Apply(f, opts[i]);
    }
    assert opts[..|opts|] == opts;
  }

  /** The message is always `msg`; each field no option writes keeps its
      default. */
  lemma BuiltDefaults(untagged: Tag, msg: string, opts: seq<Configure>)
    ensures Built(untagged, msg, opts).message == msg
    ensures (forall j :: 0 <= j < |opts| ==> !opts[j].WithHTTPCode?) ==> Built(untagged, msg, opts).httpCode == StatusBadRequest
    ensures (forall j :: 0 <= j < |opts| ==> !opts[j].WithTag?) ==> Built(untagged, msg, opts).tag == untagged
    ensures (forall j :: 0 <= j < |opts| ==> !opts[j].WithFieldError?) ==> Built(untagged, msg, opts).fields == Items([])
    ensures (forall j :: 0 <= j < |opts| ==> !(opts[j].WithErr? && opts[j].err.Some?)) ==> Built(untagged, msg, opts).cause.None?
  {
    var f := Defaults(untagged, msg);
    if forall j :: 0 <= j < |opts| ==> !opts[j].WithHTTPCode? {
      UntouchedSlot(f, opts, HTTPCodeSlot);
    }
    if forall j :: 0 <= j < |opts| ==> !opts[j].WithTag? {
      UntouchedSlot(f, opts, TagSlot);
    }
    if forall j :: 0 <= j < |opts| ==> !opts[j].WithFieldError? {
      UntouchedSlot(f, opts, FieldsSlot);
    }
    if forall j :: 0 <= j < |opts| ==> !(opts[j].WithErr? && opts[j].err.Some?) {
      UntouchedSlot(f, opts, CauseSlot);
    }
  }
}
