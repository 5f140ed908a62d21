/** The handful of Go `strings` functions the helpers rely on: white-space
    trimming, splitting on a one-character separator, and index search.
    Strings are sequences of Unicode code points. */
module Strings {
  import opened Wrappers

  /** `unicode.IsSpace`: the Latin-1 white space plus the other characters
      with the Unicode White_Space property. */
  predicate IsSpace(c: char) {
    c == ' ' || c == '\t' || c == '\n' || c == '\U{000B}' || c == '\U{000C}' || c == '\r'
    || c == '\U{0085}' || c == '\U{00A0}' || c == '\U{1680}'
    || ('\U{2000}' <= c <= '\U{200A}')
    || c == '\U{2028}' || c == '\U{2029}' || c == '\U{202F}' || c == '\U{205F}' || c == '\U{3000}'
  }

  predicate AllSpace(s: string) {
    forall i :: 0 <= i < |s| ==> IsSpace(s[i])
  }

  /** Neither end of `s` is white space. */
  predicate Trimmed(s: string) {
    s == [] || (!IsSpace(s[0]) && !IsSpace(s[|s| - 1]))
  }

  /** Length of the white-space run at the start of `s`. */
  function LeadingSpace(s: string): (n: nat)
    ensures n <= |s| && AllSpace(s[..n])
    ensures n < |s| ==> !IsSpace(s[n])
  {
    if s == [] || !IsSpace(s[0]) then 0 else 1 + LeadingSpace(s[1..])
  }

  /** Length of the white-space run at the end of `s`. */
  function TrailingSpace(s: string): (n: nat)
    ensures n <= |s| && AllSpace(s[|s| - n..])
    ensures n < |s| ==> !IsSpace(s[|s| - n - 1])
  {
    if s == [] || !IsSpace(s[|s| - 1]) then 0 else 1 + TrailingSpace(s[..|s| - 1])
  }

  /** `strings.TrimSpace`: drops the leading and the trailing white space. */
  function TrimSpace(s: string): (r: string)
    ensures Trimmed(r)
    ensures |r| <= |s|
  {
    var left := s[LeadingSpace(s)..];
    var r := left[..|left| - TrailingSpace(left)];
    assert left != [] ==> left[0] == s[LeadingSpace(s)];
    r
  }

  /** TrimSpace leaves nothing exactly when `s` is all white space. */
  lemma TrimSpaceEmpty(s: string)
    ensures TrimSpace(s) == [] <==> AllSpace(s)
  {
    var left := s[LeadingSpace(s)..];
    assert TrimSpace(s) == [] ==> AllSpace(left);
  }

  /** The part of `s` that TrimSpace keeps is a slice, and what it drops on
      either side is white space. */
  lemma TrimSpaceSlice(s: string)
    ensures exists i, j :: 0 <= i <= j <= |s| && TrimSpace(s) == s[i..j]
                           && AllSpace(s[..i]) && AllSpace(s[j..])
  {
    var i := LeadingSpace(s);
    var left := s[i..];
    var j := i + |left| - TrailingSpace(left);
    assert TrimSpace(s) == s[i..j];
    assert s[j..] == left[|left| - TrailingSpace(left)..];
  }

  /** Trimming adds no character: one absent from `s` is absent from the result. */
  lemma TrimSpaceKeepsOut(s: string, c: char)
    requires c !in s
    ensures c !in TrimSpace(s)
  {
    TrimSpaceSlice(s);
  }

  lemma {:induction false} LeadingSpaceOfPadded(a: string, s: string)
    requires AllSpace(a) && s != [] && !IsSpace(s[0])
    ensures LeadingSpace(a + s) == |a|
  {
    if a != [] {
      assert (a + s)[1..] == a[1..] + s;
      LeadingSpaceOfPadded(a[1..], s);
    }
  }

  lemma {:induction false} TrailingSpaceOfPadded(s: string, b: string)
    requires AllSpace(b) && s != [] && !IsSpace(s[|s| - 1])
    ensures TrailingSpace(s + b) == |b|
  {
    if b != [] {
      assert (s + b)[..|s + b| - 1] == s + b[..|b| - 1];
      TrailingSpaceOfPadded(s, b[..|b| - 1]);
    }
  }

  /** Trimming a trimmed, non-empty text padded with white space on both
      sides gives the text back. */
  lemma TrimSpaceOfPadded(a: string, s: string, b: string)
    requires AllSpace(a) && AllSpace(b) && Trimmed(s) && s != []
    ensures TrimSpace(a + s + b) == s
  {
    var t := a + (s + b);
    assert t == a + s + b;
    assert (s + b)[0] == s[0];
    LeadingSpaceOfPadded(a, s + b);
    var left := t[|a|..];
    assert left == s + b;
    TrailingSpaceOfPadded(s, b);
    assert left[..|left| - |b|] == s;
  }

  /** Trimming a trimmed, non-empty text preceded by white space gives the
      text back. */
  lemma TrimSpaceOfPrefixed(a: string, s: string)
    requires AllSpace(a) && Trimmed(s) && s != []
    ensures TrimSpace(a + s) == s
  {
    LeadingSpaceOfPadded(a, s);
    assert (a + s)[|a|..] == s;
  }

  /** Trimming an already trimmed string changes nothing. */
  lemma TrimSpaceOfTrimmed(s: string)
    requires Trimmed(s)
    ensures TrimSpace(s) == s
  {
  }

  /** TrimSpace is idempotent. */
  lemma TrimSpaceIdempotent(s: string)
    ensures TrimSpace(TrimSpace(s)) == TrimSpace(s)
  {
    TrimSpaceOfTrimmed(TrimSpace(s));
  }

  /** `strings.Index` for a one-character needle: the first position of `c`. */
  function IndexOf(s: string, c: char): (r: Option<nat>)
    ensures r.None? <==> c !in s
    ensures r.Some? ==> r.value < |s| && s[r.value] == c && c !in s[..r.value]
  {
    if s == [] then None
    else if s[0] == c then Some(0)
    else
      match IndexOf(s[1..], c)
      case None => None
      case Some(k) => assert s[1..][..k] == s[1..k + 1]; Some(k + 1)
  }

  /** `strings.LastIndex` for a one-character needle: the last position of `c`. */
  function LastIndexOf(s: string, c: char): (r: Option<nat>)
    ensures r.None? <==> c !in s
    ensures r.Some? ==> r.value < |s| && s[r.value] == c && c !in s[r.value + 1..]
  {
    if s == [] then None
    else if s[|s| - 1] == c then Some(|s| - 1)
    else
      match LastIndexOf(s[..|s| - 1], c)
      case None => None
      case Some(k) => assert s[k + 1..] == s[..|s| - 1][k + 1..] + [s[|s| - 1]]; Some(k)
  }

  /** `strings.Join` with a one-character separator. */
  function Join(parts: seq<string>, sep: char): string
    requires |parts| >= 1
  {
    if |parts| == 1 then parts[0] else parts[0] + [sep] + Join(parts[1..], sep)
  }

  /** `strings.Split` with a one-character separator: the pieces between the
      separators, empty pieces included; there is always one piece more than
      there are separators. */
  function Split(s: string, sep: char): (parts: seq<string>)
    ensures |parts| == multiset(s)[sep] + 1
    ensures forall i :: 0 <= i < |parts| ==> sep !in parts[i]
    decreases |s|
  {
    match IndexOf(s, sep)
    case None =>
      assert multiset(s)[sep] == 0;
      [s]
    case Some(k) =>
      assert s == s[..k] + [sep] + s[k + 1..];
      assert multiset(s) == multiset(s[..k]) + multiset{sep} + multiset(s[k + 1..]) by {
        calc {
          multiset(s);
          multiset(s[..k] + [sep] + s[k + 1..]);
        }
      }
      [s[..k]] + Split(s[k + 1..], sep)
  }

  /** Joining the pieces of a split restores the string. */
  lemma {:induction false} JoinSplit(s: string, sep: char)
    ensures Join(Split(s, sep), sep) == s
    decreases |s|
  {
    match IndexOf(s, sep)
    case None =>
    case Some(k) =>
      JoinSplit(s[k + 1..], sep);
      assert s == s[..k] + [sep] + s[k + 1..];
  }

  /** Splitting a join of separator-free pieces gives the pieces back. */
  lemma {:induction false} SplitJoin(parts: seq<string>, sep: char)
    requires |parts| >= 1
    requires forall i :: 0 <= i < |parts| ==> sep !in parts[i]
    ensures Split(Join(parts, sep), sep) == parts
  {
    if |parts| > 1 {
      SplitJoin(parts[1..], sep);
      SplitFirst(parts[0], Join(parts[1..], sep), sep);
    }
  }

  /** The first separator of `a + sep + b`, when `a` has none, is the one
      after `a`. */
  lemma {:induction false} IndexAfterFree(a: string, b: string, sep: char)
    requires sep !in a
    ensures IndexOf(a + [sep] + b, sep) == Some(|a|)
  {
    if a != [] {
      IndexAfterFree(a[1..], b, sep);
      assert (a + [sep] + b)[1..] == a[1..] + [sep] + b;
    }
  }

  /** Splitting `a + sep + b` where `a` is separator-free peels `a` off. */
  lemma SplitFirst(a: string, b: string, sep: char)
    requires sep !in a
    ensures Split(a + [sep] + b, sep) == [a] + Split(b, sep)
  {
    var s := a + [sep] + b;
    IndexAfterFree(a, b, sep);
    assert s[..|a|] == a;
    assert s[|a| + 1..] == b;
  }

  /** Every character of every piece of a split is a character of the
      string split. */
  lemma {:induction false} SplitChars(s: string, sep: char)
    ensures forall i, j :: 0 <= i < |Split(s, sep)| && 0 <= j < |Split(s, sep)[i]| ==> Split(s, sep)[i][j] in s
    decreases |s|
  {
    match IndexOf(s, sep)
    case None =>
    case Some(k) =>
      SplitChars(s[k + 1..], sep);
      var parts := Split(s, sep);
      assert parts == [s[..k]] + Split(s[k + 1..], sep);
      forall i, j | 0 <= i < |parts| && 0 <= j < |parts[i]|
        ensures parts[i][j] in s
      {
        if i == 0 {
          assert parts[i][j] == s[j];
        } else {
          assert parts[i] == Split(s[k + 1..], sep)[i - 1];
          assert parts[i][j] in s[k + 1..];
        }
      }
  }

  /** The first piece of a split is the text before the first separator. */
  lemma SplitHead(s: string, sep: char)
    ensures Split(s, sep)[0] == (match IndexOf(s, sep) case None => s case Some(k) => s[..k])
  {
  }
}
