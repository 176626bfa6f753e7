/** Python's built-in `sorted` on a set of strings: the strings in ascending
    order of `<`, which compares lexicographically by character and puts a
    proper prefix first. */
module Ordering {

  /** a < b on Python strings. */
  predicate Less(a: string, b: string) {
    if a == [] then b != []
    else b != [] && (a[0] < b[0] || (a[0] == b[0] && Less(a[1..], b[1..])))
  }

  lemma {:induction false} LessIrreflexive(a: string)
    ensures !Less(a, a)
  {
    if a != [] {
      LessIrreflexive(a[1..]);
    }
  }

  lemma {:induction false} LessTransitive(a: string, b: string, c: string)
    requires Less(a, b) && Less(b, c)
    ensures Less(a, c)
  {
    if a != [] && a[0] == b[0] && b[0] == c[0] {
      LessTransitive(a[1..], b[1..], c[1..]);
    }
  }

  lemma {:induction false} LessTotal(a: string, b: string)
    requires a != b
    ensures Less(a, b) || Less(b, a)
  {
    if a != [] && b != [] && a[0] == b[0] {
      assert a == [a[0]] + a[1..] && b == [b[0]] + b[1..];
      LessTotal(a[1..], b[1..]);
    }
  }

  /** Ascending with no duplicates. */
  predicate StrictlySorted(s: seq<string>) {
    forall i, j | 0 <= i < j < |s| :: Less(s[i], s[j])
  }

  lemma SortedPrepend(x: string, s: seq<string>)
    requires StrictlySorted(s)
    requires s != [] ==> Less(x, s[0])
    ensures StrictlySorted([x] + s)
  {
    forall j | 0 < j < |s| ensures Less(x, s[j]) {
      LessTransitive(x, s[0], s[j]);
    }
  }

  /** Insertion of a new string into an ascending sequence. */
  function Insert(s: seq<string>, x: string): (r: seq<string>)
    requires StrictlySorted(s) && x !in s
    ensures StrictlySorted(r)
    ensures |r| == |s| + 1
    ensures forall y :: y in r <==> y in s || y == x
    decreases |s|
  {
    if s == [] then [x]
    else if Less(x, s[0]) then
      SortedPrepend(x, s);
      [x] + s
    else
      var t := Insert(s[1..], x);
      LessTotal(x, s[0]);
      assert t[0] in s[1..] || t[0] == x;
      SortedPrepend(s[0], t);
      [s[0]] + t
  }

  /** sorted(items) for a set of strings: every string once, in ascending
      order. */
  method SortedList(items: set<string>) returns (r: seq<string>)
    ensures StrictlySorted(r)
    ensures |r| == |items|
    ensures forall y :: y in r <==> y in items
  {
    r := [];
    var rest := items;
    while rest != {}
      invariant rest <= items
      invariant StrictlySorted(r)
      invariant forall y :: y in r <==> y in items && y !in rest
      invariant |r| + |rest| == |items|
      decreases |rest|
    {
      var x :| x in rest;
      r := Insert(r, x);
      rest := rest - {x};
    }
  }

}
