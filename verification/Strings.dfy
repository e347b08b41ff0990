/** Strings in byte order, and sorting them. */
module Strings {

  predicate Leq(a: string, b: string) {
    a == "" || (b != "" && (a[0] < b[0] || (a[0] == b[0] && Leq(a[1..], b[1..]))))
  }

  lemma {:induction false} LeqTotal(a: string, b: string)
    ensures Leq(a, b) || Leq(b, a)
    ensures Leq(a, b) && Leq(b, a) ==> a == b
  {
    if a != "" && b != "" && a[0] == b[0] {
      LeqTotal(a[1..], b[1..]);
      assert a == [a[0]] + a[1..] && b == [b[0]] + b[1..];
    }
  }

  lemma {:induction false} LeqTransitive(a: string, b: string, c: string)
    requires Leq(a, b) && Leq(b, c)
    ensures Leq(a, c)
  {
    if a != "" && a[0] == b[0] && b[0] == c[0] {
      LeqTransitive(a[1..], b[1..], c[1..]);
    }
  }

  predicate Ordered(xs: seq<string>) {
    forall i, j | 0 <= i < j < |xs| :: Leq(xs[i], xs[j])
  }

  /** Puts x after the last element that is not greater than it. */
  function Insert(xs: seq<string>, x: string): seq<string> {
    if xs == [] || Leq(xs[|xs| - 1], x) then xs + [x]
    else Insert(xs[..|xs| - 1], x) + [xs[|xs| - 1]]
  }

  function Sort(xs: seq<string>): seq<string> {
    if xs == [] then [] else Insert(Sort(xs[..|xs| - 1]), xs[|xs| - 1])
  }

  lemma {:induction false} InsertPermutes(xs: seq<string>, x: string)
    ensures multiset(Insert(xs, x)) == multiset(xs) + multiset{x} && |Insert(xs, x)| == |xs| + 1
  {
    if xs != [] && !Leq(xs[|xs| - 1], x) {
      InsertPermutes(xs[..|xs| - 1], x);
      assert xs == xs[..|xs| - 1] + [xs[|xs| - 1]];
    }
  }

  /** Sorting keeps every element, as often as it was there. */
  lemma {:induction false} SortPermutes(xs: seq<string>)
    ensures multiset(Sort(xs)) == multiset(xs) && |Sort(xs)| == |xs|
  {
    if xs != [] {
      SortPermutes(xs[..|xs| - 1]);
      InsertPermutes(Sort(xs[..|xs| - 1]), xs[|xs| - 1]);
      assert xs == xs[..|xs| - 1] + [xs[|xs| - 1]];
    }
  }

  lemma {:induction false} InsertOrdered(xs: seq<string>, x: string)
    requires Ordered(xs)
    ensures Ordered(Insert(xs, x))
  {
    if xs != [] {
      var n, last := |xs| - 1, xs[|xs| - 1];
      LeqTotal(last, x);
      if Leq(last, x) {
        forall i | 0 <= i < |xs| ensures Leq(xs[i], x) { if i < n { LeqTransitive(xs[i], last, x); } }
      } else {
        InsertOrdered(xs[..n], x);
        InsertPermutes(xs[..n], x);
        var front := Insert(xs[..n], x);
        forall i | 0 <= i < |front| ensures Leq(front[i], last) {
          assert front[i] in multiset(front);
          assert front[i] == x || front[i] in xs[..n];
        }
      }
    }
  }

  lemma {:induction false} SortOrdered(xs: seq<string>)
    ensures Ordered(Sort(xs))
  {
    if xs != [] {
      SortOrdered(xs[..|xs| - 1]);
      InsertOrdered(Sort(xs[..|xs| - 1]), xs[|xs| - 1]);
    }
  }

  lemma OrderedFirst(xs: seq<string>, ys: seq<string>)
    requires Ordered(xs) && Ordered(ys) && multiset(xs) == multiset(ys) && xs != [] && ys != []
    ensures xs[0] == ys[0]
  {
    assert xs[0] in multiset(ys) && ys[0] in multiset(xs);
    var i :| 0 <= i < |ys| && ys[i] == xs[0];
    var j :| 0 <= j < |xs| && xs[j] == ys[0];
    LeqTotal(xs[0], ys[0]);
    LeqTotal(ys[0], ys[0]);
  }

  lemma TailMultiset(xs: seq<string>)
    requires xs != []
    ensures multiset(xs[1..]) == multiset(xs) - multiset{xs[0]}
  {
    assert xs == [xs[0]] + xs[1..];
  }

  /** There is one ordered list of given elements. */
  lemma {:induction false} OrderedUnique(xs: seq<string>, ys: seq<string>)
    requires Ordered(xs) && Ordered(ys) && multiset(xs) == multiset(ys)
    ensures xs == ys
  {
    assert |multiset(xs)| == |xs| && |multiset(ys)| == |ys|;
    if xs != [] {
      OrderedFirst(xs, ys);
      TailMultiset(xs);
      TailMultiset(ys);
      OrderedUnique(xs[1..], ys[1..]);
      assert xs == [xs[0]] + xs[1..] && ys == [ys[0]] + ys[1..];
    }
  }

  /** Sorting an ordered list changes nothing. */
  lemma SortFixed(xs: seq<string>)
    requires Ordered(xs)
    ensures Sort(xs) == xs
  {
    SortOrdered(xs);
    SortPermutes(xs);
    OrderedUnique(Sort(xs), xs);
  }

  // ---- the names of a table, sorted

  predicate SortedKeys(keys: seq<string>, names: set<string>) {
    Ordered(keys) && multiset(keys) == multiset(names)
  }

  /** The names of a map in order. */
  method SortNames(names: set<string>) returns (keys: seq<string>)
    ensures SortedKeys(keys, names)
  {
    keys := [];
    var rest := names;
    while rest != {}
      invariant multiset(keys) + multiset(rest) == multiset(names)
    {
      var k :| k in rest;
      keys := keys + [k];
      rest := rest - {k};
    }
    SortOrdered(keys);
    SortPermutes(keys);
    keys := Sort(keys);
  }

  lemma SortedKeysAre(keys: seq<string>, names: set<string>)
    requires SortedKeys(keys, names)
    ensures forall j | 0 <= j < |keys| :: keys[j] in names
    ensures forall k | k in names :: k in keys
  {
    forall j | 0 <= j < |keys| ensures keys[j] in names { assert keys[j] in multiset(keys); }
    forall k | k in names ensures k in keys { assert k in multiset(names); }
  }

  // ---- white space

  predicate IsSpace(c: char) {
    || '\U{09}' <= c <= '\U{0D}' || c == ' ' || c == '\U{85}' || c == '\U{A0}' || c == '\U{1680}'
    || '\U{2000}' <= c <= '\U{200A}' || c == '\U{2028}' || c == '\U{2029}' || c == '\U{202F}' || c == '\U{205F}' || c == '\U{3000}'
  }

  function TrimLeft(s: string): string {
    if s != "" && IsSpace(s[0]) then TrimLeft(s[1..]) else s
  }

  function TrimRight(s: string): string {
    if s != "" && IsSpace(s[|s| - 1]) then TrimRight(s[..|s| - 1]) else s
  }

  function Trim(s: string): string { TrimLeft(TrimRight(s)) }

  lemma {:induction false} LeftBlank(s: string)
    ensures TrimLeft(s) == "" <==> forall c | c in s :: IsSpace(c)
  {
    if s != "" {
      assert s == [s[0]] + s[1..];
      if IsSpace(s[0]) { LeftBlank(s[1..]); }
    }
  }

  lemma {:induction false} RightBlank(s: string)
    ensures (forall c | c in TrimRight(s) :: IsSpace(c)) <==> forall c | c in s :: IsSpace(c)
  {
    if s != "" && IsSpace(s[|s| - 1]) {
      assert s == s[..|s| - 1] + [s[|s| - 1]];
      RightBlank(s[..|s| - 1]);
    }
  }

  /** Trimming leaves nothing exactly when there is nothing but white space. */
  lemma BlankIs(s: string)
    ensures Trim(s) == "" <==> forall c | c in s :: IsSpace(c)
  {
    RightBlank(s);
    LeftBlank(TrimRight(s));
  }

  predicate AllSpace(s: string) { forall i | 0 <= i < |s| :: IsSpace(s[i]) }

  lemma {:induction false} RightInside(s: string) returns (after: string)
    ensures s == TrimRight(s) + after && AllSpace(after)
    ensures TrimRight(s) == "" || !IsSpace(TrimRight(s)[|TrimRight(s)| - 1])
  {
    after := "";
    if s != "" && IsSpace(s[|s| - 1]) {
      var n := |s| - 1;
      var more := RightInside(s[..n]);
      after := more + [s[n]];
    }
  }

  lemma {:induction false} LeftInside(s: string) returns (before: string)
    ensures s == before + TrimLeft(s) && AllSpace(before)
    ensures TrimLeft(s) == "" || !IsSpace(TrimLeft(s)[0])
  {
    before := "";
    if s != "" && IsSpace(s[0]) {
      var more := LeftInside(s[1..]);
      before := [s[0]] + more;
    }
  }

  /** Trimming takes white space off both ends, all of it and nothing else. */
  lemma TrimInside(s: string) returns (before: string, after: string)
    ensures s == before + Trim(s) + after && AllSpace(before) && AllSpace(after)
    ensures var t := Trim(s); t == "" || (!IsSpace(t[0]) && !IsSpace(t[|t| - 1]))
  {
    after := RightInside(s);
    before := LeftInside(TrimRight(s));
    assert TrimRight(s) == before + Trim(s);
  }
}
