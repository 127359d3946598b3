/** Strings in code-point order, and the sorted listing of a directory. */
module TextOrder {
  predicate Less(a: string, b: string) {
    b != "" && (a == "" || a[0] < b[0] || (a[0] == b[0] && Less(a[1..], b[1..])))
  }

  lemma {:induction false} Irreflexive(a: string)
    ensures !Less(a, a)
  {
    if a != "" { Irreflexive(a[1..]); }
  }

  lemma {:induction false} Transitive(a: string, b: string, c: string)
    requires Less(a, b) && Less(b, c)
    ensures Less(a, c)
  {
    if a != "" && a[0] == b[0] == c[0] { Transitive(a[1..], b[1..], c[1..]); }
  }

  lemma {:induction false} Total(a: string, b: string)
    ensures Less(a, b) || a == b || Less(b, a)
  {
    if a != "" && b != "" && a[0] == b[0] {
      Total(a[1..], b[1..]);
      assert a == [a[0]] + a[1..] && b == [b[0]] + b[1..];
    }
  }

  /** A common front does not matter. */
  lemma {:induction false} SharedFront(p: string, a: string, b: string)
    ensures Less(p + a, p + b) <==> Less(a, b)
  {
    if p == "" {
      assert p + a == a && p + b == b;
    } else {
      SharedFront(p[1..], a, b);
      assert (p + a)[1..] == p[1..] + a && (p + b)[1..] == p[1..] + b;
    }
  }

  /** Between fronts of one length, the fronts decide. */
  lemma {:induction false} FrontDecides(a: string, b: string, x: string, y: string)
    requires |a| == |b| && Less(a, b)
    ensures Less(a + x, b + y)
  {
    if a[0] == b[0] {
      FrontDecides(a[1..], b[1..], x, y);
      assert (a + x)[1..] == a[1..] + x && (b + y)[1..] == b[1..] + y;
    }
  }

  ghost predicate Ascending(names: seq<string>) {
    forall i, j :: 0 <= i < j < |names| ==> Less(names[i], names[j])
  }

  ghost predicate Lists(names: seq<string>, s: set<string>) {
    Ascending(names) && forall x :: x in names <==> x in s
  }

  lemma {:induction false} FirstIsLeast(names: seq<string>, s: set<string>, x: string)
    requires Lists(names, s) && x in s
    ensures names != [] && (x == names[0] || Less(names[0], x))
  {
    assert x in names;
  }

  lemma ListingTail(names: seq<string>, s: set<string>)
    requires Lists(names, s) && names != []
    ensures Lists(names[1..], s - {names[0]})
  {
    Irreflexive(names[0]);
    forall x ensures x in names[1..] <==> x in s - {names[0]} {
      assert x in names[1..] ==> x in names;
      assert names == [names[0]] + names[1..];
    }
  }

  /** A set has one sorted listing. */
  lemma {:induction false} ListingIsUnique(a: seq<string>, b: seq<string>, s: set<string>)
    requires Lists(a, s) && Lists(b, s)
    ensures a == b
  {
    if a != [] || b != [] {
      var x := if a != [] then a[0] else b[0];
      assert x in s;
      FirstIsLeast(a, s, x);
      FirstIsLeast(b, s, x);
      assert a[0] in a && b[0] in b;
      FirstIsLeast(a, s, b[0]);
      if Less(a[0], b[0]) && Less(b[0], a[0]) {
        Transitive(a[0], b[0], a[0]);
        Irreflexive(a[0]);
      }
      FirstIsLeast(b, s, a[0]);
      ListingTail(a, s);
      ListingTail(b, s);
      ListingIsUnique(a[1..], b[1..], s - {a[0]});
      assert a == [a[0]] + a[1..] && b == [b[0]] + b[1..];
    }
  }

  /** `x` put in its place, after everything below it. */
  method Insert(names: seq<string>, x: string, ghost s: set<string>) returns (r: seq<string>)
    requires Lists(names, s) && x !in s
    ensures Lists(r, s + {x})
  {
    var k := 0;
    while k < |names| && Less(names[k], x)
      invariant k <= |names|
      invariant forall i :: 0 <= i < k ==> Less(names[i], x)
    {
      k := k + 1;
    }
    r := names[..k] + [x] + names[k..];
    forall i | k <= i < |names| ensures Less(x, names[i]) {
      assert names[k] in names && names[i] in names;
      Total(names[k], x);
      if i > k { Transitive(x, names[k], names[i]); }
    }
    forall y ensures y in r <==> y in s + {x} {
      assert names == names[..k] + names[k..];
    }
  }

  method Sorted(s: set<string>) returns (names: seq<string>)
    ensures Lists(names, s)
  {
    names := [];
    var rest := s;
    while rest != {}
      invariant rest <= s && Lists(names, s - rest)
      decreases |rest|
    {
      var x :| x in rest;
      names := Insert(names, x, s - rest);
      rest := rest - {x};
      assert s - rest == s - (rest + {x}) + {x};
    }
    assert s - rest == s;
  }
}
