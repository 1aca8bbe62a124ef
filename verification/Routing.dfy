/** Choosing the project that serves a path: prefixes sorted by length, longest first, then scanned. */
module Routing {
  import opened Basics
  import opened Paths

  datatype Lookup = Lookup(prefix: string, project: int)

  // ----- the stable sort -----

  function Insert(x: Lookup, xs: seq<Lookup>): seq<Lookup> {
    if xs == [] || |x.prefix| > |xs[0].prefix| then [x] + xs
    else [xs[0]] + Insert(x, xs[1..])
  }

  /** Longest prefix first; equal lengths stay in their order. */
  function Sorted(xs: seq<Lookup>): seq<Lookup> {
    if xs == [] then [] else Insert(xs[|xs| - 1], Sorted(xs[..|xs| - 1]))
  }

  predicate Descending(xs: seq<Lookup>) {
    forall i, j | 0 <= i < j < |xs| :: |xs[i].prefix| >= |xs[j].prefix|
  }

  lemma {:induction false} InsertAdds(x: Lookup, xs: seq<Lookup>)
    ensures multiset(Insert(x, xs)) == multiset(xs) + multiset{x}
  {
    if !(xs == [] || |x.prefix| > |xs[0].prefix|) {
      InsertAdds(x, xs[1..]);
      assert xs == [xs[0]] + xs[1..];
    }
  }

  ghost predicate AtMost(xs: seq<Lookup>, n: nat) { forall i | 0 <= i < |xs| :: |xs[i].prefix| <= n }

  lemma {:induction false} InsertDescends(x: Lookup, xs: seq<Lookup>, n: nat)
    requires Descending(xs) && AtMost(xs, n) && |x.prefix| <= n
    ensures Descending(Insert(x, xs)) && AtMost(Insert(x, xs), n)
  {
    if !(xs == [] || |x.prefix| > |xs[0].prefix|) {
      InsertDescends(x, xs[1..], |xs[0].prefix|);
    }
  }

  lemma {:induction false} SortedSorts(xs: seq<Lookup>)
    ensures Descending(Sorted(xs)) && multiset(Sorted(xs)) == multiset(xs)
  {
    if xs != [] {
      var front, last := xs[..|xs| - 1], xs[|xs| - 1];
      SortedSorts(front);
      InsertAdds(last, Sorted(front));
      var n := |last.prefix| + (if front == [] then 0 else |Sorted(front)[0].prefix|);
      InsertDescends(last, Sorted(front), n);
      assert xs == front + [last];
    }
  }

  lemma SameMembers(xs: seq<Lookup>, ys: seq<Lookup>)
    requires multiset(xs) == multiset(ys)
    ensures forall l :: l in xs <==> l in ys
  {
    forall l ensures l in xs <==> l in ys {
      assert l in xs <==> l in multiset(xs);
      assert l in ys <==> l in multiset(ys);
    }
  }

  // ----- the scan -----

  predicate IsSubPath(l: Lookup, url: string) { l.prefix <= url }

  predicate Serves(l: Lookup, url: string) { IsSubPath(l, url) || url == Clean(l.prefix) }

  datatype Choice = Choice(lookup: Lookup, subPath: string)

  function SubPath(l: Lookup, url: string): string {
    if IsSubPath(l, url) then url[|l.prefix|..] else ""
  }

  /** The first of `xs` that serves the path. */
  function First(xs: seq<Lookup>, url: string): Option<Lookup> {
    if xs == [] then None else if Serves(xs[0], url) then Some(xs[0]) else First(xs[1..], url)
  }

  method Resolve(lookups: seq<Lookup>, url: string) returns (choice: Option<Choice>)
    ensures choice.None? <==> forall l | l in lookups :: !Serves(l, url)
    ensures choice.Some? ==>
              && IsBest(lookups, url, choice.value.lookup)
              && choice.value.subPath == SubPath(choice.value.lookup, url)
    // the same in plain terms
    ensures choice.None? ==> forall l | l in lookups :: !(l.prefix <= url) && url != Clean(l.prefix)
    ensures choice.Some? ==>
              var l, rest := choice.value.lookup, choice.value.subPath;
              && l in lookups
              && (if l.prefix <= url then l.prefix + rest == url else url == Clean(l.prefix) && rest == "")
              && forall m | m in lookups && (m.prefix <= url || url == Clean(m.prefix)) :: |m.prefix| <= |l.prefix|
  {
    var sorted := Sorted(lookups);
    var i := 0;
    while i < |sorted| && !Serves(sorted[i], url)
      invariant i <= |sorted| && First(sorted, url) == First(sorted[i..], url)
    {
      assert sorted[i..][1..] == sorted[i + 1..];
      i := i + 1;
    }
    BestIsFirst(lookups, url);
    BestExactly(lookups, url);
    if i == |sorted| {
      return None;
    }
    return Some(Choice(sorted[i], SubPath(sorted[i], url)));
  }

  // ----- what sorting and scanning chooses -----

  /** One pass without sorting: replace the candidate only by a strictly longer prefix. */
  function Best(xs: seq<Lookup>, url: string): Option<Lookup> {
    if xs == [] then None else Better(Best(xs[..|xs| - 1], url), xs[|xs| - 1], url)
  }

  function Better(best: Option<Lookup>, x: Lookup, url: string): Option<Lookup> {
    if Serves(x, url) && (best.None? || |x.prefix| > |best.value.prefix|) then Some(x) else best
  }

  lemma {:induction false} FirstIn(xs: seq<Lookup>, url: string)
    ensures First(xs, url).Some? ==> First(xs, url).value in xs
  {
    if xs != [] {
      FirstIn(xs[1..], url);
    }
  }

  lemma {:induction false} FirstOfInsert(x: Lookup, xs: seq<Lookup>, url: string)
    requires Descending(xs)
    ensures First(Insert(x, xs), url) == Better(First(xs, url), x, url)
  {
    if xs == [] || |x.prefix| > |xs[0].prefix| {
      assert ([x] + xs)[1..] == xs;
      FirstIn(xs, url);
      assert First(xs, url).Some? ==> |First(xs, url).value.prefix| <= |xs[0].prefix|;
    } else {
      FirstOfInsert(x, xs[1..], url);
      assert ([xs[0]] + Insert(x, xs[1..]))[1..] == Insert(x, xs[1..]);
    }
  }

  lemma {:induction false} BestIsFirst(xs: seq<Lookup>, url: string)
    ensures First(Sorted(xs), url) == Best(xs, url)
  {
    if xs != [] {
      var front := xs[..|xs| - 1];
      BestIsFirst(front, url);
      SortedSorts(front);
      FirstOfInsert(xs[|xs| - 1], Sorted(front), url);
    }
  }

  /** `l` serves the path; no other that does has a longer prefix, nor an equally long one before it. */
  ghost predicate IsBest(xs: seq<Lookup>, url: string, l: Lookup) {
    exists i | 0 <= i < |xs| ::
      && xs[i] == l && Serves(l, url)
      && forall j | 0 <= j < |xs| && Serves(xs[j], url) ::
           |xs[j].prefix| < |l.prefix| || (|xs[j].prefix| == |l.prefix| && i <= j)
  }

  /** Sorting and scanning chooses the first of the longest prefixes that serve the path. */
  lemma {:induction false} BestExactly(xs: seq<Lookup>, url: string)
    ensures Best(xs, url).None? <==> forall l | l in xs :: !Serves(l, url)
    ensures Best(xs, url).Some? ==> IsBest(xs, url, Best(xs, url).value)
  {
    if xs != [] {
      var n := |xs| - 1;
      var front, x := xs[..n], xs[n];
      assert xs == front + [x];
      BestExactly(front, url);
      if Best(xs, url).Some? {
        if Best(xs, url) == Best(front, url) {
          var i :| 0 <= i < n && front[i] == Best(front, url).value && Serves(front[i], url)
                   && forall j | 0 <= j < n && Serves(front[j], url) ::
                        |front[j].prefix| < |front[i].prefix| || (|front[j].prefix| == |front[i].prefix| && i <= j);
          BestAt(xs, url, i);
        } else {
          BestAt(xs, url, n);
        }
      }
    }
  }

  lemma BestAt(xs: seq<Lookup>, url: string, i: nat)
    requires i < |xs| && Serves(xs[i], url)
    requires forall j | 0 <= j < |xs| && Serves(xs[j], url) ::
               |xs[j].prefix| < |xs[i].prefix| || (|xs[j].prefix| == |xs[i].prefix| && i <= j)
    ensures IsBest(xs, url, xs[i])
  {
  }

  // ----- independence of the order -----

  /** Prefixes as the API gives them: a clean absolute path with a slash at its end. */
  predicate WellFormed(l: Lookup) {
    l.prefix == "/" || (l.prefix != "" && l.prefix == Clean(l.prefix) + "/")
  }

  lemma SameLengthSamePrefix(a: Lookup, b: Lookup, url: string)
    requires WellFormed(a) && WellFormed(b) && Serves(a, url) && Serves(b, url)
    requires |a.prefix| == |b.prefix|
    ensures a.prefix == b.prefix
  {
    assert Clean("/") == "/" by {
      assert Split("/") == ["", ""] by { assert "/"[1..] == ""; }
      NamesOfRooted([]);
    }
    if IsSubPath(a, url) && IsSubPath(b, url) {
      assert a.prefix == url[..|a.prefix|];
    }
  }

  /** With distinct well-formed prefixes the choice is the same in whatever order they come. */
  lemma OrderIrrelevant(xs: seq<Lookup>, ys: seq<Lookup>, url: string)
    requires multiset(xs) == multiset(ys)
    requires forall l | l in xs :: WellFormed(l)
    requires forall i, j | 0 <= i < j < |xs| :: xs[i].prefix != xs[j].prefix
    ensures First(Sorted(xs), url) == First(Sorted(ys), url)
  {
    SameMembers(xs, ys);
    BestIsFirst(xs, url);
    BestIsFirst(ys, url);
    BestExactly(xs, url);
    BestExactly(ys, url);
    if Best(xs, url).Some? {
      var c, d := Best(xs, url).value, Best(ys, url).value;
      BestLongest(xs, url, c, d);
      BestLongest(ys, url, d, c);
      SameLengthSamePrefix(c, d, url);
      var i :| 0 <= i < |xs| && xs[i] == c;
      var j :| 0 <= j < |xs| && xs[j] == d;
      assert i == j;
    }
  }

  lemma BestLongest(xs: seq<Lookup>, url: string, l: Lookup, other: Lookup)
    requires IsBest(xs, url, l) && other in xs && Serves(other, url)
    ensures l in xs && Serves(l, url) && |other.prefix| <= |l.prefix|
  {
    var j :| 0 <= j < |xs| && xs[j] == other;
  }
}
