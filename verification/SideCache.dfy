/**
 The caches beside an archive: data offsets and link targets of many archives in one store that
 may drop anything at any time, kept apart by a per-archive prefix.
 */
module SideCache {
  import opened Basics

  // ----- keys -----

  function Digit(d: nat): char
    requires d < 10
  {
    '0' + d as char
  }

  /** Decimal text of an archive number. */
  function Decimal(n: nat): (s: string)
    ensures s != "" && (|s| == 1 <==> n < 10)
  {
    if n < 10 then [Digit(n)] else Decimal(n / 10) + [Digit(n % 10)]
  }

  function Key(number: nat, name: string): string { Decimal(number) + ":" + name }

  lemma {:induction false} DecimalDigits(n: nat)
    ensures forall i | 0 <= i < |Decimal(n)| :: '0' <= Decimal(n)[i] <= '9'
  {
    if n >= 10 {
      DecimalDigits(n / 10);
    }
  }

  lemma {:induction false} DecimalInjective(m: nat, n: nat)
    requires Decimal(m) == Decimal(n)
    ensures m == n
  {
    var a, b := Decimal(m), Decimal(n);
    if m < 10 {
      assert a == [Digit(m)] && b == [Digit(n)];
    } else {
      assert a[..|a| - 1] == Decimal(m / 10) && b[..|b| - 1] == Decimal(n / 10);
      DecimalInjective(m / 10, n / 10);
      assert a[|a| - 1] == Digit(m % 10) && b[|b| - 1] == Digit(n % 10);
    }
  }

  predicate FirstColon(s: string, i: nat) {
    i < |s| && s[i] == ':' && ':' !in s[..i]
  }

  lemma ColonAfter(a: string, x: string)
    requires ':' !in a
    ensures FirstColon(a + ":" + x, |a|)
    ensures (a + ":" + x)[..|a|] == a && (a + ":" + x)[|a| + 1..] == x
  {
  }

  lemma FirstColonUnique(s: string, i: nat, j: nat)
    requires FirstColon(s, i) && FirstColon(s, j)
    ensures i == j
  {
    assert forall k | 0 <= k < i :: s[..i][k] == s[k];
    assert forall k | 0 <= k < j :: s[..j][k] == s[k];
  }

  /** The text before a colon is found again if it has none itself. */
  lemma CutAtColon(a: string, b: string, x: string, y: string)
    requires a + ":" + x == b + ":" + y
    requires ':' !in a && ':' !in b
    ensures a == b && x == y
  {
    ColonAfter(a, x);
    ColonAfter(b, y);
    FirstColonUnique(a + ":" + x, |a|, |b|);
  }

  /** No two archives, and no two names of one archive, share a key. */
  lemma KeyInjective(m: nat, x: string, n: nat, y: string)
    requires Key(m, x) == Key(n, y)
    ensures m == n && x == y
  {
    DecimalDigits(m);
    DecimalDigits(n);
    CutAtColon(Decimal(m), Decimal(n), x, y);
    DecimalInjective(m, n);
  }

  // ----- the store -----

  /** What fetching for (archive, name) yields, if it can be fetched at all. */
  type Truth<V> = (nat, string) -> Option<V>

  class Cache<V> {
    var items: map<string, V>

    constructor ()
      ensures items == map[]
    {
      items := map[];
    }

    /** Whatever is stored under an archive's key for a name is what a fetch would yield. */
    ghost predicate Transparent(truth: Truth<V>)
      reads this
    {
      forall n, name | Key(n, name) in items :: truth(n, name) == Some(items[Key(n, name)])
    }

    /** The store drops entries, for size or age, whenever it likes. */
    method Evict(keys: set<string>, ghost truth: Truth<V>)
      requires Transparent(truth)
      modifies this
      ensures Transparent(truth) && items == old(items) - keys
    {
      items := items - keys;
    }

    /**
     Find, or fetch and keep.  `fetched` is what the fetch would give now: nothing if it fails.
     What is stored is answered without fetching; what is fetched is stored; and either way the answer
     is what a successful fetch yields.
     */
    method FindOrFetch(number: nat, name: string, fetched: Option<V>, ghost truth: Truth<V>) returns (answer: Option<V>)
      requires Transparent(truth)
      requires fetched.Some? ==> fetched == truth(number, name)
      modifies this
      ensures Transparent(truth)
      ensures answer.Some? ==> answer == truth(number, name)
      ensures
        var key := Key(number, name);
        if key in old(items) then answer == Some(old(items)[key]) && items == old(items)
        else answer == fetched && items == if fetched.Some? then old(items)[key := fetched.value] else old(items)
    {
      var key := Key(number, name);
      if key in items {
        return Some(items[key]);
      }
      if fetched.None? {
        return None;
      }
      ghost var before := items;
      items := items[key := fetched.value];
      forall n, x | Key(n, x) in items ensures truth(n, x) == Some(items[Key(n, x)]) {
        if Key(n, x) == key {
          KeyInjective(n, x, number, name);
        } else {
          assert Key(n, x) in before;
        }
      }
      return fetched;
    }
  }

  // ----- link targets -----

  const MaxSymlinkSize := 256

  datatype LinkError = ReadFailed | TooLong

  datatype LinkAnswer = Target(text: string) | Refused(error: LinkError)

  /** What is read of a link: one byte more than a target may have; reading nothing is an error. */
  function FetchLink(contents: string): Option<string> {
    if contents == "" then None
    else if |contents| <= MaxSymlinkSize + 1 then Some(contents)
    else Some(contents[..MaxSymlinkSize + 1])
  }

  function LinkTruth(contents: (nat, string) -> string): Truth<string> {
    (n: nat, name: string) => FetchLink(contents(n, name))
  }

  /**
   Whatever the cache went through before, a link of 1 to 256 bytes gives its exact target
   (unless reading fails), and no other link gives anything.
   */
  method Readlink(cache: Cache<string>, number: nat, name: string, contents: (nat, string) -> string, readable: bool)
    returns (answer: LinkAnswer)
    requires cache.Transparent(LinkTruth(contents))
    modifies cache
    ensures cache.Transparent(LinkTruth(contents))
    ensures
      var link := contents(number, name);
      && (answer.Target? ==> answer.text == link && 1 <= |link| <= 256)
      && (1 <= |link| <= 256 && readable ==> answer == Target(link))
      && (answer == Refused(TooLong) ==> |link| > 256)
      && (|link| > 256 && readable ==> answer == Refused(TooLong))
  {
    var fetched := if readable then FetchLink(contents(number, name)) else None;
    var link := cache.FindOrFetch(number, name, fetched, LinkTruth(contents));
    if link.None? {
      return Refused(ReadFailed);
    }
    if |link.value| > MaxSymlinkSize {
      return Refused(TooLong);
    }
    return Target(link.value);
  }

  // ----- any history -----

  datatype Op = Drop(keys: set<string>) | Find(number: nat, name: string, reachable: bool)

  /** Any sequence of lookups for any archives and evictions: every answer is the archive's own. */
  method UseCache<V>(cache: Cache<V>, ops: seq<Op>, fetch: Truth<V>) returns (answers: seq<Option<V>>)
    requires cache.items == map[]
    modifies cache
    ensures |answers| == |ops|
    ensures forall i | 0 <= i < |ops| && ops[i].Find? ::
              var truth := fetch(ops[i].number, ops[i].name);
              (answers[i].Some? ==> answers[i] == truth) && (ops[i].reachable ==> answers[i] == truth)
  {
    answers := [];
    for i := 0 to |ops|
      invariant |answers| == i && cache.Transparent(fetch)
      invariant forall j | 0 <= j < i && ops[j].Find? ::
                  var truth := fetch(ops[j].number, ops[j].name);
                  (answers[j].Some? ==> answers[j] == truth) && (ops[j].reachable ==> answers[j] == truth)
    {
      match ops[i]
      case Drop(keys) =>
        cache.Evict(keys, fetch);
        answers := answers + [None];
      case Find(number, name, reachable) =>
        var a := cache.FindOrFetch(number, name, if reachable then fetch(number, name) else None, fetch);
        answers := answers + [a];
    }
  }
}
