/**
 Slash-separated paths and their lexical cleaning.

 `Split` keeps empty components, so that "something follows this component" is a fact about
 the list.  A path is cleaned by folding its components into a `Place`: how many levels it
 climbs above its starting directory, and the names below that.
 */
module Paths {

  /** The pieces of `p` between slashes, empty ones included. */
  function Split(p: string): (r: seq<string>)
    ensures |r| > 0
  {
    if p == "" then [""]
    else if p[0] == '/' then [""] + Split(p[1..])
    else
      var r := Split(p[1..]);
      [[p[0]] + r[0]] + r[1..]
  }

  function Join(parts: seq<string>): string {
    if parts == [] then ""
    else if |parts| == 1 then parts[0]
    else parts[0] + "/" + Join(parts[1..])
  }

  predicate SlashFree(w: string) {
    forall i | 0 <= i < |w| :: w[i] != '/'
  }

  /** A component that names something: not empty, not "." and not "..". */
  predicate Ordinary(w: string) {
    SlashFree(w) && w != "" && w != "." && w != ".."
  }

  // ----- splitting and joining undo each other -----

  lemma {:induction false} SplitSlashFree(p: string)
    ensures forall i | 0 <= i < |Split(p)| :: SlashFree(Split(p)[i])
  {
    if p != "" {
      SplitSlashFree(p[1..]);
    }
  }

  /** A slash is a cut: both sides split on their own. */
  lemma {:induction false} SplitCut(a: string, b: string)
    ensures Split(a + "/" + b) == Split(a) + Split(b)
  {
    if a == "" {
      assert a + "/" + b == "/" + b;
      assert ("/" + b)[1..] == b;
    } else {
      var s := a + "/" + b;
      assert s[0] == a[0] && s[1..] == a[1..] + "/" + b;
      SplitCut(a[1..], b);
      if a[0] != '/' {
        assert (Split(a[1..]) + Split(b))[0] == Split(a[1..])[0];
        assert (Split(a[1..]) + Split(b))[1..] == Split(a[1..])[1..] + Split(b);
      }
    }
  }

  lemma {:induction false} SplitWord(w: string)
    requires SlashFree(w)
    ensures Split(w) == [w]
  {
    if w != "" {
      SplitWord(w[1..]);
      assert [w[0]] + w[1..] == w;
    }
  }

  lemma {:induction false} SplitOfJoin(parts: seq<string>)
    requires parts != []
    requires forall i | 0 <= i < |parts| :: SlashFree(parts[i])
    ensures Split(Join(parts)) == parts
  {
    SplitWord(parts[0]);
    if |parts| > 1 {
      SplitOfJoin(parts[1..]);
      SplitCut(parts[0], Join(parts[1..]));
    }
  }

  lemma {:induction false} JoinConcat(a: seq<string>, b: seq<string>)
    requires a != [] && b != []
    ensures Join(a + b) == Join(a) + "/" + Join(b)
  {
    assert (a + b)[0] == a[0];
    if |a| == 1 {
      assert (a + b)[1..] == b;
    } else {
      assert (a + b)[1..] == a[1..] + b;
      JoinConcat(a[1..], b);
    }
  }

  // ----- places -----

  /** A cleaned relative position: `ups` levels above the starting directory, then down `names`. */
  datatype Place = Place(ups: nat, names: seq<string>)

  const Origin := Place(0, [])

  function Up(p: Place): Place {
    if p.names == [] then Place(p.ups + 1, [])
    else Place(p.ups, p.names[..|p.names| - 1])
  }

  /** One component of a path, read lexically. */
  function Step(p: Place, c: string): Place {
    if c == "" || c == "." then p
    else if c == ".." then Up(p)
    else Place(p.ups, p.names + [c])
  }

  function Steps(p: Place, comps: seq<string>): Place
    decreases |comps|
  {
    if comps == [] then p else Steps(Step(p, comps[0]), comps[1..])
  }

  /** Where `name` leads from its starting directory.  A leading slash changes nothing. */
  function PlaceOf(name: string): Place { Steps(Origin, Split(name)) }

  predicate AllOrdinary(names: seq<string>) {
    forall i | 0 <= i < |names| :: Ordinary(names[i])
  }

  lemma {:induction false} StepsConcat(p: Place, a: seq<string>, b: seq<string>)
    ensures Steps(p, a + b) == Steps(Steps(p, a), b)
    decreases |a|
  {
    if a == [] {
      assert a + b == b;
    } else {
      assert (a + b)[1..] == a[1..] + b;
      StepsConcat(Step(p, a[0]), a[1..], b);
    }
  }

  lemma {:induction false} StepsOrdinary(p: Place, comps: seq<string>)
    requires AllOrdinary(p.names)
    requires forall i | 0 <= i < |comps| :: SlashFree(comps[i])
    ensures AllOrdinary(Steps(p, comps).names)
    decreases |comps|
  {
    if comps != [] {
      StepsOrdinary(Step(p, comps[0]), comps[1..]);
    }
  }

  lemma PlaceOfOrdinary(name: string)
    ensures AllOrdinary(PlaceOf(name).names)
  {
    SplitSlashFree(name);
    StepsOrdinary(Origin, Split(name));
  }

  lemma {:induction false} StepsDown(p: Place, names: seq<string>)
    requires AllOrdinary(names)
    ensures Steps(p, names) == Place(p.ups, p.names + names)
    decreases |names|
  {
    if names == [] {
      assert p.names + names == p.names;
    } else {
      StepsDown(Step(p, names[0]), names[1..]);
      assert p.names + [names[0]] + names[1..] == p.names + names;
    }
  }

  // ----- cleaning -----

  function DotDots(n: nat): (r: seq<string>)
    ensures |r| == n && forall i | 0 <= i < n :: r[i] == ".."
  {
    if n == 0 then [] else [".."] + DotDots(n - 1)
  }

  /** The components of a cleaned relative path. */
  function Components(p: Place): seq<string> { DotDots(p.ups) + p.names }

  function RenderRelative(p: Place): string {
    if p == Origin then "." else Join(Components(p))
  }

  function RenderRooted(names: seq<string>): string { "/" + Join(names) }

  predicate Rooted(p: string) { p != "" && p[0] == '/' }

  /** The rooted reading of a component: ".." at the root stays there. */
  function RootedStep(names: seq<string>, c: string): seq<string> {
    var q := Step(Place(0, names), c);
    if q.ups > 0 then [] else q.names
  }

  function RootedSteps(names: seq<string>, comps: seq<string>): seq<string>
    decreases |comps|
  {
    if comps == [] then names else RootedSteps(RootedStep(names, comps[0]), comps[1..])
  }

  /** The names an absolute path leads through. */
  function NamesOf(p: string): seq<string> { RootedSteps([], Split(p)) }

  /** Lexical cleaning, as the standard library defines it. */
  function Clean(p: string): string {
    if Rooted(p) then RenderRooted(NamesOf(p)) else RenderRelative(PlaceOf(p))
  }

  lemma {:induction false} RootedStepsConcat(names: seq<string>, a: seq<string>, b: seq<string>)
    ensures RootedSteps(names, a + b) == RootedSteps(RootedSteps(names, a), b)
    decreases |a|
  {
    if a == [] {
      assert a + b == b;
    } else {
      assert (a + b)[1..] == a[1..] + b;
      RootedStepsConcat(RootedStep(names, a[0]), a[1..], b);
    }
  }

  lemma {:induction false} RootedStepsDown(names: seq<string>, more: seq<string>)
    requires AllOrdinary(more)
    ensures RootedSteps(names, more) == names + more
    decreases |more|
  {
    if more == [] {
      assert names + more == names;
    } else {
      RootedStepsDown(names + [more[0]], more[1..]);
      assert names + [more[0]] + more[1..] == names + more;
    }
  }

  lemma {:induction false} RootedStepsOrdinary(names: seq<string>, comps: seq<string>)
    requires AllOrdinary(names)
    requires forall i | 0 <= i < |comps| :: SlashFree(comps[i])
    ensures AllOrdinary(RootedSteps(names, comps))
    decreases |comps|
  {
    if comps != [] {
      RootedStepsOrdinary(RootedStep(names, comps[0]), comps[1..]);
    }
  }

  lemma NamesOfOrdinary(p: string)
    ensures AllOrdinary(NamesOf(p))
  {
    SplitSlashFree(p);
    RootedStepsOrdinary([], Split(p));
  }

  lemma SplitRooted(names: seq<string>)
    requires AllOrdinary(names)
    ensures Split(RenderRooted(names)) == [""] + (if names == [] then [""] else names)
  {
    assert RenderRooted(names)[1..] == Join(names);
    if names != [] {
      SplitOfJoin(names);
    }
  }

  /** A rendered absolute path leads through exactly the names it was rendered from. */
  lemma NamesOfRooted(names: seq<string>)
    requires AllOrdinary(names)
    ensures NamesOf(RenderRooted(names)) == names
  {
    SplitRooted(names);
    var comps := if names == [] then [""] else names;
    assert ([""] + comps)[1..] == comps;
    assert NamesOf(RenderRooted(names)) == RootedSteps([], comps);
    if names != [] {
      RootedStepsDown([], names);
      assert [] + names == names;
    }
  }

  lemma {:induction false} StepsUp(p: Place, n: nat)
    requires p.names == []
    ensures Steps(p, DotDots(n)) == Place(p.ups + n, [])
    decreases n
  {
    if n > 0 {
      assert DotDots(n)[1..] == DotDots(n - 1);
      StepsUp(Up(p), n - 1);
    }
  }

  /** A rendered relative path leads to exactly the place it was rendered from. */
  lemma PlaceOfRelative(p: Place)
    requires AllOrdinary(p.names)
    ensures PlaceOf(RenderRelative(p)) == p
    ensures !Rooted(RenderRelative(p))
    ensures Split(RenderRelative(p)) == if p == Origin then ["."] else Components(p)
  {
    if p == Origin {
      SplitWord(".");
    } else {
      var comps := Components(p);
      assert comps != [];
      forall i | 0 <= i < |comps| ensures SlashFree(comps[i]) && comps[i] != "" {
        if i >= p.ups {
          assert comps[i] == p.names[i - p.ups];
        }
      }
      SplitOfJoin(comps);
      assert Join(comps)[0] == comps[0][0];
      StepsUp(Origin, p.ups);
      StepsConcat(Origin, DotDots(p.ups), p.names);
      StepsDown(Place(p.ups, []), p.names);
      assert [] + p.names == p.names;
    }
  }
}
