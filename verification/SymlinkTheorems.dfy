/** What holds of every evaluation of a path, in every tree, cyclic links included. */
module SymlinkTheorems {
  import opened Paths
  import opened Symlinks

  /** The node reached by the first `k` names of `p`. */
  function Ancestor(fs: Tree, p: Place, k: nat): Node
    requires k <= |p.names|
  {
    fs(Place(p.ups, p.names[..k]))
  }

  ghost predicate AllDirectories(fs: Tree, p: Place) {
    forall k | 1 <= k <= |p.names| :: Ancestor(fs, p, k).Directory?
  }

  /** Every name is there and is no link; all but the last are directories. */
  ghost predicate Canonical(fs: Tree, p: Place) {
    forall k | 1 <= k <= |p.names| ::
      var node := Ancestor(fs, p, k);
      node.Directory? || (node.File? && k == |p.names|)
  }

  ghost predicate WellFormed(at: Position) {
    AllOrdinary(at.place.names) && (at.rooted ==> at.place.ups == 0)
  }

  lemma UpKeeps(fs: Tree, p: Place)
    requires AllDirectories(fs, p) && AllOrdinary(p.names)
    ensures AllDirectories(fs, Up(p)) && AllOrdinary(Up(p).names)
  {
    var q := Up(p);
    forall k | 1 <= k <= |q.names| ensures Ancestor(fs, q, k).Directory? {
      assert q.names[..k] == p.names[..k];
      assert Ancestor(fs, p, k).Directory?;
    }
  }

  lemma DescendKeeps(fs: Tree, at: Position, c: string)
    requires AllDirectories(fs, at.place) && WellFormed(at) && Ordinary(c)
    ensures WellFormed(Descend(at, c))
    ensures forall k | 1 <= k <= |at.place.names| :: Ancestor(fs, Descend(at, c).place, k).Directory?
    ensures Ancestor(fs, Descend(at, c).place, |at.place.names| + 1) == fs(Descend(at, c).place)
  {
    var q := Descend(at, c).place;
    forall k | 1 <= k <= |at.place.names| ensures Ancestor(fs, q, k).Directory? {
      assert q.names[..k] == at.place.names[..k];
      assert Ancestor(fs, at.place, k).Directory?;
    }
    assert q.names[..|q.names|] == q.names;
  }

  lemma {:induction false} ResolveCanonical(fs: Tree, absolute: bool, at: Position, comps: seq<string>, links: nat)
    requires links <= MaxLinks
    requires AllDirectories(fs, at.place) && WellFormed(at) && (absolute ==> at.rooted)
    requires forall i | 0 <= i < |comps| :: SlashFree(comps[i])
    ensures
      var w := Resolve(fs, absolute, at, comps, links);
      w.outcome.Found? ==> Canonical(fs, w.outcome.at.place) && WellFormed(w.outcome.at)
    decreases MaxLinks - links, |comps|
  {
    if comps != [] {
      var c, rest := comps[0], comps[1..];
      if c == "" || c == "." {
        ResolveCanonical(fs, absolute, at, rest, links);
      } else if c == ".." {
        if !absolute || |at.place.names| > 1 {
          UpKeeps(fs, at.place);
          ResolveCanonical(fs, absolute, ClimbFrom(absolute, at), rest, links);
        }
      } else {
        var next := Descend(at, c);
        DescendKeeps(fs, at, c);
        match fs(next.place)
        case Directory => ResolveCanonical(fs, absolute, next, rest, links);
        case Link(target) =>
          if links < MaxLinks {
            SplitSlashFree(target);
            var base := if Rooted(target) then Start(true) else LinkBase(absolute, at);
            ResolveCanonical(fs, absolute, base, Split(target) + rest, links + 1);
          }
        case _ =>
      }
    }
  }

  // ----- walking a canonical result again -----

  lemma {:induction false} ClimbOut(fs: Tree, ups: nat, n: nat, rest: seq<string>)
    ensures Resolve(fs, false, Position(false, Place(ups, [])), DotDots(n) + rest, 0) ==
            Resolve(fs, false, Position(false, Place(ups + n, [])), rest, 0)
    decreases n
  {
    if n == 0 {
      assert DotDots(n) + rest == rest;
    } else {
      assert (DotDots(n) + rest)[1..] == DotDots(n - 1) + rest;
      ClimbOut(fs, ups + 1, n - 1, rest);
    }
  }

  lemma {:induction false} DescendAll(fs: Tree, absolute: bool, at: Position, k: nat)
    requires k <= |at.place.names|
    requires AllOrdinary(at.place.names) && Canonical(fs, at.place)
    ensures
      var p := at.place;
      Resolve(fs, absolute, at.(place := Place(p.ups, p.names[..k])), p.names[k..], 0) == Walk(Found(at), 0)
    decreases |at.place.names| - k
  {
    var p := at.place;
    if k == |p.names| {
      assert p.names[..k] == p.names;
    } else {
      assert Ordinary(p.names[k]);
      assert p.names[..k] + [p.names[k]] == p.names[..k + 1];
      assert p.names[k..][1..] == p.names[k + 1..];
      var node := Ancestor(fs, p, k + 1);
      assert node.Directory? || (node.File? && k + 1 == |p.names|);
      DescendAll(fs, absolute, at, k + 1);
    }
  }

  lemma SkipEmpty(fs: Tree, at: Position, comps: seq<string>)
    ensures Resolve(fs, true, at, [""] + comps, 0) == Resolve(fs, true, at, comps, 0)
  {
    assert ([""] + comps)[1..] == comps;
  }

  lemma RewalkRooted(fs: Tree, at: Position)
    requires WellFormed(at) && Canonical(fs, at.place) && at.rooted
    ensures Evaluate(fs, Render(at)) == Walk(Found(at), 0)
  {
    var names := at.place.names;
    SplitRooted(names);
    if names == [] {
      SkipEmpty(fs, at, [""]);
      SkipEmpty(fs, at, []);
      assert [""] + [] == [""];
    } else {
      SkipEmpty(fs, Start(true), names);
      assert names[0..] == names && names[..0] == [];
      DescendAll(fs, true, at, 0);
    }
  }

  lemma RewalkComponents(fs: Tree, p: Place)
    requires AllOrdinary(p.names) && Canonical(fs, p)
    ensures Resolve(fs, false, Start(false), Components(p), 0) == Walk(Found(Position(false, p)), 0)
  {
    assert p.names[0..] == p.names && p.names[..0] == [];
    DescendAll(fs, false, Position(false, p), 0);
    ClimbOut(fs, 0, p.ups, p.names);
  }

  lemma RewalkDot(fs: Tree)
    ensures Resolve(fs, false, Start(false), ["."], 0) == Walk(Found(Start(false)), 0)
  {
    assert ["."][1..] == [];
  }

  lemma RewalkRelative(fs: Tree, at: Position)
    requires WellFormed(at) && Canonical(fs, at.place) && !at.rooted
    ensures Evaluate(fs, Render(at)) == Walk(Found(at), 0)
  {
    PlaceOfRelative(at.place);
    RewalkDot(fs);
    RewalkComponents(fs, at.place);
  }

  /**
   A path that evaluation returns is canonical, and evaluating it again returns it
   unchanged without reading a single link.
   */
  lemma EvaluateCanonical(fs: Tree, request: string)
    ensures
      var w := Evaluate(fs, request);
      w.outcome.Found? ==>
        && Canonical(fs, w.outcome.at.place)
        && Evaluate(fs, Render(w.outcome.at)) == Walk(Found(w.outcome.at), 0)
  {
    SplitSlashFree(request);
    ResolveCanonical(fs, Rooted(request), Start(Rooted(request)), Split(request), 0);
    var w := Evaluate(fs, request);
    if w.outcome.Found? {
      if w.outcome.at.rooted {
        RewalkRooted(fs, w.outcome.at);
      } else {
        RewalkRelative(fs, w.outcome.at);
      }
    }
  }

  // ----- requests with a leading slash -----

  /** Same node or same error, and the same links read. */
  predicate SameReading(w: Walk, v: Walk) {
    && w.readlinks == v.readlinks
    && match (w.outcome, v.outcome)
       case (Found(a), Found(b)) => a.place == b.place
       case (Failed(e), Failed(f)) => e == f
       case _ => false
  }

  /** Somewhere along its way the relative evaluation meets a ".." with at most one name to back up over. */
  ghost predicate BacksToTop(fs: Tree, at: Position, comps: seq<string>, links: nat)
    requires links <= MaxLinks
    decreases MaxLinks - links, |comps|
  {
    comps != [] &&
    var c, rest := comps[0], comps[1..];
    if c == "" || c == "." then BacksToTop(fs, at, rest, links)
    else if c == ".." then |at.place.names| <= 1 || BacksToTop(fs, Climb(at), rest, links)
    else
      match fs(Descend(at, c).place)
      case Directory => BacksToTop(fs, Descend(at, c), rest, links)
      case Link(target) =>
        links < MaxLinks &&
        BacksToTop(fs, if Rooted(target) then Start(true) else LinkBase(false, at), Split(target) + rest, links + 1)
      case _ => false
  }

  lemma {:induction false} ResolveAbsolute(fs: Tree, at: Position, at': Position, comps: seq<string>, links: nat)
    requires links <= MaxLinks && at.place == at'.place
    requires at'.rooted ==> at'.place.ups == 0
    ensures
      var w := Resolve(fs, true, at, comps, links);
      if BacksToTop(fs, at', comps, links) then w.outcome == Failed(CannotBacktrackRoot)
      else w.outcome != Failed(CannotBacktrackRoot) && SameReading(w, Resolve(fs, false, at', comps, links))
    decreases MaxLinks - links, |comps|
  {
    if comps != [] {
      var c, rest := comps[0], comps[1..];
      if c == "" || c == "." {
        ResolveAbsolute(fs, at, at', rest, links);
      } else if c == ".." {
        if |at.place.names| > 1 {
          ResolveAbsolute(fs, ClimbFrom(true, at), ClimbFrom(false, at'), rest, links);
        }
      } else {
        match fs(Descend(at, c).place)
        case Directory => ResolveAbsolute(fs, Descend(at, c), Descend(at', c), rest, links);
        case Link(target) =>
          if links < MaxLinks {
            var comps' := Split(target) + rest;
            if Rooted(target) {
              ResolveAbsolute(fs, Start(true), Start(true), comps', links + 1);
            } else {
              ResolveAbsolute(fs, LinkBase(true, at), LinkBase(false, at'), comps', links + 1);
            }
          }
        case _ =>
      }
    }
  }

  /** A leading slash on the request only adds the refusal to back up to the root, where that is met. */
  lemma SlashedRequest(fs: Tree, request: string)
    requires !Rooted(request)
    ensures
      var w := Evaluate(fs, "/" + request);
      && (w.outcome == Failed(CannotBacktrackRoot) <==> BacksToTop(fs, Start(false), Split(request), 0))
      && (w.outcome != Failed(CannotBacktrackRoot) ==> SameReading(w, Evaluate(fs, request)))
  {
    assert ("/" + request)[1..] == request;
    assert ([""] + Split(request))[1..] == Split(request);
    ResolveAbsolute(fs, Start(true), Start(false), Split(request), 0);
  }

  // ----- the budget -----

  lemma {:induction false} SelfLinkFrom(fs: Tree, name: string, links: nat)
    requires Ordinary(name) && fs(Place(0, [name])) == Link(name) && links <= MaxLinks
    ensures Resolve(fs, false, Start(false), [name], links) == Walk(Failed(TooManyLinks), MaxLinks)
    decreases MaxLinks - links
  {
    assert [] + [name] == [name] && [name][1..] == [];
    SplitWord(name);
    if links < MaxLinks {
      assert [name] + [] == [name];
      SelfLinkFrom(fs, name, links + 1);
    }
  }

  /** A link to itself is given up after exactly the whole budget of reads. */
  lemma SelfLink(fs: Tree, name: string)
    requires Ordinary(name) && fs(Place(0, [name])) == Link(name)
    ensures Evaluate(fs, name) == Walk(Failed(TooManyLinks), 255)
  {
    SplitWord(name);
    SelfLinkFrom(fs, name, 0);
  }
}
