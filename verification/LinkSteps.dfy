/**
 What the walk does at each kind of node, for any path through directories: the laws of reading a
 path, stated on component lists alone.
 */
module LinkSteps {
  import opened Paths
  import opened Symlinks

  /** Every place on the way from the top through `dir` is a directory. */
  ghost predicate Through(fs: Tree, dir: seq<string>) {
    AllOrdinary(dir) && forall k | 1 <= k <= |dir| :: fs(Place(0, dir[..k])) == Directory
  }

  /** The evaluation of a component list from the top. */
  function FromTop(fs: Tree, absolute: bool, rooted: bool, comps: seq<string>, links: nat): Walk
    requires links <= 255
  {
    Resolve(fs, absolute, Position(rooted, Place(0, [])), comps, links)
  }

  lemma {:induction false} Descended(fs: Tree, absolute: bool, rooted: bool, dir: seq<string>, k: nat,
                                     comps: seq<string>, links: nat)
    requires Through(fs, dir) && k <= |dir| && links <= 255
    ensures Resolve(fs, absolute, Position(rooted, Place(0, dir[..k])), dir[k..] + comps, links) ==
            Resolve(fs, absolute, Position(rooted, Place(0, dir)), comps, links)
    decreases |dir| - k
  {
    if k == |dir| {
      assert dir[..k] == dir && dir[k..] + comps == comps;
    } else {
      assert Ordinary(dir[k]);
      assert dir[..k] + [dir[k]] == dir[..k + 1];
      assert (dir[k..] + comps)[0] == dir[k] && (dir[k..] + comps)[1..] == dir[k + 1..] + comps;
      Descended(fs, absolute, rooted, dir, k + 1, comps, links);
    }
  }

  lemma DownTo(fs: Tree, absolute: bool, rooted: bool, dir: seq<string>, comps: seq<string>, links: nat)
    requires Through(fs, dir) && links <= 255
    ensures FromTop(fs, absolute, rooted, dir + comps, links) ==
            Resolve(fs, absolute, Position(rooted, Place(0, dir)), comps, links)
  {
    Descended(fs, absolute, rooted, dir, 0, comps, links);
    assert dir[..0] == [] && dir[0..] == dir;
  }

  /** An ordinary name below the directory `dir`: the walk goes on from its node. */
  lemma AtName(fs: Tree, absolute: bool, rooted: bool, dir: seq<string>, name: string, rest: seq<string>, links: nat)
    requires Through(fs, dir) && Ordinary(name) && links <= 255
    ensures FromTop(fs, absolute, rooted, dir + [name] + rest, links) ==
            ResolveNode(fs, absolute, Position(rooted, Place(0, dir)), Position(rooted, Place(0, dir + [name])),
                        rest, links)
  {
    assert dir + [name] + rest == dir + ([name] + rest);
    DownTo(fs, absolute, rooted, dir, [name] + rest, links);
    assert ([name] + rest)[1..] == rest;
  }

  /** A relative link is read from the directory it stands in.  A slash it owed to a link is lost at the top. */
  lemma RelativeLink(fs: Tree, absolute: bool, rooted: bool, dir: seq<string>, name: string, target: string,
                     rest: seq<string>, links: nat)
    requires Through(fs, dir) && Ordinary(name) && links < 255
    requires fs(Place(0, dir + [name])) == Link(target) && !Rooted(target)
    ensures
      var rooted' := rooted && (absolute || dir != []);
      FromTop(fs, absolute, rooted, dir + [name] + rest, links) ==
      FromTop(fs, absolute, rooted', dir + Split(target) + rest, links + 1)
  {
    AtName(fs, absolute, rooted, dir, name, rest, links);
    DownTo(fs, absolute, rooted && (absolute || dir != []), dir, Split(target) + rest, links + 1);
    assert dir + (Split(target) + rest) == dir + Split(target) + rest;
  }

  /** A link with a leading slash is read from the top, and its result is written with one. */
  lemma RootedLink(fs: Tree, absolute: bool, rooted: bool, dir: seq<string>, name: string, target: string,
                   rest: seq<string>, links: nat)
    requires Through(fs, dir) && Ordinary(name) && links < 255
    requires fs(Place(0, dir + [name])) == Link(target) && Rooted(target)
    ensures FromTop(fs, absolute, rooted, dir + [name] + rest, links) ==
            FromTop(fs, absolute, true, Split(target) + rest, links + 1)
  {
    AtName(fs, absolute, rooted, dir, name, rest, links);
  }

  /** A link that would be the 256th is not read. */
  lemma OneLinkTooMany(fs: Tree, absolute: bool, rooted: bool, dir: seq<string>, name: string, rest: seq<string>)
    requires Through(fs, dir) && Ordinary(name)
    requires fs(Place(0, dir + [name])).Link? || fs(Place(0, dir + [name])).Unreadable?
    ensures FromTop(fs, absolute, rooted, dir + [name] + rest, 255) == Walk(Failed(TooManyLinks), 255)
  {
    AtName(fs, absolute, rooted, dir, name, rest, 255);
  }

  /** What is no link and no directory ends the walk, with an error unless it is a file at the end. */
  lemma EndOfWalk(fs: Tree, absolute: bool, rooted: bool, dir: seq<string>, name: string, rest: seq<string>, links: nat)
    requires Through(fs, dir) && Ordinary(name) && links <= 255
    ensures
      var w := FromTop(fs, absolute, rooted, dir + [name] + rest, links);
      match fs(Place(0, dir + [name]))
      case Missing(code) => w == Walk(Failed(LookupFailed(code)), links)
      case File =>
        w == Walk(if rest == [] then Found(Position(rooted, Place(0, dir + [name]))) else Failed(NotADirectory), links)
      case Unreadable(code) => links < 255 ==> w == Walk(Failed(LookupFailed(code)), links + 1)
      case Directory => rest == [] ==> w == Walk(Found(Position(rooted, Place(0, dir + [name]))), links)
      case Link(_) => true
  {
    AtName(fs, absolute, rooted, dir, name, rest, links);
  }

  /** Empty components and "." are as if they were not there. */
  lemma Skipped(fs: Tree, absolute: bool, rooted: bool, dir: seq<string>, c: string, rest: seq<string>, links: nat)
    requires Through(fs, dir) && (c == "" || c == ".") && links <= 255
    ensures FromTop(fs, absolute, rooted, dir + [c] + rest, links) == FromTop(fs, absolute, rooted, dir + rest, links)
  {
    assert dir + [c] + rest == dir + ([c] + rest);
    DownTo(fs, absolute, rooted, dir, [c] + rest, links);
    DownTo(fs, absolute, rooted, dir, rest, links);
    assert ([c] + rest)[1..] == rest;
  }

  /** ".." in a request without a leading slash undoes the name before it. */
  lemma UpOneName(fs: Tree, rooted: bool, dir: seq<string>, name: string, rest: seq<string>, links: nat)
    requires Through(fs, dir + [name]) && links <= 255
    ensures FromTop(fs, false, rooted, dir + [name, ".."] + rest, links) ==
            FromTop(fs, false, rooted && dir != [], dir + rest, links)
  {
    ThroughFront(fs, dir, name);
    assert dir + [name, ".."] + rest == (dir + [name]) + ([".."] + rest);
    DownTo(fs, false, rooted, dir + [name], [".."] + rest, links);
    DownTo(fs, false, rooted && dir != [], dir, rest, links);
    assert ([".."] + rest)[1..] == rest && (dir + [name])[..|dir|] == dir;
  }

  /** In one with a leading slash it does so too, unless that name is the first. */
  lemma UpOneNameAbsolute(fs: Tree, dir: seq<string>, name: string, rest: seq<string>, links: nat)
    requires Through(fs, dir + [name]) && links <= 255
    ensures FromTop(fs, true, true, dir + [name, ".."] + rest, links) ==
            if dir == [] then Walk(Failed(CannotBacktrackRoot), links) else FromTop(fs, true, true, dir + rest, links)
  {
    ThroughFront(fs, dir, name);
    assert dir + [name, ".."] + rest == (dir + [name]) + ([".."] + rest);
    DownTo(fs, true, true, dir + [name], [".."] + rest, links);
    DownTo(fs, true, true, dir, rest, links);
    assert ([".."] + rest)[1..] == rest && (dir + [name])[..|dir|] == dir;
  }

  lemma ThroughFront(fs: Tree, dir: seq<string>, name: string)
    requires Through(fs, dir + [name])
    ensures Through(fs, dir) && Ordinary(name)
  {
    forall i | 0 <= i < |dir| ensures Ordinary(dir[i]) { assert dir[i] == (dir + [name])[i]; }
    forall k | 1 <= k <= |dir| ensures fs(Place(0, dir[..k])) == Directory {
      assert dir[..k] == (dir + [name])[..k];
    }
    assert (dir + [name])[|dir|] == name;
  }

  /** Above the top there is nothing but further up; with a leading slash the walk refuses. */
  lemma UpFromTop(fs: Tree, ups: nat, rest: seq<string>, links: nat)
    requires links <= 255
    ensures Resolve(fs, false, Position(false, Place(ups, [])), [".."] + rest, links) ==
            Resolve(fs, false, Position(false, Place(ups + 1, [])), rest, links)
    ensures FromTop(fs, true, true, [".."] + rest, links) == Walk(Failed(CannotBacktrackRoot), links)
  {
    assert ([".."] + rest)[1..] == rest;
  }

  /** A request is read from the top, component by component. */
  lemma RequestFromTop(fs: Tree, request: string)
    ensures Evaluate(fs, request) == FromTop(fs, Rooted(request), Rooted(request), Split(request), 0)
  {
  }
}
