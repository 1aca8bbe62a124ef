/** The disk root: which requested paths lie inside it, and what its links are rewritten to. */
module LocalRoot {
  import opened Paths
  import opened Symlinks
  import opened SymlinkTheorems

  predicate CleanRoot(root: string) { Rooted(root) && Clean(root) == root }

  /** The standard library's join of a root and a requested path. */
  function JoinPath(root: string, path: string): string {
    if path == "" then Clean(root) else Clean(root + "/" + path)
  }

  function TrimPrefix(s: string, prefix: string): string {
    if prefix <= s then s[|prefix|..] else s
  }

  datatype Validated = Inside(fullPath: string, vfsPath: string) | Outside

  function ValidatePath(root: string, path: string): Validated {
    var fullPath := JoinPath(root, path);
    if root == fullPath then Inside(fullPath, "")
    else
      var vfsPath := TrimPrefix(fullPath, root + "/");
      if fullPath == vfsPath then Outside else Inside(fullPath, vfsPath)
  }

  // ----- joining, component by component -----

  /** Where `p` leads from the absolute directory `names`; the file system root has no parent. */
  function Beneath(names: seq<string>, p: Place): seq<string> {
    (if p.ups <= |names| then names[..|names| - p.ups] else []) + p.names
  }

  lemma BeneathStep(names: seq<string>, p: Place, c: string)
    ensures RootedStep(Beneath(names, p), c) == Beneath(names, Step(p, c))
  {
    var kept := if p.ups <= |names| then names[..|names| - p.ups] else [];
    var r := Beneath(names, p);
    if c == ".." {
      if p.names != [] {
        assert r[..|r| - 1] == kept + p.names[..|p.names| - 1];
      } else if kept != [] {
        assert r == kept;
        assert kept[..|kept| - 1] == names[..|names| - p.ups - 1];
      }
    } else {
      assert (kept + p.names) + [c] == kept + (p.names + [c]);
    }
  }

  lemma {:induction false} BeneathSteps(names: seq<string>, p: Place, comps: seq<string>)
    ensures RootedSteps(Beneath(names, p), comps) == Beneath(names, Steps(p, comps))
    decreases |comps|
  {
    if comps != [] {
      BeneathStep(names, p, comps[0]);
      BeneathSteps(names, Step(p, comps[0]), comps[1..]);
    }
  }

  lemma JoinedNames(root: string, path: string)
    requires Rooted(root)
    ensures NamesOf(root + "/" + path) == Beneath(NamesOf(root), PlaceOf(path))
  {
    SplitCut(root, path);
    RootedStepsConcat([], Split(root), Split(path));
    assert Beneath(NamesOf(root), Origin) == NamesOf(root);
    BeneathSteps(NamesOf(root), Origin, Split(path));
  }

  lemma JoinPathNames(root: string, path: string)
    requires Rooted(root)
    ensures JoinPath(root, path) == RenderRooted(Beneath(NamesOf(root), PlaceOf(path)))
  {
    JoinedNames(root, path);
    if path == "" {
      assert Beneath(NamesOf(root), Origin) == NamesOf(root);
    } else {
      assert Rooted(root + "/" + path);
    }
  }

  lemma {:induction false} BeneathOrdinary(names: seq<string>, p: Place)
    requires AllOrdinary(names) && AllOrdinary(p.names)
    ensures AllOrdinary(Beneath(names, p))
  {
    var r := Beneath(names, p);
    forall i | 0 <= i < |r| ensures Ordinary(r[i]) {
      var k := |r| - |p.names|;
      assert i < k ==> r[i] == names[i];
      assert i >= k ==> r[i] == p.names[i - k];
    }
  }

  lemma ExtendsByName(a: seq<string>, b: seq<string>)
    requires AllOrdinary(b) && a != [] && a < b
    ensures RenderRooted(b) == RenderRooted(a) + "/" + Join(b[|a|..])
  {
    assert b == a + b[|a|..];
    JoinConcat(a, b[|a|..]);
  }

  lemma NoSecondSlash(b: seq<string>)
    requires AllOrdinary(b)
    ensures |RenderRooted(b)| > 1 ==> RenderRooted(b)[1] != '/'
  {
    if b != [] {
      assert Ordinary(b[0]);
      assert Join(b)[0] == b[0][0];
    }
  }

  lemma ExtendsAtSlash(a: seq<string>, b: seq<string>, x: string)
    requires AllOrdinary(a) && AllOrdinary(b)
    requires RenderRooted(b) == RenderRooted(a) + "/" + x
    ensures a != [] && a < b
  {
    NoSecondSlash(b);
    assert RenderRooted(b)[|RenderRooted(a)|] == '/';
    if a != [] {
      SplitRooted(a);
      SplitRooted(b);
      SplitCut(RenderRooted(a), x);
      assert ([""] + a) + Split(x) == [""] + (a + Split(x));
      assert b != [];
      assert ([""] + b)[1..] == b && ([""] + (a + Split(x)))[1..] == a + Split(x);
    }
  }

  /** One absolute text extends another at a slash exactly when its names extend the other's. */
  lemma PrefixByName(a: seq<string>, b: seq<string>)
    requires AllOrdinary(a) && AllOrdinary(b)
    ensures RenderRooted(a) + "/" <= RenderRooted(b) <==> a != [] && a < b
    ensures a != [] && a < b ==> RenderRooted(b) == RenderRooted(a) + "/" + Join(b[|a|..])
  {
    var ra, rb := RenderRooted(a), RenderRooted(b);
    if ra + "/" <= rb {
      assert rb == ra + "/" + rb[|ra| + 1..];
      ExtendsAtSlash(a, b, rb[|ra| + 1..]);
    }
    if a != [] && a < b {
      ExtendsByName(a, b);
    }
  }

  /**
   A requested path is accepted exactly when, component by component, it lands on the root or
   below it.  A root of "/" is the exception: it accepts nothing but itself.
   */
  lemma ValidateExactly(root: string, path: string)
    requires CleanRoot(root)
    ensures
      var rootNames, names := NamesOf(root), Beneath(NamesOf(root), PlaceOf(path));
      var v := ValidatePath(root, path);
      && (v.Inside? <==> names == rootNames || (rootNames != [] && rootNames <= names))
      && (v.Inside? ==> NamesOf(v.fullPath) == names)
      && (v.Inside? && names != rootNames ==>
            v.vfsPath == Join(names[|rootNames|..]) && root + "/" + v.vfsPath == v.fullPath)
  {
    var rootNames, names := NamesOf(root), Beneath(NamesOf(root), PlaceOf(path));
    NamesOfOrdinary(root);
    PlaceOfOrdinary(path);
    BeneathOrdinary(rootNames, PlaceOf(path));
    JoinPathNames(root, path);
    NamesOfRooted(names);
    NamesOfRooted(rootNames);
    PrefixByName(rootNames, names);
    var fullPath := JoinPath(root, path);
    assert root == RenderRooted(rootNames);
    assert root == fullPath <==> names == rootNames;
    if root + "/" <= fullPath {
      assert fullPath[|root| + 1..] == Join(names[|rootNames|..]);
      assert |fullPath[|root| + 1..]| < |fullPath|;
    }
  }

  /** The root never looks further than the cleaned place a name stands for. */
  lemma LookupByPlace(root: string, name: string)
    requires CleanRoot(root)
    ensures ValidatePath(root, name) == ValidatePath(root, RenderRelative(PlaceOf(name)))
  {
    PlaceOfOrdinary(name);
    PlaceOfRelative(PlaceOf(name));
    JoinPathNames(root, name);
    JoinPathNames(root, RenderRelative(PlaceOf(name)));
  }

  // ----- links -----

  /** The directory of a cleaned absolute path. */
  function DirOf(fullPath: string): string {
    var names := NamesOf(fullPath);
    RenderRooted(if names == [] then [] else names[..|names| - 1])
  }

  function CommonPrefix(a: seq<string>, b: seq<string>): (k: nat)
    ensures k <= |a| && k <= |b| && a[..k] == b[..k]
  {
    if a == [] || b == [] || a[0] != b[0] then 0
    else
      var k := CommonPrefix(a[1..], b[1..]);
      assert a[..k + 1] == [a[0]] + a[1..][..k] && b[..k + 1] == [b[0]] + b[1..][..k];
      k + 1
  }

  /** The standard library's relative path between two absolute ones. */
  function Rel(base: string, target: string): string {
    var b, t := NamesOf(base), NamesOf(target);
    var k := CommonPrefix(b, t);
    RenderRelative(Place(|b| - k, t[k..]))
  }

  lemma BeneathRel(b: seq<string>, t: seq<string>, k: nat)
    requires k <= |b| && k <= |t| && b[..k] == t[..k]
    ensures Beneath(b, Place(|b| - k, t[k..])) == t
  {
    assert t[..k] + t[k..] == t;
  }

  lemma RelLeadsBack(base: string, target: string)
    requires Rooted(base)
    ensures !Rooted(Rel(base, target))
    ensures NamesOf(base + "/" + Rel(base, target)) == NamesOf(target)
  {
    NamesOfOrdinary(target);
    var b, t := NamesOf(base), NamesOf(target);
    var k := CommonPrefix(b, t);
    var p := Place(|b| - k, t[k..]);
    assert Rel(base, target) == RenderRelative(p);
    PlaceOfRelative(p);
    JoinedNames(base, RenderRelative(p));
    BeneathRel(b, t, k);
  }

  function Readlink(root: string, fullPath: string, target: string): string {
    if root + "/" <= target then Rel(DirOf(fullPath), target) else target
  }

  /** A link into the root, rewritten as relative, leads from its own directory to the same path. */
  lemma RewrittenLinkSameTarget(root: string, fullPath: string, target: string)
    requires CleanRoot(root) && root + "/" <= target
    ensures !Rooted(Readlink(root, fullPath, target))
    ensures Clean(DirOf(fullPath) + "/" + Readlink(root, fullPath, target)) == Clean(target)
  {
    NamesOfOrdinary(fullPath);
    NamesOfOrdinary(target);
    var names := NamesOf(fullPath);
    NamesOfRooted(if names == [] then [] else names[..|names| - 1]);
    RelLeadsBack(DirOf(fullPath), target);
    assert target[0] == root[0];
  }

  /** Any other target, absolute or relative, comes back as it is. */
  lemma OtherTargetsKept(root: string, fullPath: string, target: string)
    requires !(root + "/" <= target)
    ensures Readlink(root, fullPath, target) == target
  {
  }

  lemma RenderNames(names: seq<string>)
    requires names != []
    ensures Render(Position(false, Place(0, names))) == Join(names)
  {
    assert Components(Place(0, names)) == names;
  }

  lemma BeneathNames(top: seq<string>, names: seq<string>)
    ensures Beneath(top, Place(0, names)) == top + names
  {
  }

  lemma NamesOfInside(root: string, names: seq<string>)
    requires CleanRoot(root) && names != [] && AllOrdinary(names)
    ensures NamesOf(JoinPath(root, Join(names))) == NamesOf(root) + names
  {
    RenderNames(names);
    InsideNames(root, Position(false, Place(0, names)));
    BeneathNames(NamesOf(root), names);
  }

  lemma DirOfInside(root: string, dir: seq<string>, name: string)
    requires CleanRoot(root) && AllOrdinary(dir) && Ordinary(name)
    ensures
      var d := DirOf(JoinPath(root, Join(dir + [name])));
      Rooted(d) && NamesOf(d) == NamesOf(root) + dir
  {
    var names, top := dir + [name], NamesOf(root);
    var fullPath := JoinPath(root, Join(names));
    NamesOfInside(root, names);
    NamesOfOrdinary(fullPath);
    assert top + names == (top + dir) + [name];
    AllOrdinaryFront(top + dir, name, NamesOf(fullPath));
    NamesOfRooted(top + dir);
    assert NamesOf(fullPath)[..|NamesOf(fullPath)| - 1] == top + dir;
  }

  lemma BeneathTwice(top: seq<string>, dir: seq<string>, comps: seq<string>)
    ensures Beneath(top + dir, Steps(Origin, comps)) == Beneath(top, Steps(Place(0, dir), comps))
  {
    BeneathSteps(top, Place(0, dir), comps);
    BeneathSteps(top + dir, Origin, comps);
    assert Beneath(top, Place(0, dir)) == top + dir == Beneath(top + dir, Origin);
  }

  /**
   Read from the directory `dir` of the root that a link stands in, its rewritten target leads to
   the place the link names on the disk.
   */
  lemma RewrittenLinkLeadsThere(root: string, dir: seq<string>, name: string, target: string)
    requires CleanRoot(root) && root + "/" <= target && AllOrdinary(dir) && Ordinary(name)
    ensures
      var link := Readlink(root, JoinPath(root, Join(dir + [name])), target);
      Beneath(NamesOf(root), Steps(Place(0, dir), Split(link))) == NamesOf(target)
  {
    var fullPath := JoinPath(root, Join(dir + [name]));
    var link := Readlink(root, fullPath, target);
    DirOfInside(root, dir, name);
    RewrittenLinkSameTarget(root, fullPath, target);
    JoinedNames(DirOf(fullPath), link);
    assert Rooted(target) by { assert target[0] == root[0]; }
    NamesOfCleaned(DirOf(fullPath) + "/" + link, target);
    BeneathTwice(NamesOf(root), dir, Split(link));
  }

  lemma AllOrdinaryFront(front: seq<string>, name: string, all: seq<string>)
    requires AllOrdinary(all) && all == front + [name]
    ensures AllOrdinary(front)
  {
    forall i | 0 <= i < |front| ensures Ordinary(front[i]) { assert front[i] == all[i]; }
  }

  lemma NamesOfCleaned(a: string, b: string)
    requires Rooted(a) && Rooted(b) && Clean(a) == Clean(b)
    ensures NamesOf(a) == NamesOf(b)
  {
    NamesOfOrdinary(a);
    NamesOfOrdinary(b);
    NamesOfRooted(NamesOf(a));
    NamesOfRooted(NamesOf(b));
  }

  // ----- the walk over a disk root -----

  /** The tree a disk root presents, over whatever the operating system holds at each full path. */
  function LocalTree(root: string, os: string -> Node, invalid: int): Tree {
    (p: Place) =>
      match ValidatePath(root, RenderRelative(p))
      case Outside => Missing(invalid)
      case Inside(fullPath, _) =>
        match os(fullPath)
        case Link(target) => Link(Readlink(root, fullPath, target))
        case node => node
  }

  lemma PlaceOfRender(at: Position)
    requires WellFormed(at)
    ensures PlaceOf(Render(at)) == at.place
  {
    var names := at.place.names;
    if at.rooted {
      SplitRooted(names);
      var comps := if names == [] then [""] else names;
      assert ([""] + comps)[1..] == comps;
      assert PlaceOf(Render(at)) == Steps(Origin, comps);
      if names != [] {
        StepsDown(Origin, names);
        assert [] + names == names;
      }
    } else {
      PlaceOfRelative(at.place);
    }
  }

  /**
   Whatever the links say, what the walk finds lies inside the disk root, component by component,
   unless it is nothing but a way up out of it.
   */
  lemma WalkStaysInside(root: string, os: string -> Node, invalid: int, request: string)
    requires CleanRoot(root)
    ensures
      var w := Evaluate(LocalTree(root, os, invalid), request);
      w.outcome.Found? ==>
        var at := w.outcome.at;
        && (ValidatePath(root, Render(at)).Inside? <==>
            at.place.names != [] || at.place.ups == 0 || NamesOf(root) == [])
        && (ValidatePath(root, Render(at)).Inside? ==> NamesOf(root) <= NamesOf(JoinPath(root, Render(at))))
  {
    var fs := LocalTree(root, os, invalid);
    var w := Evaluate(fs, request);
    SplitSlashFree(request);
    ResolveCanonical(fs, Rooted(request), Start(Rooted(request)), Split(request), 0);
    if w.outcome.Found? {
      var at := w.outcome.at;
      var n := |at.place.names|;
      assert at.place.names[..n] == at.place.names;
      assert n > 0 ==> Ancestor(fs, at.place, n) == fs(at.place);
      PlaceOfRender(at);
      LookupByPlace(root, Render(at));
      ValidateExactly(root, Render(at));
      InsideNames(root, at);
    }
  }

  lemma InsideNames(root: string, at: Position)
    requires CleanRoot(root) && WellFormed(at)
    ensures NamesOf(JoinPath(root, Render(at))) == Beneath(NamesOf(root), at.place)
  {
    NamesOfOrdinary(root);
    BeneathOrdinary(NamesOf(root), at.place);
    PlaceOfRender(at);
    JoinPathNames(root, Render(at));
    NamesOfRooted(Beneath(NamesOf(root), at.place));
  }

  /** A link to ".." is followed to the parent of where the walk began. */
  lemma LinkUp(fs: Tree, name: string)
    requires Ordinary(name) && fs(Place(0, [name])) == Link("..")
    ensures Evaluate(fs, name) == Walk(Found(Position(false, Place(1, []))), 1)
  {
    SplitWord(name);
    SplitWord("..");
    assert Origin.names + [name] == [name] && [name][1..] == [];
    var next := Position(false, Place(0, [name]));
    assert Evaluate(fs, name) == ResolveNode(fs, false, Start(false), next, [], 0);
    assert Split("..") + [] == [".."] && [".."][1..] == [];
    assert LinkBase(false, Start(false)) == Start(false);
    assert Resolve(fs, false, Start(false), [".."], 1) == Walk(Found(Position(false, Place(1, []))), 1);
  }

  lemma ParentOutside(root: string)
    requires CleanRoot(root) && NamesOf(root) != []
    ensures ValidatePath(root, "..") == Outside
  {
    SplitWord("..");
    assert [".."][1..] == [];
    assert PlaceOf("..") == Place(1, []);
    ValidateExactly(root, "..");
    assert |Beneath(NamesOf(root), Place(1, []))| < |NamesOf(root)|;
  }

  lemma NodeOfName(root: string, os: string -> Node, invalid: int, name: string)
    requires CleanRoot(root) && NamesOf(root) != [] && Ordinary(name) && os(JoinPath(root, name)) == Link("..")
    ensures LocalTree(root, os, invalid)(Place(0, [name])) == Link("..")
  {
    SplitWord(name);
    StepsDown(Origin, [name]);
    assert Origin.names + [name] == [name];
    assert PlaceOf(name) == Place(0, [name]);
    assert Components(Place(0, [name])) == [name] && RenderRelative(Place(0, [name])) == name;
    assert Beneath(NamesOf(root), Place(0, [name])) == NamesOf(root) + [name];
    ValidateExactly(root, name);
    assert !(root + "/" <= "..") by { assert (root + "/")[0] == '/'; }
  }

  /** The way up: a link to ".." is followed out of any root but "/", to a path the root then refuses. */
  lemma LinkLeadsOut(root: string, os: string -> Node, invalid: int, name: string)
    requires CleanRoot(root) && NamesOf(root) != [] && Ordinary(name)
    requires os(JoinPath(root, name)) == Link("..")
    ensures Evaluate(LocalTree(root, os, invalid), name) == Walk(Found(Position(false, Place(1, []))), 1)
    ensures ValidatePath(root, "..") == Outside
  {
    NodeOfName(root, os, invalid, name);
    LinkUp(LocalTree(root, os, invalid), name);
    ParentOutside(root);
  }
}
