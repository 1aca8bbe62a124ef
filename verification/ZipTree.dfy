/** The tree an indexed archive presents, and what the link-evaluating walk reaches in it. */
module ZipTree {
  import opened Paths
  import opened Symlinks
  import opened SymlinkTheorems
  import opened ZipIndex

  const NotExist := 2

  /** Lstat and Readlink: the file under a cleaned name, or else the directory. */
  function NodeAt(es: seq<ZipEntry>, files: map<string, nat>, dirs: map<string, Header>, key: string): Node
    requires Indexed(es, files, dirs)
  {
    if key in files then
      match es[files[key]].kind
      case IsDir => Directory
      case IsFile => File
      case IsLink(target) => Link(target)
      case BadLink(code) => Unreadable(code)
    else if key + "/" in dirs then Directory
    else Missing(NotExist)
  }

  function Lookup(es: seq<ZipEntry>, files: map<string, nat>, dirs: map<string, Header>, name: string): Node
    requires Indexed(es, files, dirs)
  {
    NodeAt(es, files, dirs, Clean(DirPrefix + name))
  }

  function TreeOf(es: seq<ZipEntry>, files: map<string, nat>, dirs: map<string, Header>): Tree
    requires Indexed(es, files, dirs)
  {
    p => Lookup(es, files, dirs, RenderRelative(p))
  }

  // ----- names and keys -----

  lemma StepRebased(p: Place, q: Place, c: string)
    requires AllOrdinary(q.names)
    ensures Steps(p, Components(Step(q, c))) == Step(Steps(p, Components(q)), c)
  {
    var r := Step(q, c);
    if c == ".." && q.names != [] {
      var last := q.names[|q.names| - 1];
      assert Components(q) == Components(r) + [last];
      assert Ordinary(last);
      StepsSnoc(p, Components(r), last);
    } else if r != q {
      assert Components(r) == Components(q) + [c];
      StepsSnoc(p, Components(q), c);
    }
  }

  /** Walking the components of the cleaned place leads where the components lead. */
  lemma {:induction false} StepsRebased(p: Place, comps: seq<string>)
    requires forall i | 0 <= i < |comps| :: SlashFree(comps[i])
    ensures Steps(p, comps) == Steps(p, Components(Steps(Origin, comps)))
    decreases |comps|
  {
    if comps != [] {
      var init, last := comps[..|comps| - 1], comps[|comps| - 1];
      assert comps == init + [last];
      StepsRebased(p, init);
      StepsOrdinary(Origin, init);
      StepsSnoc(p, init, last);
      StepsSnoc(Origin, init, last);
      StepRebased(p, Steps(Origin, init), last);
    }
  }

  const Public := Place(0, ["public"])

  lemma CleanBelow(name: string)
    ensures Clean(DirPrefix + name) == RenderRelative(Steps(Public, Split(name)))
  {
    var top := Public.names[0];
    assert DirPrefix + name == top + "/" + name;
    SplitCut(top, name);
    SplitWord(top);
    StepsConcat(Origin, Public.names, Split(name));
    StepsDown(Origin, Public.names);
    assert Origin.names + Public.names == Public.names;
  }

  lemma StepsFromDot(p: Place)
    ensures Steps(p, ["."]) == p
  {
    assert ["."][1..] == [];
  }

  lemma CleanByPlace(name: string)
    ensures Clean(DirPrefix + name) == Clean(DirPrefix + RenderRelative(PlaceOf(name)))
  {
    var p := PlaceOf(name);
    SplitSlashFree(name);
    StepsRebased(Public, Split(name));
    PlaceOfOrdinary(name);
    PlaceOfRelative(p);
    CleanBelow(name);
    CleanBelow(RenderRelative(p));
    StepsFromDot(Public);
    assert p == Origin ==> Components(p) == [];
  }

  /** The archive never looks further than the cleaned place a name stands for. */
  lemma LookupByPlace(es: seq<ZipEntry>, files: map<string, nat>, dirs: map<string, Header>, name: string)
    requires Indexed(es, files, dirs)
    ensures Lookup(es, files, dirs, name) == TreeOf(es, files, dirs)(PlaceOf(name))
  {
    CleanByPlace(name);
  }

  /** The name of the entry that stands for a file at `names`. */
  function Key(names: seq<string>): string { Join(["public"] + names) }

  lemma KeyPrefixed(names: seq<string>)
    requires names != []
    ensures Key(names) == DirPrefix + Join(names)
  {
    JoinConcat(["public"], names);
  }

  lemma KeyOf(names: seq<string>)
    requires names != [] && AllOrdinary(names)
    ensures Clean(DirPrefix + RenderRelative(Place(0, names))) == Key(names)
  {
    var p := Place(0, names);
    PlaceOfRelative(p);
    CleanBelow(RenderRelative(p));
    assert Components(p) == names;
    StepsDown(Public, names);
    assert Components(Place(0, Public.names + names)) == Public.names + names;
  }

  // ----- what the walk reaches -----

  /** A directory under `key`: listed, or directly holding an entry, and no file in its place. */
  ghost predicate HasDir(es: seq<ZipEntry>, key: string) {
    && (exists k :: DirAt(es, k, key + "/") || ParentAt(es, k, key + "/"))
    && forall k | 0 <= k < |es| :: !FileAt(es, k, key)
  }

  /** The last entry under `key` that is no directory is of this kind. */
  ghost predicate HasKind(es: seq<ZipEntry>, key: string, kind: Kind) {
    exists k: nat :: FileAt(es, k, key) && es[k].kind == kind && forall j | k < j < |es| :: !FileAt(es, j, key)
  }

  ghost predicate HasFile(es: seq<ZipEntry>, key: string) { HasKind(es, key, IsFile) }

  lemma FileExactly(es: seq<ZipEntry>, files: map<string, nat>, key: string)
    requires FilesIndexed(es, files)
    ensures key in files <==> exists k :: FileAt(es, k, key)
    ensures forall kind :: HasKind(es, key, kind) <==> key in files && es[files[key]].kind == kind
  {
    forall k: nat | FileAt(es, k, key) ensures key in files {
      assert FileAt(es, k, es[k].name);
    }
    if key in files {
      assert FileAt(es, files[key], key);
    }
  }

  lemma DirExactly(es: seq<ZipEntry>, dirs: map<string, Header>, d: string)
    requires DirsIndexed(es, dirs)
    ensures d in dirs <==> exists k :: DirAt(es, k, d) || ParentAt(es, k, d)
  {
    if d in dirs {
      assert DirRight(es, d, dirs[d]);
    }
    forall k: nat | DirAt(es, k, d) || ParentAt(es, k, d) ensures d in dirs {
      assert Entered(es[k], dirs);
    }
  }

  lemma NodeExactly(es: seq<ZipEntry>, files: map<string, nat>, dirs: map<string, Header>, key: string)
    requires Indexed(es, files, dirs)
    ensures NodeAt(es, files, dirs, key).Directory? <==> HasDir(es, key)
    ensures NodeAt(es, files, dirs, key).File? <==> HasFile(es, key)
    ensures forall target :: NodeAt(es, files, dirs, key) == Link(target) <==> HasKind(es, key, IsLink(target))
    ensures forall code :: NodeAt(es, files, dirs, key) == Unreadable(code) <==> HasKind(es, key, BadLink(code))
    ensures NodeAt(es, files, dirs, key).Missing? ==> NodeAt(es, files, dirs, key).code == 2
  {
    FileExactly(es, files, key);
    DirExactly(es, dirs, key + "/");
  }

  lemma NodeOfNames(es: seq<ZipEntry>, files: map<string, nat>, dirs: map<string, Header>, names: seq<string>)
    requires Indexed(es, files, dirs) && names != [] && AllOrdinary(names)
    ensures TreeOf(es, files, dirs)(Place(0, names)) == NodeAt(es, files, dirs, Key(names))
  {
    KeyOf(names);
  }

  /** Every directory above `names` is in the archive, and `names` itself is there and no link. */
  ghost predicate Laid(es: seq<ZipEntry>, names: seq<string>) {
    && (forall j | 1 <= j < |names| :: HasDir(es, Key(names[..j])))
    && (HasDir(es, Key(names)) || HasFile(es, Key(names)))
  }

  lemma LaidExactly(es: seq<ZipEntry>, files: map<string, nat>, dirs: map<string, Header>, names: seq<string>)
    requires Indexed(es, files, dirs) && names != [] && AllOrdinary(names)
    ensures Laid(es, names) <==> Canonical(TreeOf(es, files, dirs), Place(0, names))
  {
    var fs, p := TreeOf(es, files, dirs), Place(0, names);
    forall j | 1 <= j <= |names|
      ensures Ancestor(fs, p, j).Directory? <==> HasDir(es, Key(names[..j]))
      ensures Ancestor(fs, p, j).File? <==> HasFile(es, Key(names[..j]))
    {
      NodeOfNames(es, files, dirs, names[..j]);
      NodeExactly(es, files, dirs, Key(names[..j]));
    }
    assert names[..|names|] == names;
  }

  /**
   The walk finds a plain name in an archive, reading no link, exactly when every directory above
   it is listed or directly holds an entry.
   */
  lemma ReachedExactly(es: seq<ZipEntry>, files: map<string, nat>, dirs: map<string, Header>, names: seq<string>)
    requires Indexed(es, files, dirs) && names != [] && AllOrdinary(names)
    ensures Evaluate(TreeOf(es, files, dirs), Join(names)) == Walk(Found(Position(false, Place(0, names))), 0)
       <==> Laid(es, names)
  {
    PlainWalk(TreeOf(es, files, dirs), names);
    LaidExactly(es, files, dirs, names);
  }

  lemma PlainWalk(fs: Tree, names: seq<string>)
    requires names != [] && AllOrdinary(names)
    ensures Evaluate(fs, Join(names)) == Walk(Found(Position(false, Place(0, names))), 0)
       <==> Canonical(fs, Place(0, names))
  {
    var at := Position(false, Place(0, names));
    SplitOfJoin(names);
    assert Join(names)[0] == names[0][0];
    ResolveCanonical(fs, false, Start(false), names, 0);
    if Canonical(fs, at.place) {
      DescendAll(fs, false, at, 0);
      assert names[..0] == [] && names[0..] == names;
    }
  }

  lemma {:induction false} DirPartSplit(front: string, last: string)
    requires SlashFree(last)
    ensures DirPart(front + "/" + last) == front + "/"
    decreases |last|
  {
    var name := front + "/" + last;
    if last == "" {
      assert name == front + "/";
    } else {
      var init := last[..|last| - 1];
      assert name[..|name| - 1] == front + "/" + init;
      DirPartSplit(front, init);
    }
  }

  lemma KeyCut(names: seq<string>, k: nat)
    requires k < |names|
    ensures Key(names) == Key(names[..k]) + "/" + Join(names[k..])
  {
    assert ["public"] + names == (["public"] + names[..k]) + names[k..];
    JoinConcat(["public"] + names[..k], names[k..]);
  }

  lemma ParentOfKey(names: seq<string>)
    requires names != [] && AllOrdinary(names)
    ensures DirPart(Key(names)) == Key(names[..|names| - 1]) + "/"
  {
    var n := |names| - 1;
    KeyCut(names, n);
    assert names[n..] == [names[n]] && Ordinary(names[n]);
    DirPartSplit(Key(names[..n]), names[n]);
  }

  /** Only immediate parents are implied: an entry more than two levels down, alone in its archive, is not reached. */
  lemma LoneEntryUnreached(es: seq<ZipEntry>, names: seq<string>)
    requires |names| >= 3 && AllOrdinary(names)
    requires es == [ZipEntry(Key(names), IsFile)]
    ensures HasFile(es, Key(names)) && !Laid(es, names)
  {
    var n, key := |names| - 1, Key(names[..1]);
    KeyPrefixed(names);
    assert FileAt(es, 0, Key(names));
    ParentOfKey(names);
    KeyCut(names[..n], 1);
    assert names[..n][..1] == names[..1];
    assert |key + "/"| < |DirPart(es[0].name)|;
    assert !HasDir(es, key);
  }
}
