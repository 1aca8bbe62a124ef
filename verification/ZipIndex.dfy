/** The index of an archive: which of its entries are found under which names. */
module ZipIndex {
  /** What an entry's mode says; `BadLink` is a link whose target cannot be read. */
  datatype Kind = IsDir | IsFile | IsLink(target: string) | BadLink(code: int)

  datatype ZipEntry = ZipEntry(name: string, kind: Kind)

  const DirPrefix := "public/"

  /** The part of a name up to and including its last slash. */
  function DirPart(name: string): string {
    if name == "" || name[|name| - 1] == '/' then name else DirPart(name[..|name| - 1])
  }

  /** A directory of the index: an entry of the archive, or implied by one below it. */
  datatype Header = Listed(k: nat) | Implied

  predicate FileAt(es: seq<ZipEntry>, k: nat, name: string) {
    k < |es| && es[k].name == name && DirPrefix <= name && es[k].kind != IsDir
  }

  predicate DirAt(es: seq<ZipEntry>, k: nat, name: string) {
    k < |es| && es[k].name == name && DirPrefix <= name && es[k].kind == IsDir
  }

  predicate ParentAt(es: seq<ZipEntry>, k: nat, dir: string) {
    k < |es| && DirPrefix <= es[k].name && DirPart(es[k].name) == dir
  }

  /** Exactly the files below the prefix, each name with its last entry. */
  ghost predicate FilesIndexed(es: seq<ZipEntry>, files: map<string, nat>) {
    && (forall name | name in files ::
          FileAt(es, files[name], name) && forall k | files[name] < k < |es| :: !FileAt(es, k, name))
    && (forall k | 0 <= k < |es| :: FileAt(es, k, es[k].name) ==> es[k].name in files)
  }

  /** The last entry for the directory `d`, or none if it is only the parent of some entry. */
  ghost predicate DirRight(es: seq<ZipEntry>, d: string, h: Header) {
    match h
    case Listed(k) => DirAt(es, k, d) && forall j | k < j < |es| :: !DirAt(es, j, d)
    case Implied => (exists k :: ParentAt(es, k, d)) && forall k | 0 <= k < |es| :: !DirAt(es, k, d)
  }

  predicate Entered(e: ZipEntry, dirs: map<string, Header>) {
    DirPrefix <= e.name ==> DirPart(e.name) in dirs && (e.kind == IsDir ==> e.name in dirs)
  }

  /** Exactly the directories below the prefix and the immediate parents of entries there. */
  ghost predicate DirsIndexed(es: seq<ZipEntry>, dirs: map<string, Header>) {
    && (forall d | d in dirs :: DirRight(es, d, dirs[d]))
    && (forall k | 0 <= k < |es| :: Entered(es[k], dirs))
  }

  lemma {:induction false} DirPartOf(name: string)
    requires '/' in name
    ensures DirPart(name) != "" && DirPart(name) <= name
  {
    if name[|name| - 1] != '/' {
      var front := name[..|name| - 1];
      assert name == front + [name[|name| - 1]];
      DirPartOf(front);
    }
  }

  lemma FilesGrow(es: seq<ZipEntry>, e: ZipEntry, files: map<string, nat>)
    requires FilesIndexed(es, files)
    ensures FilesIndexed(es + [e], FilesWith(files, e, |es|))
  {
    var all := es + [e];
    forall name | name in files && (name != e.name || !FileAt(all, |es|, name))
      ensures FileAt(all, files[name], name) && forall k | files[name] < k < |all| :: !FileAt(all, k, name)
    {
      forall k | files[name] < k < |all| ensures !FileAt(all, k, name) {
        assert k < |es| ==> (FileAt(es, k, name) <==> FileAt(all, k, name));
      }
    }
    forall k | 0 <= k < |all| && FileAt(all, k, all[k].name)
      ensures all[k].name in files || (k == |es| && FileAt(all, |es|, e.name))
    {
      assert k < |es| ==> FileAt(es, k, es[k].name);
    }
  }

  /** The directories after one more entry below the prefix. */
  function WithEntry(dirs: map<string, Header>, e: ZipEntry, k: nat): map<string, Header> {
    var d := if e.kind == IsDir then dirs[e.name := Listed(k)] else dirs;
    if DirPart(e.name) == "" || DirPart(e.name) in d then d else d[DirPart(e.name) := Implied]
  }

  lemma RightKept(es: seq<ZipEntry>, e: ZipEntry, d: string, h: Header)
    requires DirRight(es, d, h) && !DirAt([e], 0, d)
    ensures DirRight(es + [e], d, h)
  {
    var all := es + [e];
    assert forall k | 0 <= k < |es| :: DirAt(es, k, d) <==> DirAt(all, k, d);
    if h.Implied? {
      var k :| ParentAt(es, k, d);
      assert ParentAt(all, k, d);
    }
  }

  lemma RightImplied(es: seq<ZipEntry>, e: ZipEntry, dirs: map<string, Header>)
    requires DirsIndexed(es, dirs) && DirPrefix <= e.name
    requires DirPart(e.name) !in dirs && !DirAt([e], 0, DirPart(e.name))
    ensures DirRight(es + [e], DirPart(e.name), Implied)
  {
    var all, d := es + [e], DirPart(e.name);
    assert ParentAt(all, |es|, d);
    forall k | 0 <= k < |all| ensures !DirAt(all, k, d) {
      assert k < |es| ==> Entered(es[k], dirs);
    }
  }

  /** The directories and files after one more entry, below the prefix or not. */
  function DirsWith(dirs: map<string, Header>, e: ZipEntry, k: nat): map<string, Header> {
    if DirPrefix <= e.name then WithEntry(dirs, e, k) else dirs
  }

  function FilesWith(files: map<string, nat>, e: ZipEntry, k: nat): map<string, nat> {
    if DirPrefix <= e.name && e.kind != IsDir then files[e.name := k] else files
  }

  lemma DirsGrow(es: seq<ZipEntry>, e: ZipEntry, dirs: map<string, Header>)
    requires DirsIndexed(es, dirs)
    ensures DirsIndexed(es + [e], DirsWith(dirs, e, |es|))
  {
    var all, n := es + [e], |es|;
    var dirs' := DirsWith(dirs, e, n);
    forall d | d in dirs' ensures DirRight(all, d, dirs'[d]) {
      if DirAt([e], 0, d) {
        assert DirAt(all, n, d);
      } else if d in dirs {
        RightKept(es, e, d, dirs[d]);
      } else {
        RightImplied(es, e, dirs);
      }
    }
    forall k | 0 <= k < |all| ensures Entered(all[k], dirs') {
      if k < n {
        assert Entered(es[k], dirs);
      } else if DirPrefix <= e.name {
        assert DirPrefix[6] == '/' && e.name[6] == '/';
        DirPartOf(e.name);
      }
    }
  }

  ghost predicate Indexed(es: seq<ZipEntry>, files: map<string, nat>, dirs: map<string, Header>) {
    FilesIndexed(es, files) && DirsIndexed(es, dirs)
  }

  lemma IndexGrows(es: seq<ZipEntry>, i: nat, files: map<string, nat>, dirs: map<string, Header>)
    requires i < |es| && Indexed(es[..i], files, dirs)
    ensures Indexed(es[..i + 1], FilesWith(files, es[i], i), DirsWith(dirs, es[i], i))
  {
    FilesGrow(es[..i], es[i], files);
    DirsGrow(es[..i], es[i], dirs);
    assert es[..i] + [es[i]] == es[..i + 1];
  }

  /** A parent is added only where no directory is known yet. */
  method AddPathDirectory(pathname: string, dirs: map<string, Header>) returns (dirs': map<string, Header>)
    ensures dirs' == if DirPart(pathname) == "" || DirPart(pathname) in dirs then dirs
                     else dirs[DirPart(pathname) := Implied]
  {
    var dir := DirPart(pathname);
    dirs' := dirs;
    if dir != "" && dir !in dirs {
      dirs' := dirs[dir := Implied];
    }
  }

  /** The loop of readArchive over the archive's entries. */
  method BuildIndex(es: seq<ZipEntry>) returns (files: map<string, nat>, dirs: map<string, Header>)
    ensures Indexed(es, files, dirs)
    ensures forall name | name in files :: "public/" <= name
    ensures forall k | 0 <= k < |es| && "public/" <= es[k].name && es[k].kind != IsDir :: es[k].name in files
    ensures forall k | 0 <= k < |es| && "public/" <= es[k].name && es[k].kind == IsDir :: es[k].name in dirs
  {
    files, dirs := map[], map[];
    for i := 0 to |es|
      invariant Indexed(es[..i], files, dirs)
    {
      var e := es[i];
      IndexGrows(es, i, files, dirs);
      if DirPrefix <= e.name {
        if e.kind == IsDir {
          dirs := dirs[e.name := Listed(i)];
        } else {
          files := files[e.name := i];
        }
        dirs := AddPathDirectory(e.name, dirs);
      }
    }
    assert es[..|es|] == es;
    forall k | 0 <= k < |es| && "public/" <= es[k].name
      ensures if es[k].kind == IsDir then es[k].name in dirs else es[k].name in files
    {
      assert FileAt(es, k, es[k].name) || Entered(es[k], dirs);
    }
  }
}
