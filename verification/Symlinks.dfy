/**
 Symbolic-link evaluation inside a virtual root.

 `WalkSymlinks` is the string-rewriting loop: it splices link targets into the unread part of
 the path and edits the result text in place.  `Resolve` is what it must compute: a resolver
 over component lists that only ever holds a cleaned position.
 */
module Symlinks {
  import opened Basics
  import opened Paths

  /** What the virtual root answers for a cleaned position. */
  datatype Node =
    | Missing(code: int)     // Lstat fails
    | Directory
    | File
    | Link(target: string)
    | Unreadable(code: int)  // a link whose Readlink fails

  type Tree = Place -> Node

  datatype Error = LookupFailed(code: int) | NotADirectory | TooManyLinks | CannotBacktrackRoot

  /** A cleaned position, and whether it is written with a leading slash. */
  datatype Position = Position(rooted: bool, place: Place)

  datatype Outcome = Found(at: Position) | Failed(error: Error)

  datatype Walk = Walk(outcome: Outcome, readlinks: nat)

  const MaxLinks: nat := 255

  function Render(p: Position): string {
    if p.rooted then RenderRooted(p.place.names) else RenderRelative(p.place)
  }

  // ----- the resolver -----

  function Descend(at: Position, c: string): Position {
    at.(place := Place(at.place.ups, at.place.names + [c]))
  }

  /** ".." when the request is relative; leaving the last name of a rooted path drops its slash. */
  function Climb(at: Position): Position {
    if at.rooted && at.place.names == [] then Position(false, Origin)
    else Position(at.rooted && |at.place.names| > 1, Up(at.place))
  }

  /** Where ".." leads; a request that starts with a slash never loses it. */
  function ClimbFrom(absolute: bool, at: Position): Position {
    if absolute then at.(place := Up(at.place)) else Climb(at)
  }

  /** The position a relative link found in `at` is read from. */
  function LinkBase(absolute: bool, at: Position): Position {
    at.(rooted := at.rooted && (absolute || at.place.names != []))
  }

  function Start(absolute: bool): Position { Position(absolute, Origin) }

  function Resolve(fs: Tree, absolute: bool, at: Position, comps: seq<string>, links: nat): (w: Walk)
    requires links <= MaxLinks
    ensures links <= w.readlinks <= MaxLinks
    decreases MaxLinks - links, |comps|, 1
  {
    if comps == [] then Walk(Found(at), links)
    else
      var c, rest := comps[0], comps[1..];
      if c == "" || c == "." then Resolve(fs, absolute, at, rest, links)
      else if c == ".." then
        if absolute && |at.place.names| <= 1 then Walk(Failed(CannotBacktrackRoot), links)
        else Resolve(fs, absolute, ClimbFrom(absolute, at), rest, links)
      else
        ResolveNode(fs, absolute, at, Descend(at, c), rest, links)
  }

  /** What becomes of the component that led from `at` to `next`. */
  function ResolveNode(fs: Tree, absolute: bool, at: Position, next: Position, rest: seq<string>, links: nat): (w: Walk)
    requires links <= MaxLinks
    ensures links <= w.readlinks <= MaxLinks
    decreases MaxLinks - links, |rest| + 1, 0
  {
    match fs(next.place)
    case Missing(code) => Walk(Failed(LookupFailed(code)), links)
    case Directory => Resolve(fs, absolute, next, rest, links)
    case File =>
      if rest != [] then Walk(Failed(NotADirectory), links) else Walk(Found(next), links)
    case Link(target) =>
      if links == MaxLinks then Walk(Failed(TooManyLinks), links)
      else
        var base := if Rooted(target) then Start(true) else LinkBase(absolute, at);
        Resolve(fs, absolute, base, Split(target) + rest, links + 1)
    case Unreadable(code) =>
      if links == MaxLinks then Walk(Failed(TooManyLinks), links)
      else Walk(Failed(LookupFailed(code)), links + 1)
  }

  /** The meaning of evaluating `request`. */
  function Evaluate(fs: Tree, request: string): Walk {
    Resolve(fs, Rooted(request), Start(Rooted(request)), Split(request), 0)
  }

  // ----- the text of the result under construction -----

  /** `dest` is kept as an optional slash and parts; a relative one may hold ".." it had to keep. */
  function Text(rooted: bool, parts: seq<string>): string {
    if rooted then RenderRooted(parts) else Join(parts)
  }

  ghost predicate Tidy(rooted: bool, parts: seq<string>) {
    && (forall i | 0 <= i < |parts| :: Ordinary(parts[i]) || parts[i] == "..")
    && (rooted ==> AllOrdinary(parts))
  }

  function Where(rooted: bool, parts: seq<string>): Position {
    Position(rooted, Steps(Origin, parts))
  }

  lemma StepsSnoc(p: Place, parts: seq<string>, c: string)
    ensures Steps(p, parts + [c]) == Step(Steps(p, parts), c)
  {
    StepsConcat(p, parts, [c]);
    assert [c][1..] == [];
  }

  /** The virtual root reads `dest` as the place it stands for, whatever ".." it kept. */
  lemma PlaceOfText(rooted: bool, parts: seq<string>)
    requires Tidy(rooted, parts)
    ensures PlaceOf(Text(rooted, parts)) == Steps(Origin, parts)
  {
    var body := if parts == [] then [""] else parts;
    if parts != [] {
      forall i | 0 <= i < |parts| ensures SlashFree(parts[i]) { assert Ordinary(parts[i]) || parts[i] == ".."; }
      SplitOfJoin(parts);
    }
    assert Split(Join(parts)) == body;
    assert Steps(Origin, body) == Steps(Origin, parts);
    if rooted {
      assert Text(rooted, parts)[1..] == Join(parts);
      assert ([""] + body)[1..] == body;
    }
  }

  lemma CleanOfText(rooted: bool, parts: seq<string>)
    requires Tidy(rooted, parts)
    ensures Clean(Text(rooted, parts)) == Render(Where(rooted, parts))
  {
    PlaceOfText(rooted, parts);
    if rooted {
      NamesOfRooted(parts);
      StepsDown(Origin, parts);
      assert [] + parts == parts;
    } else if parts != [] {
      assert parts[0] != "" && parts[0][0] != '/';
      assert Join(parts)[0] == parts[0][0];
    }
  }

  /** The last part of `dest` is what follows its last slash. */
  lemma TextSnoc(rooted: bool, init: seq<string>, last: string)
    ensures Text(rooted, init + [last]) ==
            (if init == [] then (if rooted then "/" else "") else Text(rooted, init) + "/") + last
  {
    if init == [] {
      assert init + [last] == [last];
    } else {
      JoinConcat(init, [last]);
    }
  }

  /** What follows a slash-free word, or a spliced link, in the unread text. */
  function Tail(rest: string): seq<string> {
    if rest == "" then [] else Split(rest[1..])
  }

  lemma SplitSplice(text: string, rest: string)
    requires rest == "" || Rooted(rest)
    ensures Split(text + rest) == Split(text) + Tail(rest)
  {
    if rest == "" {
      assert text + rest == text;
    } else {
      assert text + rest == text + "/" + rest[1..];
      SplitCut(text, rest[1..]);
    }
  }

  lemma ResolveTail(fs: Tree, absolute: bool, at: Position, rest: string, links: nat)
    requires links <= MaxLinks
    requires rest == "" || Rooted(rest)
    ensures Resolve(fs, absolute, at, Split(rest), links) == Resolve(fs, absolute, at, Tail(rest), links)
  {
    if rest != "" {
      assert Split(rest) == [""] + Split(rest[1..]);
      assert Split(rest)[1..] == Tail(rest);
    }
  }

  // ----- the loops of the walk -----

  method SkipSeparators(path: string, from: nat) returns (start: nat)
    requires from <= |path|
    ensures from <= start <= |path|
    ensures forall i | from <= i < start :: path[i] == '/'
    ensures start < |path| ==> path[start] != '/'
  {
    start := from;
    while start < |path| && path[start] == '/'
      invariant from <= start <= |path|
      invariant forall i | from <= i < start :: path[i] == '/'
    {
      start := start + 1;
    }
  }

  method ComponentEnd(path: string, start: nat) returns (end: nat)
    requires start <= |path|
    ensures start <= end <= |path|
    ensures SlashFree(path[start..end])
    ensures end < |path| ==> path[end] == '/'
  {
    end := start;
    while end < |path| && path[end] != '/'
      invariant start <= end <= |path|
      invariant SlashFree(path[start..end])
    {
      assert path[start..end + 1] == path[start..end] + [path[end]];
      end := end + 1;
    }
  }

  /** The index of the last slash in `dest` at or after `low`, or `low - 1`. */
  method LastSlash(dest: string, low: nat) returns (r: int)
    requires low <= |dest|
    ensures low - 1 <= r < |dest|
    ensures low <= r ==> dest[r] == '/'
    ensures forall i | r < i < |dest| :: low <= i ==> dest[i] != '/'
  {
    r := |dest| - 1;
    while r >= low && dest[r] != '/'
      invariant low - 1 <= r < |dest|
      invariant forall i | r < i < |dest| :: low <= i ==> dest[i] != '/'
    {
      r := r - 1;
    }
  }

  lemma LastSlashAt(dest: string, front: string, last: string, r: int)
    requires dest == front + "/" + last && SlashFree(last)
    requires |front| <= r < |dest| && dest[r] == '/'
    ensures r == |front|
  {
    forall i | |front| < i < |dest| ensures dest[i] != '/' {
      assert dest[i] == last[i - |front| - 1];
    }
  }

  lemma {:induction false} SkippedSeparators(fs: Tree, absolute: bool, at: Position,
                                             path: string, from: nat, start: nat, links: nat)
    requires links <= MaxLinks && from <= start <= |path|
    requires forall i | from <= i < start :: path[i] == '/'
    ensures Resolve(fs, absolute, at, Split(path[from..]), links) ==
            Resolve(fs, absolute, at, Split(path[start..]), links)
    decreases start - from
  {
    if from < start {
      assert path[from..][1..] == path[from + 1..];
      ResolveTail(fs, absolute, at, path[from..], links);
      SkippedSeparators(fs, absolute, at, path, from + 1, start, links);
    }
  }

  /** Find the next component, `path[start..end]`; what follows it is the rest of the work. */
  method NextComponent(ghost fs: Tree, ghost absolute: bool, ghost at: Position,
                       path: string, from: nat, ghost links: nat)
    returns (start: nat, end: nat)
    requires from <= |path| && links <= MaxLinks
    ensures from <= start <= end <= |path|
    ensures SlashFree(path[start..end])
    ensures end == start ==> end == |path|
    ensures end < |path| ==> path[end] == '/'
    ensures Resolve(fs, absolute, at, Split(path[from..]), links) ==
            Resolve(fs, absolute, at, [path[start..end]] + Tail(path[end..]), links)
  {
    start := SkipSeparators(path, from);
    SkippedSeparators(fs, absolute, at, path, from, start, links);
    end := ComponentEnd(path, start);
    assert path[start..] == path[start..end] + path[end..];
    SplitWord(path[start..end]);
    SplitSplice(path[start..end], path[end..]);
  }

  lemma LastOfShort(dest: string, low: nat, rooted: bool, last: string, r: int)
    requires dest == (if rooted then "/" else "") + last && SlashFree(last)
    requires low == 0 || (low == 1 && rooted)
    requires low - 1 <= r < |dest|
    requires low <= r ==> dest[r] == '/'
    requires forall i | r < i < |dest| :: low <= i ==> dest[i] != '/'
    ensures r == if rooted then 0 else -1
    ensures rooted ==> dest[1..] == last && dest[..1] == "/"
  {
    if rooted {
      assert dest[0] == '/';
      forall i | 0 < i < |dest| ensures dest[i] != '/' { assert dest[i] == last[i - 1]; }
    }
  }

  /** What the last-slash search finds in `dest`. */
  lemma LastPart(dest: string, low: nat, rooted: bool, parts: seq<string>, init: seq<string>, last: string, r: int)
    requires dest == Text(rooted, parts) && Tidy(rooted, parts)
    requires if parts == [] then init == [] && last == "" else parts == init + [last]
    requires low == 0 || (low == 1 && rooted)
    requires low - 1 <= r < |dest|
    requires low <= r ==> dest[r] == '/'
    requires forall i | r < i < |dest| :: low <= i ==> dest[i] != '/'
    ensures r < low <==> |parts| <= 1 && (rooted ==> low == 1)
    ensures low <= r ==> dest[r + 1..] == last
    ensures low <= r ==> dest[..r] == Text(rooted && init != [], init)
    ensures r < low ==> dest[..low] == Text(rooted, init)
  {
    if |parts| <= 1 {
      LastOfShort(dest, low, rooted, last, r);
      assert parts == [] ==> Join(parts) == "";
      assert parts != [] ==> parts == [last] && Join(parts) == last;
    } else {
      assert last == parts[|parts| - 1] && (Ordinary(last) || last == "..");
      TextSnoc(rooted, init, last);
      var front := Text(rooted, init);
      assert dest[|front|] == '/';
      LastSlashAt(dest, front, last, r);
    }
  }

  lemma KeepDotDot(parts: seq<string>)
    ensures Where(false, parts + [".."]) == Climb(Where(false, parts))
    ensures Text(false, parts + [".."]) == (if parts == [] then "" else Text(false, parts) + "/") + ".."
  {
    StepsSnoc(Origin, parts, "..");
    TextSnoc(false, parts, "..");
  }

  lemma DropName(rooted: bool, parts: seq<string>)
    requires Tidy(rooted, parts)
    requires parts == [] ==> rooted
    requires parts != [] ==> Ordinary(parts[|parts| - 1])
    ensures
      var init := if parts == [] then [] else parts[..|parts| - 1];
      && Tidy(rooted, init)
      && Where(rooted && init != [], init) == Climb(Where(rooted, parts))
      && (parts != [] ==> Steps(Origin, init) == Up(Steps(Origin, parts)))
  {
    if parts != [] {
      var init, last := parts[..|parts| - 1], parts[|parts| - 1];
      assert parts == init + [last];
      StepsSnoc(Origin, init, last);
      assert Steps(Origin, init).names + [last] == Steps(Origin, parts).names;
      if rooted {
        StepsDown(Origin, parts);
        assert [] + parts == parts;
      }
    }
  }

  /** What each way of backing up means, case by case of the last-slash search. */
  lemma BackUpMeaning(dest: string, low: nat, rooted: bool, parts: seq<string>, r: int)
    requires dest == Text(rooted, parts) && Tidy(rooted, parts)
    requires low == 0 || (low == 1 && rooted)
    requires low - 1 <= r < |dest|
    requires low <= r ==> dest[r] == '/'
    requires forall i | r < i < |dest| :: low <= i ==> dest[i] != '/'
    ensures
      var at := Where(rooted, parts);
      var init := if parts == [] then [] else parts[..|parts| - 1];
      if low == 1 && r < low then |at.place.names| <= 1
      else if r < low || dest[r + 1..] == ".." then
        && !rooted && low == 0
        && Text(false, parts + [".."]) == (if dest == "" then "" else dest + "/") + ".."
        && Where(false, parts + [".."]) == Climb(at)
      else
        && dest[..r] == Text(rooted && init != [], init)
        && Tidy(rooted, init)
        && Where(rooted && init != [], init) == ClimbFrom(low == 1, at)
        && (low == 1 ==> init != [] && |at.place.names| > 1)
  {
    var init := if parts == [] then [] else parts[..|parts| - 1];
    var last := if parts == [] then "" else parts[|parts| - 1];
    LastPart(dest, low, rooted, parts, init, last, r);
    if rooted {
      StepsDown(Origin, parts);
      assert [] + parts == parts;
    }
    if r >= low && last != ".." {
      DropName(rooted, parts);
    } else if low == 0 {
      KeepDotDot(parts);
      if parts != [] {
        assert parts[0] != "";
        TextSnoc(rooted, init, last);
      }
    }
  }

  /** The ".." branch: back up over the last part, or keep the "..". */
  method BackUp(dest: string, volLen: nat, ghost rooted: bool, ghost parts: seq<string>)
    returns (ok: bool, dest': string, ghost rooted': bool, ghost parts': seq<string>)
    requires dest == Text(rooted, parts) && Tidy(rooted, parts)
    requires volLen == 0 || (volLen == 1 && rooted)
    ensures ok <==> volLen == 0 || |Where(rooted, parts).place.names| > 1
    ensures ok ==> dest' == Text(rooted', parts') && Tidy(rooted', parts')
    ensures ok ==> Where(rooted', parts') == ClimbFrom(volLen == 1, Where(rooted, parts))
  {
    var r := LastSlash(dest, volLen);
    BackUpMeaning(dest, volLen, rooted, parts, r);
    if r >= 0 && r + 1 == volLen && dest[r] == '/' {
      return false, "", rooted, parts;
    } else if r < volLen || dest[r + 1..] == ".." {
      dest' := dest;
      if |dest| > volLen {
        dest' := dest' + "/";
      }
      dest' := dest' + "..";
      ok, rooted', parts' := true, rooted, parts + [".."];
    } else {
      ok, dest' := true, dest[..r];
      parts' := if parts == [] then [] else parts[..|parts| - 1];
      rooted' := rooted && parts' != [];
    }
  }

  /** Drop the link's own name from `dest`, to read its relative target from its directory. */
  method DropLast(dest: string, volLen: nat, ghost rooted: bool, ghost init: seq<string>, ghost last: string)
    returns (dest': string)
    requires dest == Text(rooted, init + [last]) && Tidy(rooted, init) && Ordinary(last)
    requires volLen == 0 || (volLen == 1 && rooted)
    ensures dest' == Text(LinkBase(volLen == 1, Where(rooted, init)).rooted, init)
  {
    assert rooted ==> Where(rooted, init).place.names == init by {
      if rooted {
        StepsDown(Origin, init);
        assert [] + init == init;
      }
    }
    var r := LastSlash(dest, volLen);
    LastPart(dest, volLen, rooted, init + [last], init, last, r);
    if r < volLen {
      dest' := dest[..volLen];
    } else {
      dest' := dest[..r];
    }
  }

  method Append(dest: string, c: string, ghost rooted: bool, ghost parts: seq<string>) returns (dest': string)
    requires dest == Text(rooted, parts) && Tidy(rooted, parts) && Ordinary(c)
    ensures dest' == Text(rooted, parts + [c])
    ensures Tidy(rooted, parts + [c])
    ensures Where(rooted, parts + [c]) == Descend(Where(rooted, parts), c)
  {
    TextSnoc(rooted, parts, c);
    StepsSnoc(Origin, parts, c);
    if parts != [] {
      ghost var init, last := parts[..|parts| - 1], parts[|parts| - 1];
      assert parts == init + [last];
      TextSnoc(rooted, init, last);
      assert last != "" && last[|last| - 1] != '/';
    }
    dest' := dest;
    if |dest| > 0 && dest[|dest| - 1] != '/' {
      dest' := dest' + "/";
    }
    dest' := dest' + c;
  }

  /** Splice a link target in front of the unread text and restart `dest` where it is read from. */
  method FollowLink(ghost fs: Tree, link: string, rest: string, dest: string, volLen: nat,
                    ghost rooted: bool, ghost init: seq<string>, ghost last: string, ghost links: nat)
    returns (path: string, dest': string, end: nat, ghost rooted': bool, ghost parts': seq<string>)
    requires rest == "" || Rooted(rest)
    requires dest == Text(rooted, init + [last]) && Tidy(rooted, init) && Ordinary(last)
    requires volLen == 0 || (volLen == 1 && rooted)
    requires links <= MaxLinks
    ensures end <= |path| && dest' == Text(rooted', parts') && Tidy(rooted', parts')
    ensures volLen == 1 ==> rooted'
    ensures
      var base := if Rooted(link) then Start(true) else LinkBase(volLen == 1, Where(rooted, init));
      Resolve(fs, volLen == 1, Where(rooted', parts'), Split(path[end..]), links) ==
      Resolve(fs, volLen == 1, base, Split(link) + Tail(rest), links)
  {
    SplitSplice(link, rest);
    path := link + rest;
    assert path[0..] == path;
    if Rooted(link) {
      dest', end, rooted', parts' := link[..1], 1, true, [];
      SkippedSeparators(fs, volLen == 1, Start(true), path, 0, 1, links);
    } else {
      dest' := DropLast(dest, volLen, rooted, init, last);
      end, rooted', parts' := 0, LinkBase(volLen == 1, Where(rooted, init)).rooted, init;
    }
  }

  /** The count of links met includes the one that went over the budget and was not read. */
  function LinksRead(linksWalked: nat): nat {
    if linksWalked > MaxLinks then MaxLinks else linksWalked
  }

  /** An ordinary component: look it up, and stop, go on, or follow the link. */
  method Enter(fs: Tree, path: string, c: string, end: nat, dest: string, volLen: nat, links: nat,
               ghost rooted: bool, ghost parts: seq<string>, ghost meaning: Walk)
    returns (over: Option<Answer>, path': string, dest': string, end': nat, links': nat,
             ghost rooted': bool, ghost parts': seq<string>)
    requires end <= |path| && links <= MaxLinks && Ordinary(c)
    requires path[end..] == "" || Rooted(path[end..])
    requires dest == Text(rooted, parts) && Tidy(rooted, parts)
    requires volLen == 0 || (volLen == 1 && rooted)
    requires meaning == Resolve(fs, volLen == 1, Where(rooted, parts), [c] + Tail(path[end..]), links)
    ensures over.Some? ==> over.value == AnswerOf(meaning.outcome)
    ensures over.Some? ==> meaning.readlinks == LinksRead(links')
    ensures over.None? ==>
              && end' <= |path'| && links <= links' <= MaxLinks
              && (links' == links ==> path' == path && end' == end)
              && dest' == Text(rooted', parts') && Tidy(rooted', parts')
              && (volLen == 1 ==> rooted')
              && meaning == Resolve(fs, volLen == 1, Where(rooted', parts'), Split(path'[end'..]), links')
  {
    ghost var absolute, rest := volLen == 1, path[end..];
    assert ([c] + Tail(rest))[1..] == Tail(rest) && (Tail(rest) == [] <==> rest == "");
    over, path', end', links', rooted', parts' := None, path, end, links, rooted, parts + [c];
    dest' := Append(dest, c, rooted, parts);
    assert PlaceOf(dest') == Where(rooted, parts').place by { PlaceOfText(rooted, parts'); }
    assert meaning == ResolveNode(fs, absolute, Where(rooted, parts), Where(rooted, parts'), Tail(rest), links);
    match fs(PlaceOf(dest'))
    case Missing(code) =>
      over := Some(Error(LookupFailed(code)));
    case Directory =>
      ResolveTail(fs, absolute, Where(rooted, parts'), rest, links);
    case File =>
      if end < |path| {
        over := Some(Error(NotADirectory));
      } else {
        ResolveTail(fs, absolute, Where(rooted, parts'), rest, links);
      }
    case Unreadable(code) =>
      links' := links + 1;
      over := Some(Error(if links' > MaxLinks then TooManyLinks else LookupFailed(code)));
    case Link(link) =>
      links' := links + 1;
      if links' > MaxLinks {
        over := Some(Error(TooManyLinks));
      } else {
        path', dest', end', rooted', parts' :=
          FollowLink(fs, link, path[end..], dest', volLen, rooted, parts, c, links');
      }
  }

  datatype Answer = Path(text: string) | Error(error: Error)

  function AnswerOf(o: Outcome): Answer {
    match o
    case Found(at) => Path(Render(at))
    case Failed(e) => Error(e)
  }

  /** The walk computes exactly what the component-list resolver says, links read included. */
  method WalkSymlinks(fs: Tree, request: string) returns (answer: Answer, ghost readlinks: nat)
    ensures answer == AnswerOf(Evaluate(fs, request).outcome)
    ensures readlinks == Evaluate(fs, request).readlinks
  {
    var path := request;
    var volLen := if Rooted(path) then 1 else 0;
    var dest := path[..volLen];
    var linksWalked := 0;
    var end := volLen;
    ghost var absolute := volLen == 1;
    ghost var rooted, parts: seq<string> := absolute, [];
    ghost var meaning := Evaluate(fs, request);
    assert path[0..] == path;
    SkippedSeparators(fs, absolute, Start(absolute), path, 0, volLen, 0);
    while end < |path|
      invariant 0 <= end <= |path| && linksWalked <= MaxLinks
      invariant dest == Text(rooted, parts) && Tidy(rooted, parts)
      invariant absolute ==> rooted
      invariant Resolve(fs, absolute, Where(rooted, parts), Split(path[end..]), linksWalked) == meaning
      decreases MaxLinks - linksWalked, |path| - end
    {
      ghost var at := Where(rooted, parts);
      var start;
      start, end := NextComponent(fs, absolute, at, path, end, linksWalked);
      var c, rest := path[start..end], path[end..];
      assert ([c] + Tail(rest))[1..] == Tail(rest) && (Tail(rest) == [] <==> rest == "");
      assert Resolve(fs, absolute, at, [c] + Tail(rest), linksWalked) == meaning;
      if end == start || c == "." {
        ResolveTail(fs, absolute, at, rest, linksWalked);
        assert Resolve(fs, absolute, at, Split(rest), linksWalked) == meaning;
        if end == start {
          break;
        }
      } else if c == ".." {
        var ok;
        ok, dest, rooted, parts := BackUp(dest, volLen, rooted, parts);
        if !ok {
          return Error(CannotBacktrackRoot), linksWalked;
        }
        ResolveTail(fs, absolute, Where(rooted, parts), rest, linksWalked);
        assert Resolve(fs, absolute, Where(rooted, parts), Split(rest), linksWalked) == meaning;
      } else {
        var over: Option<Answer>;
        over, path, dest, end, linksWalked, rooted, parts :=
          Enter(fs, path, c, end, dest, volLen, linksWalked, rooted, parts, meaning);
        if over.Some? {
          return over.value, LinksRead(linksWalked);
        }
      }
    }
    CleanOfText(rooted, parts);
    assert path[end..] == "";
    ResolveTail(fs, absolute, Where(rooted, parts), "", linksWalked);
    return Path(Clean(dest)), linksWalked;
  }
}
