/** What rules do to whole paths: which groups are captured, by index, and what targets become. */
module RedirectTargets {
  import opened Basics
  import opened Paths
  import opened Regex
  import opened RedirectPatterns
  import opened RedirectSegments
  import opened Redirects

  // ----- captures, by index -----

  predicate IsGroup(item: Item) { item.Many? && item.group.Some? }

  function Groups(re: seq<Item>): nat {
    if re == [] then 0 else Groups(re[..|re| - 1]) + (if IsGroup(re[|re| - 1]) then 1 else 0)
  }

  lemma {:induction false} GroupsConcat(a: seq<Item>, b: seq<Item>)
    ensures Groups(a + b) == Groups(a) + Groups(b)
    decreases |b|
  {
    if b == [] {
      assert a + b == a;
    } else {
      assert (a + b)[..|a + b| - 1] == a + b[..|b| - 1];
      GroupsConcat(a, b[..|b| - 1]);
    }
  }

  lemma GroupsOne(item: Item)
    ensures Groups([item]) == if IsGroup(item) then 1 else 0
  {
    assert [item][..0] == [];
  }

  lemma {:induction false} CapturesCount(re: seq<Item>, p: seq<string>)
    requires |p| == |re|
    ensures |Captures(re, p)| == Groups(re)
    decreases |re|
  {
    if re != [] {
      CapturesCount(re[1..], p[1..]);
      assert re == [re[0]] + re[1..];
      GroupsConcat([re[0]], re[1..]);
      GroupsOne(re[0]);
    }
  }

  /** The captures are exactly the pieces of the groups, under their names, in order. */
  lemma CapturesByIndex(re: seq<Item>, p: seq<string>, i: nat)
    requires |p| == |re| && i < |re|
    ensures |Captures(re, p)| == Groups(re)
    ensures re[i].Many? && re[i].group.Some? ==>
              && Groups(re[..i]) < Groups(re)
              && Captures(re, p)[Groups(re[..i])] == (re[i].group.value, p[i])
  {
    var front, rest := re[..i], re[i..];
    assert re == front + rest && p == p[..i] + p[i..];
    CapturesCount(re, p);
    CapturesCount(front, p[..i]);
    CapturesCut(front, rest, p);
  }

  /** A name gives the value of the first pair that has it, and nothing if none has. */
  lemma {:induction false} LookupByIndex(captures: seq<(string, string)>, name: string, i: nat)
    requires i <= |captures| && forall j | 0 <= j < i :: captures[j].0 != name
    ensures i < |captures| && captures[i].0 == name ==> Lookup(captures, name) == captures[i].1
    ensures i == |captures| ==> Lookup(captures, name) == ""
  {
    if i > 0 {
      LookupByIndex(captures[1..], name, i - 1);
    }
  }

  // ----- a literal segment and a splat -----

  lemma {:induction false} LiteralUnique(text: string, s: string, p: seq<string>, q: seq<string>)
    requires Fits(LiteralItems(text), s, p) && Fits(LiteralItems(text), s, q)
    ensures p == q
  {
    if text != "" {
      var items := LiteralItems(text);
      assert items[1..] == LiteralItems(text[1..]);
      assert Accepts(items[0], p[0]) && Accepts(items[0], q[0]) && p[0] == s[..1] && q[0] == s[..1];
      LiteralUnique(text[1..], s[1..], p[1..], q[1..]);
    }
  }

  lemma SegmentUnique(text: string, s: string, p: seq<string>, q: seq<string>)
    requires Fits(Items(Literal(text)), s, p) && Fits(Items(Literal(text)), s, q)
    ensures p == q
  {
    var items := Items(Literal(text));
    assert items[1..] == LiteralItems(text);
    FitsLiteral(text, s[|p[0]|..], p[1..]);
    FitsLiteral(text, s[|q[0]|..], q[1..]);
    assert |p[0]| == |s| - |text| && |q[0]| == |s| - |text|;
    assert p[0] == s[..|p[0]|] && q[0] == s[..|q[0]|];
    LiteralUnique(text, s[|p[0]|..], p[1..], q[1..]);
  }

  lemma {:induction false} PrefersAfter(p: seq<string>, q: seq<string>, m: nat)
    requires m <= |p| && m <= |q| && p[..m] == q[..m] && Prefers(p, q)
    ensures Prefers(p[m..], q[m..])
    decreases m
  {
    if m == 0 {
      assert p[0..] == p && q[0..] == q;
    } else {
      assert p[0] == p[..m][0] && q[0] == q[..m][0];
      assert p[1..][..m - 1] == p[..m][1..] && q[1..][..m - 1] == q[..m][1..];
      PrefersAfter(p[1..], q[1..], m - 1);
      assert p[1..][m - 1..] == p[m..] && q[1..][m - 1..] == q[m..];
    }
  }

  /** Where a fit of the literal ends: after the slash and a word as long as the literal. */
  lemma LiteralEnds(text: string, t: string, s: string, n: nat, p: seq<string>)
    requires text != "" && SlashFree(text) && t != "" && SlashFree(t) && |t| == |text|
    requires n <= |s| && "/" + t <= s && Fits(Items(Literal(text)), s[..n], p)
    ensures n == 1 + |t| && s[..n] == "/" + t
  {
    var a, w := FitsSegment(Literal(text), s[..n], p);
    assert |w| == |text|;
    assert s[..n] == a + w && s[1] == ("/" + t)[1] == t[0];
    assert forall i | 0 <= i < |a| :: a[i] == s[i];
  }

  const After := [Slashes, Many(Dot, 0, Some("splat")), Slashes, Slashes]

  lemma SplatPattern(text: string)
    ensures Pattern([Literal(text), Splat]) == Items(Literal(text)) + After
  {
    assert [Literal(text), Splat][1..] == [Splat] && [Splat][1..] == [];
  }

  lemma FitsAfter(w: string)
    requires '\n' !in w
    ensures Fits(After, "/" + w, ["/", w, "", ""])
  {
    var q := ["/", w, "", ""];
    assert q[1..] == [w, "", ""] && q[1..][1..] == ["", ""] && q[1..][1..][1..] == [""] && [""][1..] == [];
    assert Concat([""]) == "" && Concat(["", ""]) == "" && Concat([w, "", ""]) == w;
    FitsMeaning(After, "/" + w, q);
  }

  lemma FitsHead(item: Item, rest: seq<Item>, s: string, p: seq<string>)
    requires Fits([item] + rest, s, p)
    ensures p != [] && p[0] <= s && Accepts(item, p[0]) && Fits(rest, s[|p[0]|..], p[1..])
  {
    assert ([item] + rest)[1..] == rest;
  }

  lemma FitsLength(re: seq<Item>, s: string, p: seq<string>)
    requires Fits(re, s, p)
    ensures |p| == |re|
  {
    FitsMeaning(re, s, p);
  }

  lemma SlashBefore(w: string, p: seq<string>)
    requires Fits(After, "/" + w, p) && !Rooted(w)
    ensures |p| == 4 && |p[0]| <= 1 && (p[0] == "/" ==> p[1] <= w)
  {
    var s := "/" + w;
    FitsLength(After, s, p);
    assert After == [Slashes] + Rest;
    FitsHead(Slashes, Rest, s, p);
    assert forall i | 0 <= i < |p[0]| :: p[0][i] == s[i] && Admits(Slash, p[0][i]);
    assert w != "" ==> s[1] == w[0] && w[0] != '/';
    if p[0] == "/" {
      assert s[|p[0]|..] == w;
      assert Rest == [Rest[0]] + Rest[1..];
      FitsHead(Rest[0], Rest[1..], w, p[1..]);
    }
  }

  /** Of the ways to fit what follows the literal, none comes before taking all of it into the splat. */
  lemma AllIntoSplat(w: string, p: seq<string>)
    requires Fits(After, "/" + w, p) && !Rooted(w)
    requires p == ["/", w, "", ""] || Prefers(p, ["/", w, "", ""])
    ensures |p| == 4 && p[1] == w
  {
    SlashBefore(w, p);
    assert p[1..][0] == p[1] && ["/", w, "", ""][1..][0] == w;
  }

  lemma FrontCut(text: string, t: string, path: string, p: seq<string>)
    requires text != "" && SlashFree(text) && SameFolded(text, t) && "/" + t <= path
    requires Fits(Items(Literal(text)) + After, path, p)
    ensures
      var m := |Items(Literal(text))|;
      m <= |p| && Fits(Items(Literal(text)), "/" + t, p[..m]) && Fits(After, path[1 + |t|..], p[m..])
  {
    FoldedSlashFree(text, t);
    var n := FitsCut(Items(Literal(text)), After, path, p);
    LiteralEnds(text, t, path, n, p[..|Items(Literal(text))|]);
  }

  lemma TailPreferred(front: seq<string>, p: seq<string>, r: seq<string>)
    requires |front| <= |p| && p[..|front|] == front
    requires p == front + r || Prefers(p, front + r)
    ensures p[|front|..] == r || Prefers(p[|front|..], r)
  {
    var q, m := front + r, |front|;
    assert q[..m] == front && q[m..] == r;
    if p != q {
      PrefersAfter(p, q, m);
    }
  }

  lemma SplatFits(text: string, t: string, w: string) returns (front: seq<string>)
    requires text != "" && SlashFree(text) && SameFolded(text, t) && '\n' !in w
    ensures Fits(Items(Literal(text)), "/" + t, front)
    ensures Fits(Items(Literal(text)) + After, "/" + t + "/" + w, front + ["/", w, "", ""])
  {
    FoldedSlashFree(text, t);
    front := SegmentFits(Literal(text), "/", t);
    FitsAfter(w);
    FitsGlue(Items(Literal(text)), After, "/" + t, "/" + w, front, ["/", w, "", ""]);
    assert "/" + t + ("/" + w) == "/" + t + "/" + w;
  }

  lemma BestTakesAll(text: string, t: string, w: string, path: string, front: seq<string>, p: seq<string>)
    requires text != "" && SlashFree(text) && SameFolded(text, t) && !Rooted(w)
    requires "/" + t <= path && path[1 + |t|..] == "/" + w
    requires Fits(Items(Literal(text)), "/" + t, front) && Fits(Items(Literal(text)) + After, path, p)
    requires p == front + ["/", w, "", ""] || Prefers(p, front + ["/", w, "", ""])
    ensures |p| == |Items(Literal(text))| + 4 && p[|Items(Literal(text))| + 1] == w
  {
    var m := |Items(Literal(text))|;
    FrontCut(text, t, path, p);
    SegmentUnique(text, "/" + t, p[..m], front);
    assert |front| == |p[..m]| == m;
    TailPreferred(front, p, ["/", w, "", ""]);
    AllIntoSplat(w, p[m..]);
  }

  /** A literal segment then a splat: the splat captures exactly what follows the segment and its slash. */
  lemma SplatCaptures(text: string, t: string, w: string)
    requires text != "" && SlashFree(text) && SameFolded(text, t) && '\n' !in w && !Rooted(w)
    ensures
      var re, path := Pattern([Literal(text), Splat]), "/" + t + "/" + w;
      Match(re, path).Some? && Captures(re, Match(re, path).value) == [("splat", w)]
  {
    var re, path := Items(Literal(text)) + After, "/" + t + "/" + w;
    SplatPattern(text);
    var front := SplatFits(text, t, w);
    MatchBest(re, path, front + ["/", w, "", ""]);
    MatchSound(re, path);
    assert path[..1 + |t|] == "/" + t && path[1 + |t|..] == "/" + w;
    var p := Match(re, path).value;
    BestTakesAll(text, t, w, path, front, p);
    CapturesOfSplat(text, p, w);
  }

  lemma CapturesOfSplat(text: string, p: seq<string>, w: string)
    requires |p| == |Items(Literal(text))| + 4 && p[|Items(Literal(text))| + 1] == w
    ensures Captures(Items(Literal(text)) + After, p) == [("splat", w)]
  {
    var items := Items(Literal(text));
    CapturesCut(items, After, p);
    CapturesCount(items, p[..|items|]);
    NoGroups(text);
    var x := p[|items|..];
    assert x[1..][0] == w && x[1..][1..] == x[2..] && x[2..][1..] == x[3..] && x[3..][1..] == [];
    assert After[1..][1..] == [Slashes, Slashes] && After[1..][0] == After[1];
    assert [Slashes, Slashes][1..] == [Slashes] && [Slashes][1..] == [];
    assert Captures([Slashes], x[3..]) == [];
    assert Captures([Slashes, Slashes], x[2..]) == [];
  }

  lemma NoGroups(text: string)
    ensures Groups(Items(Literal(text))) == 0
  {
    GroupsOne(Many(Slash, 1, None));
    GroupsConcat([Many(Slash, 1, None)], LiteralItems(text));
    NoLiteralGroups(text);
  }

  lemma {:induction false} NoLiteralGroups(text: string)
    ensures Groups(LiteralItems(text)) == 0
  {
    if text != "" {
      NoLiteralGroups(text[1..]);
      GroupsOne(One(Letter(text[0])));
      GroupsConcat([One(Letter(text[0]))], LiteralItems(text[1..]));
    }
  }

  // ----- what targets become -----

  predicate Letters(name: string) { forall i | 0 <= i < |name| :: 'a' <= name[i] <= 'z' || 'A' <= name[i] <= 'Z' }

  lemma {:induction false} LetterRunOf(name: string, rest: string)
    requires Letters(name) && (rest == "" || !IsLetter(rest[0]))
    ensures LetterRun(name + rest) == |name|
  {
    if name == "" {
      assert name + rest == rest;
    } else {
      assert (name + rest)[1..] == name[1..] + rest;
      LetterRunOf(name[1..], rest);
    }
  }

  lemma SubstituteName(name: string, rest: string, captures: seq<(string, string)>)
    requires name != "" && Letters(name) && (rest == "" || !IsLetter(rest[0]))
    ensures Substitute(":" + (name + rest), captures) == Lookup(captures, name) + Substitute(rest, captures)
  {
    var to := ":" + (name + rest);
    assert to[1..] == name + rest && to[1] == name[0];
    LetterRunOf(name, rest);
    assert (name + rest)[..|name|] == name && (name + rest)[|name|..] == rest;
  }

  lemma SubstituteCons(c: char, to: string, captures: seq<(string, string)>)
    requires c != ':'
    ensures Substitute([c] + to, captures) == [c] + Substitute(to, captures)
  {
    assert ([c] + to)[0] == c && ([c] + to)[1..] == to;
  }

  lemma {:induction false} SubstituteFront(front: string, to: string, captures: seq<(string, string)>)
    requires ':' !in front
    ensures Substitute(front + to, captures) == front + Substitute(to, captures)
    decreases |front|
  {
    if front == "" {
      assert front + to == to;
    } else {
      var c, rest := front[0], front[1..];
      assert c in front && front == [c] + rest && front + to == [c] + (rest + to);
      SubstituteFront(rest, to, captures);
      SubstituteCons(c, rest + to, captures);
      assert [c] + (rest + Substitute(to, captures)) == front + Substitute(to, captures);
    }
  }

  /** In a target, a colon and a name of letters stands for what that name captured; all else for itself. */
  lemma SubstituteAt(front: string, name: string, rest: string, captures: seq<(string, string)>)
    requires ':' !in front && name != "" && Letters(name)
    requires rest == "" || !('a' <= rest[0] <= 'z' || 'A' <= rest[0] <= 'Z')
    ensures Substitute(front + (":" + (name + rest)), captures) ==
            front + (Lookup(captures, name) + Substitute(rest, captures))
  {
    SubstituteFront(front, ":" + (name + rest), captures);
    SubstituteName(name, rest, captures);
  }

  lemma {:induction false} SubstitutePlain(to: string, captures: seq<(string, string)>)
    requires ':' !in to
    ensures Substitute(to, captures) == to
  {
    if to != "" {
      assert to[0] in to;
      SubstitutePlain(to[1..], captures);
    }
  }

  /** Collapsing leaves a path without double slashes alone. */
  lemma {:induction false} CollapseNothing(s: string)
    requires NoDoubleSlash(s)
    ensures Collapse(s) == s
  {
    if s != "" {
      forall i | 0 <= i < |s[1..]| - 1 && s[1..][i] == '/' ensures s[1..][i + 1] != '/' { assert s[i + 1] == '/'; }
      CollapseNothing(s[1..]);
      if s[0] == '/' {
        assert |s| > 1 ==> s[1] != '/';
        RunOfSlashes("/", s[1..]);
        assert "/" + s[1..] == s;
      }
    }
  }

  /** A slash at the end stays, and none is put there. */
  lemma {:induction false} CollapseEnd(s: string)
    ensures (Collapse(s) == "" <==> s == "")
    ensures s != "" ==> (Collapse(s)[|Collapse(s)| - 1] == '/' <==> s[|s| - 1] == '/')
    decreases |s|
  {
    if s != "" {
      var n := if s[0] == '/' then Run(Slash, s) else 1;
      CollapseEnd(s[n..]);
      assert n == |s| ==> s[..n] == s;
      if s[0] == '/' {
        assert Admits(Slash, s[..n][n - 1]);
      }
    }
  }

  lemma SegmentsOfTwo(a: string, b: string)
    requires a != "" && SlashFree(a) && b != "" && SlashFree(b)
    ensures Segments("/" + a + "/" + b) == [a, b]
  {
    SegmentsParts("/", b, "");
    NoSegments("");
    assert "/" + b + "" == "/" + b;
    SegmentsParts("/", a, "/" + b);
    assert "/" + a + ("/" + b) == "/" + a + "/" + b;
  }

  /** A segment that is neither a star nor a colon followed by letters only stands for itself. */
  lemma KindOfExactly(segment: string)
    ensures KindOf(segment) ==
            if segment == "*" then Splat
            else if |segment| > 1 && segment[0] == ':' && Letters(segment[1..]) then Placeholder(segment[1..])
            else Literal(segment)
  {
    if |segment| > 1 {
      assert forall i | 1 <= i < |segment| :: segment[i] == segment[1..][i - 1];
    }
  }

  lemma KindsOfTwo(a: string, b: string)
    ensures KindsOf([a, b]) == [KindOf(a), KindOf(b)]
  {
    assert [a, b][1..] == [b] && [b][1..] == [];
  }

  lemma SplatKinds(text: string)
    requires text != "" && SlashFree(text) && text != "*" && text[0] != ':'
    ensures Kinds("/" + text + "/*") == [Literal(text), Splat]
  {
    SegmentsOfTwo(text, "*");
    assert "/" + text + "/" + "*" == "/" + text + "/*";
    KindOfExactly(text);
    KindOfExactly("*");
    KindsOfTwo(text, "*");
  }

  lemma TargetText(b: string, name: string)
    ensures "/" + b + "/:" + name == ("/" + b + "/") + (":" + (name + ""))
  {
  }

  lemma TargetOf(b: string, name: string, captures: seq<(string, string)>, path: string)
    requires ':' !in b && '$' !in b && name != "" && Letters(name)
    ensures Expand(Template("/" + b + "/:" + name), captures, path) == "/" + b + "/" + Lookup(captures, name)
  {
    var front, to := "/" + b + "/", "/" + b + "/:" + name;
    TargetText(b, name);
    SubstituteAt(front, name, "", captures);
    ExpandSubstitutes(to, captures, path);
    assert Lookup(captures, name) + "" == Lookup(captures, name);
  }

  /** Everything below one directory moved below another: old, slash, star to new, slash, :splat. */
  lemma SplatRewrite(text: string, b: string, t: string, w: string)
    requires text != "" && SlashFree(text) && text != "*" && text[0] != ':' && SameFolded(text, t)
    requires ':' !in b && '$' !in b && '\n' !in w && !Rooted(w) && NoDoubleSlash("/" + b + "/" + w)
    ensures
      var from, to, path := "/" + text + "/*", "/" + b + "/:splat", "/" + t + "/" + w;
      Match(Pattern(Kinds(from)), path).Some? && Rewritten(from, to, path) == "/" + b + "/" + w
  {
    SplatKinds(text);
    SplatCaptures(text, t, w);
    LookupByIndex([("splat", w)], "splat", 0);
    TargetOf(b, "splat", [("splat", w)], "/" + t + "/" + w);
    assert "/" + b + "/:" + "splat" == "/" + b + "/:splat";
    CollapseNothing("/" + b + "/" + w);
  }

  /** One segment carried over: "/old/:name" to "/new/:name". */
  lemma PlaceholderRewrite(text: string, name: string, b: string, t: string, v: string)
    requires text != "" && SlashFree(text) && text != "*" && text[0] != ':' && SameFolded(text, t)
    requires name != "" && Letters(name) && v != "" && SlashFree(v)
    requires ':' !in b && '$' !in b && NoDoubleSlash("/" + b + "/" + v)
    ensures
      var from, to, path := "/" + text + "/:" + name, "/" + b + "/:" + name, "/" + t + "/" + v;
      Match(Pattern(Kinds(from)), path).Some? && Rewritten(from, to, path) == "/" + b + "/" + v
  {
    var from, path := "/" + text + "/:" + name, "/" + t + "/" + v;
    PlaceholderKinds(text, name);
    FoldedSlashFree(text, t);
    SegmentsOfTwo(t, v);
    SplatFreeExactly(from, path);
    MatchExactly(Pattern(Kinds(from)), path);
    BindingsOfTwo(text, name, t, v);
    LookupByIndex([(name, v)], name, 0);
    TargetOf(b, name, [(name, v)], path);
    CollapseNothing("/" + b + "/" + v);
  }

  lemma PlaceholderKinds(text: string, name: string)
    requires text != "" && SlashFree(text) && text != "*" && text[0] != ':' && name != "" && Letters(name)
    ensures Kinds("/" + text + "/:" + name) == [Literal(text), Placeholder(name)]
  {
    var segment := ":" + name;
    assert segment[1..] == name;
    SegmentsOfTwo(text, segment);
    assert "/" + text + "/" + segment == "/" + text + "/:" + name;
    KindOfExactly(text);
    KindOfExactly(segment);
    KindsOfTwo(text, segment);
  }

  lemma BindingsOfTwo(text: string, name: string, t: string, v: string)
    ensures Bindings([Literal(text), Placeholder(name)], [t, v]) == [(name, v)]
  {
    assert [Literal(text), Placeholder(name)][1..] == [Placeholder(name)] && [t, v][1..] == [v];
    assert [Placeholder(name)][1..] == [] && [v][1..] == [];
    assert Bindings([Placeholder(name)], [v]) == [(name, v)] + Bindings([], []);
  }

  // ----- what the predicates of rules mean -----

  /** Letters agree whatever their case, and other characters only with themselves. */
  lemma SameFoldedExactly(a: string, b: string)
    ensures SameFolded(a, b) <==> |a| == |b| && forall i | 0 <= i < |a| ::
              || a[i] == b[i]
              || ('a' <= a[i] <= 'z' && b[i] as int == a[i] as int - 32)
              || ('A' <= a[i] <= 'Z' && b[i] as int == a[i] as int + 32)
  {
  }

  /** The shortcut compares paths up to one slash at the end. */
  lemma ExactMatchExactly(a: string, b: string)
    ensures NormalizePath(a) == NormalizePath(b) <==>
            || a == b
            || (a == b + "/" && (b == "" || b[|b| - 1] != '/'))
            || (b == a + "/" && (a == "" || a[|a| - 1] != '/'))
  {
    var x, y := NormalizePath(a), NormalizePath(b);
    assert x == (if a != "" && a[|a| - 1] == '/' then a else a + "/");
    assert y == (if b != "" && b[|b| - 1] == '/' then b else b + "/");
    if x == y {
      assert x[..|x| - 1] == y[..|y| - 1];
    }
  }

  /** A target has something to fill in iff there is a star in it, or a colon with a letter after it. */
  lemma {:induction false} HasTemplateExactly(to: string)
    ensures HasTemplate(to) <==> exists i | 0 <= i < |to| :: TemplateAt(to, i)
  {
    if to != "" {
      var tail := to[1..];
      HasTemplateExactly(tail);
      forall i | 0 <= i < |tail| ensures TemplateAt(tail, i) <==> TemplateAt(to, i + 1) {
        assert i + 1 < |tail| ==> tail[i + 1] == to[i + 2];
      }
      if HasTemplate(tail) {
        var i :| 0 <= i < |tail| && TemplateAt(tail, i);
        assert TemplateAt(to, i + 1);
      }
      if i :| 0 <= i < |to| && TemplateAt(to, i) {
        assert i > 0 ==> TemplateAt(tail, i - 1);
      }
      assert TemplateAt(to, 0) <==> to[0] == '*' || StartsPlaceholder(to);
    }
  }

  predicate TemplateAt(to: string, i: nat) {
    && i < |to|
    && (to[i] == '*' ||
        (to[i] == ':' && i + 1 < |to| && ('a' <= to[i + 1] <= 'z' || 'A' <= to[i + 1] <= 'Z')))
  }

  lemma {:induction false} SlashesSplit(s: string)
    ensures |Split(s)| == CountSlashes(s) + 1
  {
    if s != "" {
      SlashesSplit(s[1..]);
    }
  }

  /** What a rule must be: two local URLs of at most 25 slashes, one of three statuses, nothing unsupported. */
  lemma ValidRuleExactly(parse: UrlParser, r: Rule)
    ensures ValidRule(parse, r, true) <==>
            && parse(r.from).Some? && parse(r.from).value.host == "" && parse(r.from).value.scheme == ""
            && "/" <= parse(r.from).value.path && |Split(parse(r.from).value.path)| <= 26
            && parse(r.to).Some? && parse(r.to).value.host == "" && parse(r.to).value.scheme == ""
            && "/" <= parse(r.to).value.path && |Split(parse(r.to).value.path)| <= 26
            && !r.hasParams && !r.force && (r.status == 200 || r.status == 301 || r.status == 302)
  {
    if parse(r.from).Some? {
      SlashesSplit(parse(r.from).value.path);
    }
    if parse(r.to).Some? {
      SlashesSplit(parse(r.to).value.path);
    }
  }

  /** With placeholders disabled no star is allowed, nor a slash, a colon and a letter in a row. */
  lemma {:induction false} PlaceholderSegmentExactly(s: string)
    ensures HasPlaceholderSegment(s) <==> exists i | 0 <= i < |s| - 2 :: SegmentAt(s, i)
  {
    if s != "" {
      var tail := s[1..];
      PlaceholderSegmentExactly(tail);
      forall i | 0 <= i < |tail| - 2 ensures SegmentAt(tail, i) <==> SegmentAt(s, i + 1) {
        assert tail[i] == s[i + 1] && tail[i + 1] == s[i + 2] && tail[i + 2] == s[i + 3];
      }
      if HasPlaceholderSegment(tail) {
        var i :| 0 <= i < |tail| - 2 && SegmentAt(tail, i);
        assert SegmentAt(s, i + 1);
      }
      if i :| 0 <= i < |s| - 2 && SegmentAt(s, i) {
        assert i > 0 ==> SegmentAt(tail, i - 1);
      }
      assert |s| > 2 ==> (SegmentAt(s, 0) <==> s[0] == '/' && StartsPlaceholder(tail));
    }
  }

  predicate SegmentAt(s: string, i: nat)
    requires i + 2 < |s|
  {
    s[i] == '/' && s[i + 1] == ':' && ('a' <= s[i + 2] <= 'z' || 'A' <= s[i + 2] <= 'Z')
  }
}
