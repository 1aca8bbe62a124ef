/** Patterns read segment by segment, without any regular expression. */
module RedirectSegments {
  import opened Basics
  import opened Paths
  import opened Regex
  import opened RedirectPatterns

  predicate SameFolded(a: string, b: string) {
    |a| == |b| && forall i | 0 <= i < |a| :: Fold(a[i]) == Fold(b[i])
  }

  predicate AllSlashes(a: string) { forall i | 0 <= i < |a| :: a[i] == '/' }

  /** A pattern segment agrees with a path segment. */
  predicate Agrees(k: Kind, w: string) {
    match k
    case Splat => '\n' !in w
    case Placeholder(_) => true
    case Literal(text) => SameFolded(text, w)
  }

  predicate AllAgree(kinds: seq<Kind>, words: seq<string>) {
    |kinds| == |words| && forall i | 0 <= i < |kinds| :: Agrees(kinds[i], words[i])
  }

  /** The names bound by the placeholders, in order. */
  function Bindings(kinds: seq<Kind>, words: seq<string>): seq<(string, string)>
    requires |kinds| == |words|
  {
    if kinds == [] then []
    else if kinds[0].Placeholder? then [(kinds[0].name, words[0])] + Bindings(kinds[1..], words[1..])
    else Bindings(kinds[1..], words[1..])
  }

  ghost predicate Proper(kinds: seq<Kind>) {
    forall i | 0 <= i < |kinds| && kinds[i].Literal? :: kinds[i].text != "" && SlashFree(kinds[i].text)
  }

  // ----- segments -----

  lemma {:induction false} NonEmptySegments(parts: seq<string>)
    requires forall i | 0 <= i < |parts| :: SlashFree(parts[i])
    ensures forall i | 0 <= i < |NonEmpty(parts)| :: NonEmpty(parts)[i] != "" && SlashFree(NonEmpty(parts)[i])
  {
    if parts != [] {
      NonEmptySegments(parts[1..]);
    }
  }

  lemma KindsProper(from: string)
    ensures Proper(Kinds(from))
  {
    SplitSlashFree(from);
    NonEmptySegments(Split(from));
  }

  lemma {:induction false} SegmentsAfterSlashes(a: string, t: string)
    requires AllSlashes(a)
    ensures Segments(a + t) == Segments(t)
  {
    if a == "" {
      assert a + t == t;
    } else {
      assert (a + t)[0] == '/' && (a + t)[1..] == a[1..] + t;
      var rest := Split(a[1..] + t);
      assert ([""] + rest)[1..] == rest;
      SegmentsAfterSlashes(a[1..], t);
    }
  }

  lemma SegmentsHead(w: string, t: string)
    requires w != "" && SlashFree(w) && (t == "" || Rooted(t))
    ensures Segments(w + t) == [w] + Segments(t)
  {
    SplitWord(w);
    if t == "" {
      assert w + t == w;
      assert Split(t) == [""] && NonEmpty([""]) == [];
    } else {
      assert w + t == w + "/" + t[1..];
      SplitCut(w, t[1..]);
      var rest := Split(t[1..]);
      assert ([w] + rest)[1..] == rest && ([""] + rest)[1..] == rest;
    }
  }

  lemma SegmentsParts(a: string, w: string, t: string)
    requires AllSlashes(a) && w != "" && SlashFree(w) && (t == "" || Rooted(t))
    ensures Segments(a + w + t) == [w] + Segments(t)
  {
    assert a + w + t == a + (w + t);
    SegmentsAfterSlashes(a, w + t);
    SegmentsHead(w, t);
  }

  lemma NoSegments(a: string)
    requires AllSlashes(a)
    ensures Segments(a) == []
  {
    assert a + "" == a;
    SegmentsAfterSlashes(a, "");
    assert Split("") == [""] && NonEmpty([""]) == [];
  }

  /** Cut a path after its leading slashes and its first segment. */
  lemma CutFirst(s: string) returns (a: string, w: string, t: string)
    ensures s == a + w + t && AllSlashes(a) && SlashFree(w) && (t == "" || Rooted(t))
    ensures w == "" ==> t == "" && s == a
    ensures Rooted(s) ==> a != ""
  {
    var s';
    a, s' := CutSlashes(s);
    w, t := CutWord(s');
    assert a + (w + t) == a + w + t;
  }

  lemma CutSlashes(s: string) returns (a: string, x: string)
    ensures s == a + x && AllSlashes(a) && !Rooted(x)
    ensures Rooted(s) ==> a != ""
  {
    var n := Run(Slash, s);
    a, x := s[..n], s[n..];
    assert AllAdmitted(Slash, a);
    assert x != "" ==> x[0] == s[n] && !Admits(Slash, s[n]);
  }

  lemma CutWord(s: string) returns (w: string, t: string)
    ensures s == w + t && SlashFree(w) && (t == "" || Rooted(t))
    ensures w == "" <==> s == "" || Rooted(s)
  {
    var m := Run(NotSlash, s);
    w, t := s[..m], s[m..];
    assert AllAdmitted(NotSlash, w);
    assert t != "" ==> t[0] == s[m] && !Admits(NotSlash, s[m]);
    assert w != "" ==> w[0] == s[0];
  }

  /** A path in its parts: leading slashes, the first segment, and the rest. */
  lemma FirstSegment(s: string) returns (a: string, w: string, t: string)
    ensures s == a + w + t && AllSlashes(a) && SlashFree(w) && (t == "" || Rooted(t))
    ensures w == "" ==> t == ""
    ensures Rooted(s) ==> a != ""
    ensures Segments(s) == if w == "" then [] else [w] + Segments(t)
  {
    a, w, t := CutFirst(s);
    if w == "" {
      NoSegments(a);
    } else {
      SegmentsParts(a, w, t);
    }
  }

  lemma AgreeCons(kinds: seq<Kind>, words: seq<string>)
    requires kinds != [] && words != []
    ensures AllAgree(kinds, words) <==> Agrees(kinds[0], words[0]) && AllAgree(kinds[1..], words[1..])
  {
    if AllAgree(kinds, words) {
      forall i | 0 <= i < |kinds[1..]| ensures Agrees(kinds[1..][i], words[1..][i]) {
        assert Agrees(kinds[i + 1], words[i + 1]);
      }
    }
    if Agrees(kinds[0], words[0]) && AllAgree(kinds[1..], words[1..]) {
      forall i | 0 <= i < |kinds| ensures Agrees(kinds[i], words[i]) {
        if i > 0 { assert Agrees(kinds[1..][i - 1], words[1..][i - 1]); }
      }
    }
  }

  // ----- from a fit to agreement -----

  lemma FoldedCons(a: string, b: string)
    requires a != "" && b != ""
    ensures SameFolded(a, b) <==> Fold(a[0]) == Fold(b[0]) && SameFolded(a[1..], b[1..])
  {
    if SameFolded(a, b) {
      forall i | 0 <= i < |a[1..]| ensures Fold(a[1..][i]) == Fold(b[1..][i]) {
        assert Fold(a[i + 1]) == Fold(b[i + 1]);
      }
    }
    if Fold(a[0]) == Fold(b[0]) && SameFolded(a[1..], b[1..]) {
      forall i | 0 <= i < |a| ensures Fold(a[i]) == Fold(b[i]) {
        if i > 0 { assert Fold(a[1..][i - 1]) == Fold(b[1..][i - 1]); }
      }
    }
  }

  lemma {:induction false} FitsLiteral(text: string, s: string, q: seq<string>)
    requires Fits(LiteralItems(text), s, q)
    ensures SameFolded(text, s) && Captures(LiteralItems(text), q) == []
  {
    if text != "" {
      assert LiteralItems(text)[1..] == LiteralItems(text[1..]);
      assert Accepts(One(Letter(text[0])), q[0]) && q[0][0] == s[0];
      FitsLiteral(text[1..], s[1..], q[1..]);
      FoldedCons(text, s);
    }
  }

  lemma FoldedSlashFree(a: string, b: string)
    requires SameFolded(a, b) && SlashFree(a)
    ensures SlashFree(b)
  {
    forall i | 0 <= i < |b| ensures b[i] != '/' { assert Fold(a[i]) == Fold(b[i]); }
  }

  /** A fit of one segment: some slashes, and a word that agrees. */
  lemma FitsSegment(k: Kind, s: string, q: seq<string>) returns (a: string, w: string)
    requires !k.Splat? && (k.Literal? ==> k.text != "" && SlashFree(k.text))
    requires Fits(Items(k), s, q)
    ensures s == a + w && a != "" && AllSlashes(a) && w != "" && SlashFree(w) && Agrees(k, w)
    ensures Captures(Items(k), q) == if k.Placeholder? then [(k.name, w)] else []
  {
    a := q[0];
    w := s[|a|..];
    assert s == a + w;
    match k
    case Placeholder(name) =>
      var item := Many(NotSlash, 1, Some(name));
      assert Items(k)[1..] == [item] && [item][1..] == [];
      var q1 := q[1..];
      assert Fits([item], w, q1) && Fits([], w[|q1[0]|..], q1[1..]);
      assert q1[0] == w;
      assert Captures([item], q1) == [(name, w)] + Captures([], q1[1..]);
    case Literal(text) =>
      assert Items(k)[1..] == LiteralItems(text);
      FitsLiteral(text, w, q[1..]);
      FoldedSlashFree(text, w);
  }

  lemma FitsFirst(kinds: seq<Kind>, s: string, q: seq<string>)
    returns (a: string, w: string, t: string, q': seq<string>)
    requires Proper(kinds) && Splat !in kinds && kinds != []
    requires Fits(Pattern(kinds), s, q)
    ensures s == a + w + t && a != "" && AllSlashes(a) && w != "" && SlashFree(w) && Agrees(kinds[0], w)
    ensures Fits(Pattern(kinds[1..]), t, q')
    ensures Captures(Pattern(kinds), q) ==
            (if kinds[0].Placeholder? then [(kinds[0].name, w)] else []) + Captures(Pattern(kinds[1..]), q')
    ensures Rooted(s)
  {
    var items, rest := Items(kinds[0]), Pattern(kinds[1..]);
    var n := FitsCut(items, rest, s, q);
    t, q' := s[n..], q[|items|..];
    a, w := FitsSegment(kinds[0], s[..n], q[..|items|]);
    CapturesCut(items, rest, q);
    assert s == s[..n] + t && s[0] == a[0];
  }

  lemma {:induction false} FitAgrees(kinds: seq<Kind>, s: string, q: seq<string>)
    requires Proper(kinds) && Splat !in kinds
    requires Fits(Pattern(kinds), s, q)
    ensures AllAgree(kinds, Segments(s))
    ensures s == "" || Rooted(s)
    ensures kinds != [] ==> Rooted(s)
    ensures Captures(Pattern(kinds), q) == Bindings(kinds, Segments(s))
  {
    if kinds == [] {
      FitsSlashes(s, q);
    } else {
      var a, w, t, q' := FitsFirst(kinds, s, q);
      FitAgrees(kinds[1..], t, q');
      SegmentsParts(a, w, t);
      assert Segments(s)[0] == w && Segments(s)[1..] == Segments(t);
      AgreeCons(kinds, Segments(s));
    }
  }

  lemma FitsSlashes(s: string, q: seq<string>)
    requires Fits([Slashes], s, q)
    ensures AllSlashes(s) && Segments(s) == [] && Captures([Slashes], q) == []
  {
    assert [Slashes][1..] == [];
    assert s == q[0];
    NoSegments(s);
  }

  // ----- from agreement to a fit -----

  lemma {:induction false} LiteralFits(text: string, w: string) returns (p: seq<string>)
    requires SameFolded(text, w)
    ensures Fits(LiteralItems(text), w, p)
  {
    if text == "" {
      p := [];
    } else {
      FoldedCons(text, w);
      var rest := LiteralFits(text[1..], w[1..]);
      p := [w[..1]] + rest;
      assert p[1..] == rest && LiteralItems(text)[1..] == LiteralItems(text[1..]);
      assert w[|w[..1]|..] == w[1..];
    }
  }

  lemma SegmentFits(k: Kind, a: string, w: string) returns (p: seq<string>)
    requires AllSlashes(a) && a != "" && w != "" && SlashFree(w) && Agrees(k, w)
    ensures Fits(Items(k), a + w, p)
  {
    assert (a + w)[|a|..] == w;
    match k
    case Splat =>
      p := [a, w, ""];
      var items := Items(k);
      assert p[1..] == [w, ""] && p[1..][1..] == [""] && [""][1..] == [];
      assert items[1..][1..] == [Slashes] && items[1..][0] == items[1] && [Slashes][1..] == [];
      assert w[|w|..] == "" && w[..|w|] == w;
      assert Fits([Slashes], "", [""]);
    case Placeholder(name) =>
      p := [a, w];
      var item := Many(NotSlash, 1, Some(name));
      assert p[1..] == [w] && [w][1..] == [] && w[|w|..] == "";
      assert Items(k)[1..] == [item] && [item][1..] == [];
      assert Fits([item], w, [w]);
    case Literal(text) =>
      var rest := LiteralFits(text, w);
      p := [a] + rest;
      assert p[1..] == rest && Items(k)[1..] == LiteralItems(text);
  }

  lemma {:induction false} AgreementFits(kinds: seq<Kind>, s: string) returns (q: seq<string>)
    requires AllAgree(kinds, Segments(s)) && (kinds != [] ==> Rooted(s))
    ensures Fits(Pattern(kinds), s, q)
    decreases |kinds|
  {
    var a, w, t := FirstSegment(s);
    if kinds == [] {
      q := [s];
      assert s == a;
      assert [Slashes][1..] == [] && q[1..] == [] && s[|s|..] == "";
    } else {
      var words := Segments(s);
      assert words[1..] == Segments(t);
      AgreeCons(kinds, words);
      if t == "" {
        NoSegments(t);
      }
      var p := SegmentFits(kinds[0], a, w);
      var p' := AgreementFits(kinds[1..], t);
      FitsGlue(Items(kinds[0]), Pattern(kinds[1..]), a + w, t, p, p');
      q := p + p';
    }
  }

  /**
   Without splats the compiled expression matches exactly when the segments of pattern and path
   agree one by one (and the path has its leading slash); every way to match binds the
   placeholders to the same segments.
   */
  lemma SplatFreeExactly(from: string, path: string)
    requires Splat !in Kinds(from)
    ensures
      var kinds, re := Kinds(from), Pattern(Kinds(from));
      && (Match(re, path).Some? <==> AllAgree(kinds, Segments(path)) && (kinds == [] || Rooted(path)))
      && forall q | Fits(re, path, q) ::
           |kinds| == |Segments(path)| && Captures(re, q) == Bindings(kinds, Segments(path))
  {
    var kinds, re := Kinds(from), Pattern(Kinds(from));
    KindsProper(from);
    MatchExactly(re, path);
    if AllAgree(kinds, Segments(path)) && (kinds == [] || Rooted(path)) {
      var q := AgreementFits(kinds, path);
    }
    forall q | Fits(re, path, q)
      ensures AllAgree(kinds, Segments(path)) && (kinds == [] || Rooted(path))
      ensures Captures(re, q) == Bindings(kinds, Segments(path))
    {
      FitAgrees(kinds, path, q);
    }
  }

  // ----- a final splat -----

  const Rest := [Many(Dot, 0, Some("splat")), Slashes, Slashes]

  lemma {:induction false} PatternSnoc(kinds: seq<Kind>)
    ensures Pattern(kinds + [Splat]) == Pattern(kinds) + Rest
  {
    if kinds == [] {
      assert kinds + [Splat] == [Splat] && [Splat][1..] == [];
    } else {
      assert (kinds + [Splat])[1..] == kinds[1..] + [Splat];
      PatternSnoc(kinds[1..]);
    }
  }

  lemma FitsRest(w: string) returns (q: seq<string>)
    requires '\n' !in w
    ensures Fits(Rest, w, q)
  {
    q := [w, "", ""];
    assert q[1..] == ["", ""] && q[1..][1..] == [""] && [""][1..] == [];
    assert Concat([""]) == "" && Concat(["", ""]) == "";
    FitsMeaning(Rest, w, q);
  }

  lemma {:induction false} NoNewline(re: seq<Item>, w: string, q: seq<string>)
    requires Fits(re, w, q) && forall i | 0 <= i < |re| :: !Admits(re[i].cls, '\n')
    ensures '\n' !in w
    decreases |re|
  {
    if re != [] {
      NoNewline(re[1..], w[|q[0]|..], q[1..]);
      assert w == q[0] + w[|q[0]|..];
      assert !Admits(re[0].cls, '\n') && AllAdmitted(re[0].cls, q[0]);
    }
  }

  lemma RestHasNoNewline(w: string, q: seq<string>)
    requires Fits(Rest, w, q)
    ensures '\n' !in w
  {
    NoNewline(Rest, w, q);
  }

  lemma ProperFront(kinds: seq<Kind>, k: Kind)
    requires Proper(kinds + [k])
    ensures Proper(kinds)
  {
    forall i | 0 <= i < |kinds| && kinds[i].Literal? ensures kinds[i].text != "" && SlashFree(kinds[i].text) {
      assert kinds[i] == (kinds + [k])[i];
    }
  }

  /** The first `cut` characters of the path agree with the segments before the splat. */
  predicate SplatFrom(kinds: seq<Kind>, path: string, cut: nat) {
    && cut <= |path| && '\n' !in path[cut..]
    && AllAgree(kinds, Segments(path[..cut])) && (kinds == [] || Rooted(path))
  }

  /**
   A pattern ending in its only splat matches exactly when some front part of the path agrees with
   the segments before the splat, wherever that part ends: no slash need follow.
   */
  lemma FinalSplatExactly(from: string, kinds: seq<Kind>, path: string)
    requires Kinds(from) == kinds + [Splat] && Splat !in kinds
    ensures Match(Pattern(Kinds(from)), path).Some? <==> exists cut :: SplatFrom(kinds, path, cut)
  {
    PatternSnoc(kinds);
    KindsProper(from);
    ProperFront(kinds, Splat);
    SplatCuts(kinds, path);
  }

  lemma SplatCuts(kinds: seq<Kind>, path: string)
    requires Proper(kinds) && Splat !in kinds
    ensures Match(Pattern(kinds) + Rest, path).Some? <==> exists cut :: SplatFrom(kinds, path, cut)
  {
    var re := Pattern(kinds) + Rest;
    MatchExactly(re, path);
    forall q | Fits(re, path, q) ensures exists cut :: SplatFrom(kinds, path, cut) {
      var cut := FitsCut(Pattern(kinds), Rest, path, q);
      FitAgrees(kinds, path[..cut], q[..|Pattern(kinds)|]);
      RestHasNoNewline(path[cut..], q[|Pattern(kinds)|..]);
      assert SplatFrom(kinds, path, cut);
    }
    forall cut | SplatFrom(kinds, path, cut) ensures CanFit(re, path) {
      CutFits(kinds, path, cut);
    }
  }

  lemma FrontRooted(kinds: seq<Kind>, path: string, cut: nat)
    requires SplatFrom(kinds, path, cut) && kinds != []
    ensures Rooted(path[..cut])
  {
    NoSegments("");
    assert path[..cut] != "";
  }

  lemma FitsTogether(re: seq<Item>, re': seq<Item>, s: string, s': string, p: seq<string>, p': seq<string>)
    requires Fits(re, s, p) && Fits(re', s', p')
    ensures CanFit(re + re', s + s')
  {
    FitsGlue(re, re', s, s', p, p');
  }

  lemma CutFits(kinds: seq<Kind>, path: string, cut: nat)
    requires SplatFrom(kinds, path, cut)
    ensures CanFit(Pattern(kinds) + Rest, path)
  {
    if kinds != [] {
      FrontRooted(kinds, path, cut);
    }
    var p := AgreementFits(kinds, path[..cut]);
    var p' := FitsRest(path[cut..]);
    FitsTogether(Pattern(kinds), Rest, path[..cut], path[cut..], p, p');
    assert path[..cut] + path[cut..] == path;
  }

  /** Segment foo then a splat also matches "/foobar". */
  lemma SplatNeedsNoSlash(text: string, w: string)
    requires text != "" && SlashFree(text) && '\n' !in w
    ensures Match(Pattern([Literal(text), Splat]), "/" + text + w).Some?
  {
    var kinds, path := [Literal(text)], "/" + text + w;
    assert [Literal(text), Splat] == kinds + [Splat];
    PatternSnoc(kinds);
    SegmentsParts("/", text, "");
    assert path[..|text| + 1] == "/" + text + "" && path[|text| + 1..] == w;
    NoSegments("");
    assert Segments(path[..|text| + 1]) == [text];
    assert SplatFrom(kinds, path, |text| + 1);
    SplatCuts(kinds, path);
  }
}
