/** "From" patterns of redirect rules: what they compile to and which paths they match. */
module RedirectPatterns {
  import opened Basics
  import opened Paths
  import opened Regex

  predicate IsLetter(c: char) { 'a' <= c <= 'z' || 'A' <= c <= 'Z' }

  datatype Kind = Splat | Placeholder(name: string) | Literal(text: string)

  predicate IsPlaceholder(segment: string) {
    |segment| > 1 && segment[0] == ':' && forall i | 1 <= i < |segment| :: IsLetter(segment[i])
  }

  function KindOf(segment: string): Kind {
    if segment == "*" then Splat
    else if IsPlaceholder(segment) then Placeholder(segment[1..])
    else Literal(segment)
  }

  function NonEmpty(parts: seq<string>): seq<string> {
    if parts == [] then []
    else if parts[0] == "" then NonEmpty(parts[1..])
    else [parts[0]] + NonEmpty(parts[1..])
  }

  /** The non-empty pieces of a path between slashes. */
  function Segments(p: string): seq<string> { NonEmpty(Split(p)) }

  function KindsOf(segments: seq<string>): (r: seq<Kind>)
    ensures |r| == |segments|
    ensures forall i | 0 <= i < |r| :: r[i] == KindOf(segments[i])
  {
    if segments == [] then [] else [KindOf(segments[0])] + KindsOf(segments[1..])
  }

  function Kinds(from: string): seq<Kind> { KindsOf(Segments(from)) }

  // ----- compilation -----

  const Slashes := Many(Slash, 0, None)

  function LiteralItems(text: string): seq<Item> {
    if text == "" then [] else [One(Letter(text[0]))] + LiteralItems(text[1..])
  }

  function Items(k: Kind): seq<Item> {
    match k
    case Splat => [Slashes, Many(Dot, 0, Some("splat")), Slashes]
    case Placeholder(name) => [Many(Slash, 1, None), Many(NotSlash, 1, Some(name))]
    case Literal(text) => [Many(Slash, 1, None)] + LiteralItems(text)
  }

  /** The expression for a list of segments, with the trailing slashes every rule allows. */
  function Pattern(kinds: seq<Kind>): seq<Item> {
    if kinds == [] then [Slashes] else Items(kinds[0]) + Pattern(kinds[1..])
  }

  lemma CompileStep(segments: seq<string>, i: nat, re: seq<Item>)
    requires i < |segments|
    ensures re + Pattern(KindsOf(NonEmpty(segments[i..]))) ==
            (if segments[i] == "" then re else re + Items(KindOf(segments[i])))
            + Pattern(KindsOf(NonEmpty(segments[i + 1..])))
  {
    var segment, rest := segments[i], KindsOf(NonEmpty(segments[i + 1..]));
    assert segments[i..][1..] == segments[i + 1..];
    if segment != "" {
      var kinds := KindsOf(NonEmpty(segments[i..]));
      assert kinds == [KindOf(segment)] + rest;
      var items := Items(KindOf(segment));
      assert re + (items + Pattern(rest)) == (re + items) + Pattern(rest);
    }
  }

  /** The loop that builds the expression, segment by segment. */
  method Compile(from: string) returns (re: seq<Item>)
    ensures re == Pattern(Kinds(from))
  {
    var segments := Split(from);
    re := [];
    for i := 0 to |segments|
      invariant re + Pattern(KindsOf(NonEmpty(segments[i..]))) == Pattern(Kinds(from))
    {
      var segment := segments[i];
      CompileStep(segments, i, re);
      if segment == "" {
      } else if segment == "*" {
        re := re + [Slashes, Many(Dot, 0, Some("splat")), Slashes];
      } else if IsPlaceholder(segment) {
        re := re + [Many(Slash, 1, None), Many(NotSlash, 1, Some(segment[1..]))];
      } else {
        re := re + ([Many(Slash, 1, None)] + LiteralItems(segment));
      }
    }
    assert segments[|segments|..] == [];
    re := re + [Slashes];
  }

  // ----- what the groups capture -----

  /** A group of a compiled pattern is a placeholder, or a splat with slashes in front of it. */
  ghost predicate GroupShape(re: seq<Item>, i: nat)
    requires i < |re|
  {
    re[i].Many? && re[i].group.Some? ==>
      || (re[i].cls == NotSlash && re[i].least == 1)
      || (re[i].cls == Dot && re[i].least == 0 && i > 0 && re[i - 1] == Slashes)
  }

  lemma {:induction false} LiteralGroups(text: string)
    ensures forall i | 0 <= i < |LiteralItems(text)| :: LiteralItems(text)[i].One?
  {
    if text != "" {
      LiteralGroups(text[1..]);
    }
  }

  lemma {:induction false} PatternGroups(kinds: seq<Kind>)
    ensures forall i | 0 <= i < |Pattern(kinds)| :: GroupShape(Pattern(kinds), i)
  {
    if kinds != [] {
      PatternGroups(kinds[1..]);
      var items, rest := Items(kinds[0]), Pattern(kinds[1..]);
      if kinds[0].Literal? {
        LiteralGroups(kinds[0].text);
      }
      forall i | 0 <= i < |items + rest| ensures GroupShape(items + rest, i) {
        if i >= |items| {
          assert GroupShape(rest, i - |items|);
          assert i - |items| > 0 ==> (items + rest)[i - 1] == rest[i - |items| - 1];
        }
      }
    }
  }

  /** Moving the slash that starts piece `j + 1` to the end of piece `j`. */
  function Shift(p: seq<string>, j: nat): seq<string>
    requires j + 1 < |p| && p[j + 1] != ""
  {
    p[j := p[j] + p[j + 1][..1]][j + 1 := p[j + 1][1..]]
  }

  lemma {:induction false} ShiftComesFirst(p: seq<string>, j: nat)
    requires j + 1 < |p| && p[j + 1] != ""
    ensures Concat(Shift(p, j)) == Concat(p)
    ensures Shift(p, j) != p && !Prefers(p, Shift(p, j))
    decreases j
  {
    var q := Shift(p, j);
    if j == 0 {
      assert q[2..] == p[2..] && q[1..][1..] == q[2..] && p[1..][1..] == p[2..];
      assert Concat(p) == p[0] + (p[1] + Concat(p[2..]));
      assert Concat(q) == q[0] + (q[1] + Concat(q[2..]));
      assert p[1] == p[1][..1] + p[1][1..];
      assert |q[0]| > |p[0]|;
    } else {
      assert q[1..] == Shift(p[1..], j - 1);
      assert q[0] == p[0];
      ShiftComesFirst(p[1..], j - 1);
    }
  }

  lemma ShiftFits(re: seq<Item>, s: string, p: seq<string>, j: nat)
    requires Fits(re, s, p)
    requires j + 1 < |re| == |p| && re[j] == Slashes && re[j + 1].Many? && re[j + 1].least == 0
    requires p[j + 1] != "" && p[j + 1][0] == '/'
    ensures Fits(re, s, Shift(p, j))
  {
    var q := Shift(p, j);
    FitsMeaning(re, s, p);
    ShiftComesFirst(p, j);
    forall k | 0 <= k < |re| ensures Accepts(re[k], q[k]) {
      assert Accepts(re[k], p[k]);
      if k == j {
        assert q[k] == p[k] + "/";
      }
    }
    FitsMeaning(re, s, q);
  }

  lemma GreedySlashes(re: seq<Item>, s: string, p: seq<string>, i: nat)
    requires Match(re, s) == Some(p) && |p| == |re|
    requires 0 < i < |re| && re[i - 1] == Slashes && re[i].Many? && re[i].least == 0
    ensures p[i] == "" || p[i][0] != '/'
  {
    MatchSound(re, s);
    if p[i] != "" && p[i][0] == '/' {
      ShiftFits(re, s, p, i - 1);
      ShiftComesFirst(p, i - 1);
      MatchBest(re, s, Shift(p, i - 1));
    }
  }

  ghost predicate GroupLaw(item: Item, w: string) {
    item.Many? && item.group.Some? ==>
      if item.cls == NotSlash then w != "" && SlashFree(w)
      else w == "" || w[0] != '/'
  }

  /**
   A match cuts the path into pieces that make it up exactly; a placeholder captures something
   and never a slash, and a splat never begins with one.
   */
  lemma CaptureLaws(from: string, path: string)
    ensures
      var re := Pattern(Kinds(from));
      && (Match(re, path).Some? <==> CanFit(re, path))
      && (Match(re, path).Some? ==>
           var p := Match(re, path).value;
           && |p| == |re| && Concat(p) == path
           && forall i | 0 <= i < |re| :: Accepts(re[i], p[i]) && GroupLaw(re[i], p[i]))
  {
    var re := Pattern(Kinds(from));
    MatchExactly(re, path);
    if Match(re, path).Some? {
      var p := Match(re, path).value;
      FitsMeaning(re, path, p);
      PatternGroups(Kinds(from));
      forall i | 0 <= i < |re| ensures GroupLaw(re[i], p[i]) {
        assert GroupShape(re, i) && Accepts(re[i], p[i]);
        if re[i].Many? && re[i].group.Some? && re[i].cls != NotSlash {
          GreedySlashes(re, path, p, i);
        }
      }
    }
  }
}
