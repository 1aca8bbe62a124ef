/** Redirect rules: the exact-match shortcut, the templated target, and the scan over rules. */
module Redirects {
  import opened Basics
  import opened Paths
  import opened Regex
  import opened RedirectPatterns
  import opened RedirectSegments

  // ----- templating the target -----

  function LetterRun(s: string): (n: nat)
    ensures n <= |s| && forall i | 0 <= i < n :: IsLetter(s[i])
    ensures n < |s| ==> !IsLetter(s[n])
  {
    if s == "" || !IsLetter(s[0]) then 0 else 1 + LetterRun(s[1..])
  }

  predicate StartsPlaceholder(s: string) { |s| > 1 && s[0] == ':' && IsLetter(s[1]) }

  /** Whether a target has anything to fill in: a splat or a placeholder. */
  predicate HasTemplate(to: string) {
    to != "" && (to[0] == '*' || StartsPlaceholder(to) || HasTemplate(to[1..]))
  }

  /** The target as a template for the expander: `:name` becomes `${name}`. */
  function Template(to: string): string {
    if to == "" then ""
    else if StartsPlaceholder(to) then
      var n := LetterRun(to[1..]);
      "${" + to[1..][..n] + "}" + Template(to[1..][n..])
    else [to[0]] + Template(to[1..])
  }

  predicate IsDigit(c: char) { '0' <= c <= '9' }
  predicate IsWordChar(c: char) { IsLetter(c) || IsDigit(c) || c == '_' }

  function WordRun(s: string): (n: nat)
    ensures n <= |s|
    ensures forall i | 0 <= i < n :: IsWordChar(s[i])
    ensures n < |s| ==> !IsWordChar(s[n])
  {
    if s == "" || !IsWordChar(s[0]) then 0 else 1 + WordRun(s[1..])
  }

  /** A reference at the front of `s` (after its dollar sign): its name and how much it takes. */
  function Reference(s: string): (r: Option<(string, nat)>)
    ensures r.Some? ==> 0 < r.value.1 <= |s|
  {
    if s != "" && s[0] == '{' then
      var n := WordRun(s[1..]);
      if n == 0 || n + 1 >= |s| || s[n + 1] != '}' then None else Some((s[1..][..n], n + 2))
    else
      var n := WordRun(s);
      if n == 0 then None else Some((s[..n], n))
  }

  predicate IsNumber(name: string) {
    && name != "" && (forall i | 0 <= i < |name| :: IsDigit(name[i]))
    && (name[0] == '0' ==> |name| == 1)
  }

  function NumberOf(name: string): nat
    requires forall i | 0 <= i < |name| :: IsDigit(name[i])
  {
    if name == "" then 0
    else
      var last := name[|name| - 1];
      assert IsDigit(last);
      NumberOf(name[..|name| - 1]) * 10 + (last as int - '0' as int)
  }

  /** The leftmost group of that name. */
  function Lookup(captures: seq<(string, string)>, name: string): string {
    if captures == [] then ""
    else if captures[0].0 == name then captures[0].1
    else Lookup(captures[1..], name)
  }

  function ValueOf(name: string, captures: seq<(string, string)>, whole: string): string {
    if IsNumber(name) then
      var n := NumberOf(name);
      if n == 0 then whole else if n <= |captures| then captures[n - 1].1 else ""
    else Lookup(captures, name)
  }

  /** The standard library's expansion of a template. */
  function Expand(template: string, captures: seq<(string, string)>, whole: string): string
    decreases |template|
  {
    if template == "" then ""
    else if template[0] != '$' then [template[0]] + Expand(template[1..], captures, whole)
    else
      var after := template[1..];
      if after != "" && after[0] == '$' then "$" + Expand(after[1..], captures, whole)
      else
        match Reference(after)
        case None => "$" + Expand(after, captures, whole)
        case Some((name, n)) => ValueOf(name, captures, whole) + Expand(after[n..], captures, whole)
  }

  /** What a target is meant to become: each `:name` replaced by what that name captured. */
  function Substitute(to: string, captures: seq<(string, string)>): string {
    if to == "" then ""
    else if StartsPlaceholder(to) then
      var n := LetterRun(to[1..]);
      Lookup(captures, to[1..][..n]) + Substitute(to[1..][n..], captures)
    else [to[0]] + Substitute(to[1..], captures)
  }

  lemma {:induction false} WordRunOf(name: string, rest: string)
    requires forall i | 0 <= i < |name| :: IsLetter(name[i])
    ensures WordRun(name + "}" + rest) == |name|
  {
    var s := name + "}" + rest;
    if name != "" {
      assert s[1..] == name[1..] + "}" + rest;
      WordRunOf(name[1..], rest);
    }
  }

  lemma ExpandBraced(name: string, rest: string, captures: seq<(string, string)>, whole: string)
    requires name != "" && forall i | 0 <= i < |name| :: IsLetter(name[i])
    ensures Expand("${" + name + "}" + rest, captures, whole) == Lookup(captures, name) + Expand(rest, captures, whole)
  {
    var t := "${" + name + "}" + rest;
    var after := t[1..];
    assert after[0] == '{' && after[1..] == name + "}" + rest;
    WordRunOf(name, rest);
    assert after[|name| + 1] == '}';
    assert after[1..][..|name|] == name;
    assert after[|name| + 2..] == rest;
    assert Reference(after) == Some((name, |name| + 2));
    assert !IsDigit(name[0]);
  }

  /** For a target without dollar signs, templating and expanding is plain substitution. */
  lemma {:induction false} ExpandSubstitutes(to: string, captures: seq<(string, string)>, whole: string)
    requires '$' !in to
    ensures Expand(Template(to), captures, whole) == Substitute(to, captures)
    decreases |to|
  {
    if to == "" {
    } else if StartsPlaceholder(to) {
      var n := LetterRun(to[1..]);
      var name, rest := to[1..][..n], to[1..][n..];
      assert n > 0;
      ExpandSubstitutes(rest, captures, whole);
      ExpandBraced(name, Template(rest), captures, whole);
    } else {
      ExpandSubstitutes(to[1..], captures, whole);
      var t := [to[0]] + Template(to[1..]);
      assert t[0] == to[0] && t[1..] == Template(to[1..]);
      assert to[0] in to;
    }
  }

  lemma {:induction false} SubstituteNothing(to: string, captures: seq<(string, string)>)
    requires !HasTemplate(to)
    ensures Substitute(to, captures) == to
  {
    if to != "" {
      SubstituteNothing(to[1..], captures);
    }
  }

  // ----- collapsing slashes -----

  /** Each run of slashes becomes one. */
  function Collapse(s: string): string {
    if s == "" then ""
    else if s[0] == '/' then "/" + Collapse(s[Run(Slash, s)..])
    else [s[0]] + Collapse(s[1..])
  }

  predicate NoDoubleSlash(s: string) {
    forall i | 0 <= i < |s| - 1 :: s[i] == '/' ==> s[i + 1] != '/'
  }

  lemma NoDoubleCons(c: char, tail: string)
    requires NoDoubleSlash(tail) && !(c == '/' && Rooted(tail))
    ensures NoDoubleSlash([c] + tail)
  {
    var s := [c] + tail;
    forall i | 0 <= i < |s| - 1 && s[i] == '/' ensures s[i + 1] != '/' {
      assert s[i + 1] == tail[i];
      if i > 0 { assert s[i] == tail[i - 1]; }
    }
  }

  lemma {:induction false} CollapseSingle(s: string)
    ensures NoDoubleSlash(Collapse(s)) && (Rooted(Collapse(s)) <==> Rooted(s))
  {
    if s != "" {
      var rest := if s[0] == '/' then s[Run(Slash, s)..] else s[1..];
      CollapseSingle(rest);
      assert s[0] == '/' ==> !Rooted(rest);
      NoDoubleCons(s[0], Collapse(rest));
    }
  }

  lemma {:induction false} CollapseWord(w: string, t: string)
    requires SlashFree(w)
    ensures Collapse(w + t) == w + Collapse(t)
  {
    if w == "" {
      assert w + t == t && w + Collapse(t) == Collapse(t);
    } else {
      assert (w + t)[1..] == w[1..] + t;
      CollapseWord(w[1..], t);
    }
  }

  lemma {:induction false} RunOfSlashes(a: string, x: string)
    requires AllSlashes(a) && !Rooted(x)
    ensures Run(Slash, a + x) == |a|
  {
    if a == "" {
      assert a + x == x;
    } else {
      assert (a + x)[1..] == a[1..] + x;
      RunOfSlashes(a[1..], x);
    }
  }

  lemma CollapseParts(a: string, x: string)
    requires AllSlashes(a) && !Rooted(x)
    ensures Collapse(a + x) == (if a == "" then "" else "/") + Collapse(x)
  {
    RunOfSlashes(a, x);
    if a == "" {
      assert a + x == x;
    } else {
      assert (a + x)[|a|..] == x;
    }
  }

  lemma CollapseFirst(a: string, w: string, t: string)
    requires AllSlashes(a) && SlashFree(w) && (w == "" ==> t == "")
    ensures Collapse(a + w + t) == (if a == "" then "" else "/") + w + Collapse(t)
  {
    assert a + w + t == a + (w + t) && !Rooted(w + t);
    CollapseParts(a, w + t);
    CollapseWord(w, t);
    var lead := if a == "" then "" else "/";
    assert lead + (w + Collapse(t)) == lead + w + Collapse(t);
  }

  /** Collapsing changes no segment. */
  lemma {:induction false} CollapseKeepsSegments(s: string)
    ensures Segments(Collapse(s)) == Segments(s)
    decreases |s|
  {
    var a, w, t := FirstSegment(s);
    var lead := if a == "" then "" else "/";
    CollapseFirst(a, w, t);
    if w == "" {
      assert lead + w + Collapse(t) == lead;
      NoSegments(lead);
    } else {
      CollapseKeepsSegments(t);
      CollapseSingle(t);
      SegmentsParts(lead, w, Collapse(t));
    }
  }

  // ----- one rule -----

  function NormalizePath(p: string): string {
    (if p != "" && p[|p| - 1] == '/' then p[..|p| - 1] else p) + "/"
  }

  /** The shortcut: the path is the pattern, and the target has nothing to fill in. */
  predicate ExactMatch(from: string, to: string, path: string) {
    NormalizePath(from) == NormalizePath(path) && !HasTemplate(to)
  }

  ghost predicate RuleMatches(from: string, to: string, path: string, placeholders: bool) {
    ExactMatch(from, to, path) || (placeholders && CanFit(Pattern(Kinds(from)), path))
  }

  /** What the regular expression makes of the target, once it has matched. */
  function Rewritten(from: string, to: string, path: string): string
    requires Match(Pattern(Kinds(from)), path).Some?
  {
    var re := Pattern(Kinds(from));
    Collapse(Expand(Template(to), Captures(re, Match(re, path).value), path))
  }

  /** A target that starts with a slash is rewritten to a path with exactly one in front and no "//". */
  lemma RewrittenIsLocal(from: string, to: string, path: string)
    requires Match(Pattern(Kinds(from)), path).Some? && Rooted(to)
    ensures Rooted(Rewritten(from, to, path)) && NoDoubleSlash(Rewritten(from, to, path))
  {
    var re := Pattern(Kinds(from));
    var caps := Captures(re, Match(re, path).value);
    assert Template(to)[0] == '/';
    assert Expand(Template(to), caps, path)[0] == '/';
    CollapseSingle(Expand(Template(to), caps, path));
  }

  method MatchesRule(from: string, to: string, path: string, placeholders: bool) returns (matched: bool, result: string)
    ensures matched <==> RuleMatches(from, to, path, placeholders)
    ensures ExactMatch(from, to, path) ==> result == to
    ensures matched && !ExactMatch(from, to, path) ==>
              var re := Pattern(Kinds(from));
              && Match(re, path).Some?
              && result == Rewritten(from, to, path)
              && (Rooted(to) ==> Rooted(result) && NoDoubleSlash(result))
              && ('$' !in to ==> result == Collapse(Substitute(to, Captures(re, Match(re, path).value))))
    ensures !matched ==> result == ""
  {
    if NormalizePath(from) == NormalizePath(path) && !HasTemplate(to) {
      return true, to;
    }
    if !placeholders {
      return false, "";
    }
    var re := Compile(from);
    MatchExactly(re, path);
    var found := Match(re, path);
    if found.None? {
      return false, "";
    }
    if Rooted(to) { RewrittenIsLocal(from, to, path); }
    if '$' !in to { ExpandSubstitutes(to, Captures(re, found.value), path); }
    return true, Collapse(Expand(Template(to), Captures(re, found.value), path));
  }

  // ----- the shortcut against the general path -----

  lemma {:induction false} NonEmptySnoc(parts: seq<string>)
    ensures NonEmpty(parts + [""]) == NonEmpty(parts)
  {
    if parts != [] {
      assert (parts + [""])[1..] == parts[1..] + [""];
      NonEmptySnoc(parts[1..]);
    }
  }

  lemma NormalizedSegments(p: string)
    ensures Segments(NormalizePath(p)) == Segments(p)
  {
    if p != "" && p[|p| - 1] == '/' {
      assert NormalizePath(p) == p;
    } else {
      SplitCut(p, "");
      assert p + "/" + "" == p + "/";
      NonEmptySnoc(Split(p));
    }
  }

  lemma AgreesWithItself(from: string)
    ensures AllAgree(Kinds(from), Segments(from))
  {
    var words := Segments(from);
    forall i | 0 <= i < |words| ensures Agrees(KindOf(words[i]), words[i]) {
    }
  }

  /**
   Where the shortcut fires for a pattern starting with a slash, the regular expression matches
   too, and rewrites a target without dollar signs to itself with runs of slashes collapsed.
   */
  lemma ExactMatchRefines(from: string, to: string, path: string)
    requires ExactMatch(from, to, path) && Rooted(from)
    ensures Match(Pattern(Kinds(from)), path).Some?
    ensures '$' !in to ==> Rewritten(from, to, path) == Collapse(to)
  {
    var kinds, re := Kinds(from), Pattern(Kinds(from));
    NormalizedSegments(from);
    NormalizedSegments(path);
    AgreesWithItself(from);
    if !Rooted(path) {
      assert NormalizePath(from)[0] == '/';
      assert path == "";
      NoSegments("");
    }
    var q := AgreementFits(kinds, path);
    MatchBest(re, path, q);
    if '$' !in to {
      var caps := Captures(re, Match(re, path).value);
      ExpandSubstitutes(to, caps, path);
      SubstituteNothing(to, caps);
    }
  }

  // ----- validation and the scan -----

  datatype Url = Url(host: string, scheme: string, path: string)
  datatype Rule = Rule(from: string, to: string, hasParams: bool, status: int, force: bool)

  /** The standard library's URL parser, as far as rules depend on it. */
  type UrlParser = string -> Option<Url>

  const MaxPathSegments := 25
  const MaxRuleCount := 1000

  function CountSlashes(s: string): nat {
    if s == "" then 0 else (if s[0] == '/' then 1 else 0) + CountSlashes(s[1..])
  }

  predicate HasPlaceholderSegment(s: string) {
    s != "" && ((s[0] == '/' && StartsPlaceholder(s[1..])) || HasPlaceholderSegment(s[1..]))
  }

  predicate ValidUrl(parse: UrlParser, text: string, placeholders: bool) {
    var u := parse(text);
    && u.Some? && u.value.host == "" && u.value.scheme == "" && Rooted(u.value.path)
    && if placeholders then CountSlashes(u.value.path) <= MaxPathSegments
       else '*' !in u.value.path && !HasPlaceholderSegment(u.value.path)
  }

  predicate ValidRule(parse: UrlParser, r: Rule, placeholders: bool) {
    && ValidUrl(parse, r.from, placeholders) && ValidUrl(parse, r.to, placeholders)
    && !r.hasParams && r.status in {200, 301, 302} && !r.force
  }

  ghost predicate Applies(parse: UrlParser, r: Rule, path: string, placeholders: bool) {
    ValidRule(parse, r, placeholders) && RuleMatches(r.from, r.to, path, placeholders)
  }

  /** The first rule that is valid and matches, among those within the limit, and no other. */
  method FindRule(parse: UrlParser, rules: seq<Rule>, path: string, placeholders: bool)
    returns (found: Option<nat>, target: string)
    ensures found.Some? ==>
              && found.value < |rules| && found.value < 1000
              && Applies(parse, rules[found.value], path, placeholders)
              && forall j | 0 <= j < found.value :: !Applies(parse, rules[j], path, placeholders)
    ensures found.None? ==>
              && target == ""
              && forall j | 0 <= j < |rules| && j < 1000 :: !Applies(parse, rules[j], path, placeholders)
    ensures found.Some? ==>
              var r := rules[found.value];
              if ExactMatch(r.from, r.to, path) then target == r.to
              else Match(Pattern(Kinds(r.from)), path).Some? && target == Rewritten(r.from, r.to, path)
  {
    for i := 0 to |rules|
      invariant i <= MaxRuleCount
      invariant forall j | 0 <= j < i :: !Applies(parse, rules[j], path, placeholders)
    {
      if i >= MaxRuleCount {
        return None, "";
      }
      var rule := rules[i];
      if ValidRule(parse, rule, placeholders) {
        var matched, result := MatchesRule(rule.from, rule.to, path, placeholders);
        if matched {
          return Some(i), result;
        }
      }
    }
    return None, "";
  }
}
