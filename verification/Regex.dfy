/**
 The regular expressions a redirect pattern compiles to: a sequence of items, anchored at both
 ends, each a single character or a greedy repetition of one character class.

 `Match` is the ordered backtracking search, longest repetition first.  `Fits` is the
 declarative reading: the text is cut into one piece per item.
 */
module Regex {
  import opened Basics

  datatype Class = Slash | NotSlash | Dot | Letter(c: char)

  /** Case folding, for ASCII. */
  function Fold(c: char): char {
    if 'A' <= c <= 'Z' then c - 'A' + 'a' else c
  }

  predicate Admits(cls: Class, c: char) {
    match cls
    case Slash => c == '/'
    case NotSlash => c != '/'
    case Dot => c != '\n'
    case Letter(d) => Fold(c) == Fold(d)
  }

  predicate AllAdmitted(cls: Class, w: string) {
    forall i | 0 <= i < |w| :: Admits(cls, w[i])
  }

  datatype Item =
    | One(cls: Class)
    | Many(cls: Class, least: nat, group: Option<string>)

  predicate Accepts(item: Item, w: string) {
    match item
    case One(cls) => |w| == 1 && AllAdmitted(cls, w)
    case Many(cls, least, _) => |w| >= least && AllAdmitted(cls, w)
  }

  // ----- the declarative reading -----

  ghost predicate Fits(re: seq<Item>, s: string, pieces: seq<string>)
    decreases |re|
  {
    if re == [] then s == "" && pieces == []
    else
      && pieces != [] && pieces[0] <= s
      && Accepts(re[0], pieces[0])
      && Fits(re[1..], s[|pieces[0]|..], pieces[1..])
  }

  ghost predicate CanFit(re: seq<Item>, s: string) { exists q :: Fits(re, s, q) }

  ghost function Concat(pieces: seq<string>): string {
    if pieces == [] then "" else pieces[0] + Concat(pieces[1..])
  }

  /** One piece per item, each accepted by its item, together exactly the text. */
  lemma {:induction false} FitsMeaning(re: seq<Item>, s: string, pieces: seq<string>)
    ensures Fits(re, s, pieces) <==>
            |pieces| == |re| && Concat(pieces) == s && forall i | 0 <= i < |re| :: Accepts(re[i], pieces[i])
    decreases |re|
  {
    if re != [] && pieces != [] {
      var w := pieces[0];
      if w <= s {
        FitsMeaning(re[1..], s[|w|..], pieces[1..]);
        assert s == w + s[|w|..];
        if Fits(re, s, pieces) {
          forall i | 0 <= i < |re| ensures Accepts(re[i], pieces[i]) {
            if i > 0 { assert Accepts(re[1..][i - 1], pieces[1..][i - 1]); }
          }
        }
      }
    }
  }

  /** `p` is what greedy search reaches before `q`: longer at the first piece where they differ. */
  ghost predicate Prefers(p: seq<string>, q: seq<string>)
    decreases |p|
  {
    p != [] && q != [] && (|p[0]| > |q[0]| || (p[0] == q[0] && Prefers(p[1..], q[1..])))
  }

  // ----- the ordered backtracking search -----

  function Run(cls: Class, s: string): (n: nat)
    ensures n <= |s| && AllAdmitted(cls, s[..n])
    ensures n < |s| ==> !Admits(cls, s[n])
  {
    if s == "" || !Admits(cls, s[0]) then 0
    else
      var n := Run(cls, s[1..]);
      assert s[..n + 1] == [s[0]] + s[1..][..n];
      n + 1
  }

  /** The longest piece `item` can take from the front of `s`. */
  function Longest(item: Item, s: string): (n: nat)
    ensures n <= |s| && AllAdmitted(item.cls, s[..n])
    ensures item.One? ==> n <= 1
  {
    var n := Run(item.cls, s);
    if item.One? && n > 1 then 1 else n
  }

  function Least(item: Item): nat { if item.One? then 1 else item.least }

  function Match(re: seq<Item>, s: string): Option<seq<string>>
    decreases |re|, 1, 0
  {
    if re == [] then (if s == "" then Some([]) else None)
    else TryFrom(re, s, Longest(re[0], s))
  }

  function TryFrom(re: seq<Item>, s: string, n: nat): Option<seq<string>>
    requires re != [] && n <= |s|
    decreases |re|, 0, n
  {
    if n < Least(re[0]) then None
    else
      match Match(re[1..], s[n..])
      case Some(rest) => Some([s[..n]] + rest)
      case None => if n == 0 then None else TryFrom(re, s, n - 1)
  }

  lemma LongestIsLongest(item: Item, s: string, w: string)
    requires Accepts(item, w) && w <= s
    ensures |w| <= Longest(item, s)
  {
    assert forall i | 0 <= i < |w| :: Admits(item.cls, w[i]) && w[i] == s[i];
  }

  lemma {:induction false} MatchSound(re: seq<Item>, s: string)
    ensures Match(re, s).Some? ==> Fits(re, s, Match(re, s).value)
    decreases |re|, 1, 0
  {
    if re != [] {
      TrySound(re, s, Longest(re[0], s));
    }
  }

  lemma {:induction false} TrySound(re: seq<Item>, s: string, n: nat)
    requires re != [] && n <= Longest(re[0], s)
    ensures TryFrom(re, s, n).Some? ==> Fits(re, s, TryFrom(re, s, n).value)
    decreases |re|, 0, n
  {
    if n >= Least(re[0]) {
      MatchSound(re[1..], s[n..]);
      var rest := Match(re[1..], s[n..]);
      if rest.Some? {
        assert forall i | 0 <= i < n :: s[..n][i] == s[..Longest(re[0], s)][i];
        assert ([s[..n]] + rest.value)[1..] == rest.value;
      } else if n > 0 {
        TrySound(re, s, n - 1);
      }
    }
  }

  lemma {:induction false} MatchBest(re: seq<Item>, s: string, q: seq<string>)
    requires Fits(re, s, q)
    ensures Match(re, s).Some?
    ensures Match(re, s).value == q || Prefers(Match(re, s).value, q)
    decreases |re|, 1, 0
  {
    if re != [] {
      LongestIsLongest(re[0], s, q[0]);
      TryBest(re, s, Longest(re[0], s), q);
    }
  }

  lemma {:induction false} TryBest(re: seq<Item>, s: string, n: nat, q: seq<string>)
    requires re != [] && Fits(re, s, q) && |q[0]| <= n <= |s|
    ensures TryFrom(re, s, n).Some?
    ensures TryFrom(re, s, n).value == q || Prefers(TryFrom(re, s, n).value, q)
    decreases |re|, 0, n
  {
    assert q == [q[0]] + q[1..];
    if |q[0]| == n {
      assert s[..n] == q[0];
      MatchBest(re[1..], s[n..], q[1..]);
    }
    var rest := Match(re[1..], s[n..]);
    if rest.Some? {
      assert ([s[..n]] + rest.value)[1..] == rest.value;
    } else {
      TryBest(re, s, n - 1, q);
    }
  }

  /**
   The search succeeds exactly when the text can be cut to fit, and then returns the cut that
   greedy order puts first.
   */
  lemma MatchExactly(re: seq<Item>, s: string)
    ensures Match(re, s).Some? <==> CanFit(re, s)
    ensures Match(re, s).Some? ==> Fits(re, s, Match(re, s).value)
    ensures forall q :: Fits(re, s, q) ==> Match(re, s).value == q || Prefers(Match(re, s).value, q)
  {
    MatchSound(re, s);
    forall q | Fits(re, s, q)
      ensures Match(re, s).Some? && (Match(re, s).value == q || Prefers(Match(re, s).value, q))
    {
      MatchBest(re, s, q);
    }
  }

  // ----- captures -----

  /** The named groups of a cut, in order. */
  function Captures(re: seq<Item>, pieces: seq<string>): seq<(string, string)>
    decreases |re|
  {
    if re == [] || pieces == [] then []
    else if re[0].Many? && re[0].group.Some? then
      [(re[0].group.value, pieces[0])] + Captures(re[1..], pieces[1..])
    else Captures(re[1..], pieces[1..])
  }

  // ----- gluing and cutting expressions -----

  lemma {:induction false} FitsGlue(re: seq<Item>, re': seq<Item>, s: string, s': string,
                                    p: seq<string>, p': seq<string>)
    requires Fits(re, s, p) && Fits(re', s', p')
    ensures Fits(re + re', s + s', p + p')
    decreases |re|
  {
    if re == [] {
      assert re + re' == re' && s + s' == s' && p + p' == p';
    } else {
      FitsGlue(re[1..], re', s[|p[0]|..], s', p[1..], p');
      assert (re + re')[1..] == re[1..] + re' && (p + p')[1..] == p[1..] + p';
      assert (s + s')[|p[0]|..] == s[|p[0]|..] + s';
    }
  }

  lemma {:induction false} FitsCut(re: seq<Item>, re': seq<Item>, s: string, q: seq<string>) returns (n: nat)
    requires Fits(re + re', s, q)
    ensures n <= |s| && |re| <= |q|
    ensures Fits(re, s[..n], q[..|re|]) && Fits(re', s[n..], q[|re|..])
    decreases |re|
  {
    if re == [] {
      n := 0;
      assert re + re' == re' && s[0..] == s && q[0..] == q;
    } else {
      var w := q[0];
      assert (re + re')[1..] == re[1..] + re';
      var m := FitsCut(re[1..], re', s[|w|..], q[1..]);
      n := |w| + m;
      assert q[..|re|][0] == w && q[..|re|][1..] == q[1..][..|re[1..]|];
      assert q[|re|..] == q[1..][|re[1..]|..];
      assert s[..n][|w|..] == s[|w|..][..m];
      assert s[n..] == s[|w|..][m..];
    }
  }

  lemma {:induction false} CapturesCut(re: seq<Item>, re': seq<Item>, q: seq<string>)
    requires |re| <= |q|
    ensures Captures(re + re', q) == Captures(re, q[..|re|]) + Captures(re', q[|re|..])
    decreases |re|
  {
    if re == [] {
      assert re + re' == re' && q[0..] == q;
    } else {
      CapturesCut(re[1..], re', q[1..]);
      assert (re + re')[1..] == re[1..] + re';
      assert q[..|re|][1..] == q[1..][..|re[1..]|];
      assert q[|re|..] == q[1..][|re[1..]|..];
    }
  }
}
