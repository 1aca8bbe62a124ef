/** Entity-tag preconditions: scanning If-Match and If-None-Match against the served tag. */
module ETags {
  import opened Basics

  function TrimLeft(s: string): (r: string)
    ensures |r| <= |s| && (r != "" ==> !IsSpace(r[0]))
  {
    if s != "" && IsSpace(s[0]) then TrimLeft(s[1..]) else s
  }

  function TrimRight(s: string): (r: string)
    ensures |r| <= |s| && (r != "" ==> !IsSpace(r[|r| - 1]))
  {
    if s != "" && IsSpace(s[|s| - 1]) then TrimRight(s[..|s| - 1]) else s
  }

  function Trim(s: string): string { TrimRight(TrimLeft(s)) }

  /** Characters allowed inside a tag (section 2.3 of RFC 7232). */
  predicate IsTagChar(c: char) {
    c as int == 0x21 || 0x23 <= c as int <= 0x7E || c as int >= 0x80
  }

  /** The index of the quote that closes a tag, if everything up to it is allowed. */
  function ClosingQuote(s: string, i: nat): (r: Option<nat>)
    requires i <= |s|
    ensures r.Some? ==> i <= r.value < |s| && s[r.value] == '"'
    decreases |s| - i
  {
    if i == |s| then None
    else if IsTagChar(s[i]) then ClosingQuote(s, i + 1)
    else if s[i] == '"' then Some(i)
    else None
  }

  function Start(s: string): (n: nat)
    ensures n <= |s|
  {
    if "W/" <= s then 2 else 0
  }

  /** The tag at the front of `s` and what follows it, or two empty strings. */
  function ScanETag(s: string): (r: (string, string))
    ensures r.0 != "" ==> |r.1| < |s|
  {
    var t := TrimLeft(s);
    var u := TrimRight(t);
    var start := Start(u);
    if |u| - start < 2 || u[start] != '"' then ("", "")
    else
      match ClosingQuote(u, start + 1)
      case Some(i) => (u[..i + 1], u[i + 1..])
      case None => ("", "")
  }

  method ScanETagLoop(text: string) returns (etag: string, remain: string)
    ensures (etag, remain) == ScanETag(text)
  {
    var s := Trim(text);
    var start := Start(s);
    if |s| - start < 2 || s[start] != '"' {
      return "", "";
    }
    var i := start + 1;
    while i < |s|
      invariant start + 1 <= i <= |s| && ClosingQuote(s, start + 1) == ClosingQuote(s, i)
    {
      var c := s[i];
      if c as int == 0x21 || 0x23 <= c as int <= 0x7E || c as int >= 0x80 {
      } else if c == '"' {
        return s[..i + 1], s[i + 1..];
      } else {
        return "", "";
      }
      i := i + 1;
    }
    return "", "";
  }

  predicate StrongMatch(a: string, b: string) { a == b && a != "" && a[0] == '"' }

  function Opaque(tag: string): string { if "W/" <= tag then tag[2..] else tag }

  predicate WeakMatch(a: string, b: string) { Opaque(a) == Opaque(b) }

  datatype Condition = Unset | Holds | Fails

  /** Whether the list in `h` names the served tag, compared weakly or strongly; "*" names any. */
  function Names(h: string, served: string, weak: bool): bool
    decreases |h|
  {
    var t := Trim(h);
    if t == "" then false
    else if t[0] == ',' then Names(t[1..], served, weak)
    else if t[0] == '*' then true
    else
      var (etag, remain) := ScanETag(t);
      if etag == "" then false
      else if (if weak then WeakMatch(etag, served) else StrongMatch(etag, served)) then true
      else Names(remain, served, weak)
  }

  method CheckIfMatch(header: string, served: string) returns (c: Condition)
    ensures c == if header == "" then Unset else if Names(header, served, false) then Holds else Fails
  {
    if header == "" {
      return Unset;
    }
    var im := header;
    while true
      invariant Names(header, served, false) == Names(im, served, false)
      decreases |im|
    {
      im := Trim(im);
      if |im| == 0 {
        break;
      }
      if im[0] == ',' {
        im := im[1..];
      } else if im[0] == '*' {
        return Holds;
      } else {
        var etag, remain := ScanETagLoop(im);
        if etag == "" {
          break;
        }
        if StrongMatch(etag, served) {
          return Holds;
        }
        im := remain;
      }
    }
    return Fails;
  }

  method CheckIfNoneMatch(header: string, served: string) returns (c: Condition)
    ensures c == if header == "" then Unset else if Names(header, served, true) then Fails else Holds
  {
    if header == "" {
      return Unset;
    }
    var buf := header;
    while true
      invariant Names(header, served, true) == Names(buf, served, true)
      decreases |buf|
    {
      buf := Trim(buf);
      if |buf| == 0 {
        break;
      }
      if buf[0] == ',' {
        buf := buf[1..];
      } else if buf[0] == '*' {
        return Fails;
      } else {
        var etag, remain := ScanETagLoop(buf);
        if etag == "" {
          break;
        }
        if WeakMatch(etag, served) {
          return Fails;
        }
        buf := remain;
      }
    }
    return Holds;
  }

  // ----- strong comparison is contained in weak comparison -----

  /** Whatever the header says, if If-Match holds on it then If-None-Match fails on it. */
  lemma {:induction false} StrongIsWeak(h: string, served: string)
    ensures Names(h, served, false) ==> Names(h, served, true)
    decreases |h|
  {
    var t := Trim(h);
    if t != "" && t[0] == ',' {
      StrongIsWeak(t[1..], served);
    } else if t != "" && t[0] != '*' {
      var (etag, remain) := ScanETag(t);
      if etag != "" {
        StrongIsWeak(remain, served);
      }
    }
  }

  // ----- lists of tags -----

  predicate IsSeparator(c: char) { IsSpace(c) || c == ',' }

  predicate AllSeparators(s: string) { forall i | 0 <= i < |s| :: IsSeparator(s[i]) }

  /** A tag as the standard writes it. */
  predicate ValidTag(tag: string) {
    var start := Start(tag);
    && |tag| - start >= 2 && tag[start] == '"' && tag[|tag| - 1] == '"'
    && forall i | start < i < |tag| - 1 :: IsTagChar(tag[i])
  }

  datatype Listed = Listed(before: string, tag: string)

  predicate Proper(l: Listed) { AllSeparators(l.before) && ValidTag(l.tag) }

  function Write(ls: seq<Listed>, tail: string): string {
    if ls == [] then tail else ls[0].before + ls[0].tag + Write(ls[1..], tail)
  }

  lemma {:induction false} TrimRightAgain(s: string)
    ensures TrimLeft(TrimRight(s)) == TrimRight(TrimLeft(s))
    decreases |s|
  {
    if s != "" && IsSpace(s[0]) {
      TrimRightAgain(s[1..]);
      TrimRightCons(s[0], s[1..]);
      assert [s[0]] + s[1..] == s;
      if TrimRight(s) != "" {
        assert TrimRight(s)[1..] == TrimRight(s[1..]);
      }
    } else if s != "" {
      TrimRightCons(s[0], s[1..]);
      assert [s[0]] + s[1..] == s;
    }
  }

  /** Trimming on the right leaves the front alone, unless nothing but space follows it. */
  lemma {:induction false} TrimRightCons(c: char, x: string)
    ensures TrimRight([c] + x) == if TrimRight(x) == "" && IsSpace(c) then "" else [c] + TrimRight(x)
    decreases |x|
  {
    var s := [c] + x;
    if x == "" {
      assert s == [c] && s[..0] == "";
    } else {
      assert s[|s| - 1] == x[|x| - 1];
      if IsSpace(x[|x| - 1]) {
        assert s[..|s| - 1] == [c] + x[..|x| - 1];
        TrimRightCons(c, x[..|x| - 1]);
      }
    }
  }

  lemma {:induction false} TrimRightConcat(w: string, x: string)
    requires w != "" && !IsSpace(w[|w| - 1])
    ensures TrimRight(w + x) == w + TrimRight(x)
    decreases |x|
  {
    if x == "" {
      assert w + x == w;
    } else if IsSpace(x[|x| - 1]) {
      assert (w + x)[|w + x| - 1] == x[|x| - 1] && (w + x)[..|w + x| - 1] == w + x[..|x| - 1];
      TrimRightConcat(w, x[..|x| - 1]);
    }
  }

  /** Space at the end of a header means nothing. */
  lemma NamesTrimRight(h: string, served: string, weak: bool)
    ensures Names(TrimRight(h), served, weak) == Names(h, served, weak)
  {
    TrimRightAgain(h);
    TrimTwice(TrimLeft(h));
  }

  lemma TrimTwice(s: string)
    ensures TrimRight(TrimRight(s)) == TrimRight(s)
  {
  }

  lemma NamesSkips(c: char, h: string, served: string, weak: bool)
    requires IsSeparator(c)
    ensures Names([c] + h, served, weak) == Names(h, served, weak)
  {
    var s := [c] + h;
    assert s[1..] == h;
    if c == ',' {
      TrimRightCons(c, h);
      assert Trim(s) == [','] + TrimRight(h);
      assert Trim(s)[1..] == TrimRight(h);
      NamesTrimRight(h, served, weak);
    } else {
      assert Trim(s) == Trim(h);
    }
  }

  lemma {:induction false} NamesSkipsAll(sep: string, h: string, served: string, weak: bool)
    requires AllSeparators(sep)
    ensures Names(sep + h, served, weak) == Names(h, served, weak)
    decreases |sep|
  {
    if sep == "" {
      assert sep + h == h;
    } else {
      assert sep + h == [sep[0]] + (sep[1..] + h);
      NamesSkips(sep[0], sep[1..] + h, served, weak);
      NamesSkipsAll(sep[1..], h, served, weak);
    }
  }

  lemma {:induction false} ClosingQuoteAt(s: string, i: nat, k: nat)
    requires i <= k < |s| && s[k] == '"' && forall j | i <= j < k :: IsTagChar(s[j])
    ensures ClosingQuote(s, i) == Some(k)
    decreases k - i
  {
    if i < k {
      ClosingQuoteAt(s, i + 1, k);
    }
  }

  lemma StartKept(tag: string, rest: string)
    requires |tag| >= 2
    ensures Start(tag + rest) == Start(tag)
  {
    assert (tag + rest)[..2] == tag[..2];
    assert "W/" <= tag <==> tag[..2] == "W/";
    assert "W/" <= tag + rest <==> (tag + rest)[..2] == "W/";
  }

  lemma TagUntrimmed(tag: string, rest: string)
    requires ValidTag(tag)
    ensures TrimLeft(tag + rest) == tag + rest && TrimRight(tag + rest) == tag + TrimRight(rest)
    ensures tag[0] != ',' && tag[0] != '*'
  {
    assert !IsSpace(tag[0]) && !IsSpace(tag[|tag| - 1]);
    TrimRightConcat(tag, rest);
  }

  lemma ClosesAtEnd(tag: string, rest: string)
    requires ValidTag(tag)
    ensures ClosingQuote(tag + rest, Start(tag) + 1) == Some(|tag| - 1)
  {
    var s, start := tag + rest, Start(tag);
    forall j | start < j < |tag| - 1 ensures IsTagChar(s[j]) { assert s[j] == tag[j]; }
    ClosingQuoteAt(s, start + 1, |tag| - 1);
  }

  lemma ScanValid(tag: string, rest: string)
    requires ValidTag(tag) && rest == TrimRight(rest)
    ensures ScanETag(tag + rest) == (tag, rest)
  {
    var s := tag + rest;
    TagUntrimmed(tag, rest);
    StartKept(tag, rest);
    ClosesAtEnd(tag, rest);
    assert s[Start(tag)] == tag[Start(tag)];
    assert s[..|tag|] == tag && s[|tag|..] == rest;
  }

  predicate Matches(tag: string, served: string, weak: bool) {
    if weak then WeakMatch(tag, served) else StrongMatch(tag, served)
  }

  lemma NamesTag(tag: string, h: string, served: string, weak: bool)
    requires ValidTag(tag)
    ensures Names(tag + h, served, weak) == (Matches(tag, served, weak) || Names(h, served, weak))
  {
    var s, rest := tag + h, TrimRight(h);
    TagUntrimmed(tag, h);
    assert Trim(s) == tag + rest;
    TrimTwice(h);
    ScanValid(tag, rest);
    assert (tag + rest)[0] == tag[0];
    NamesTrimRight(h, served, weak);
  }

  /** On a list of valid tags both headers say exactly whether one of them matches the served tag. */
  lemma {:induction false} NamesExactly(ls: seq<Listed>, tail: string, served: string, weak: bool)
    requires forall i | 0 <= i < |ls| :: Proper(ls[i])
    requires AllSeparators(tail)
    ensures Names(Write(ls, tail), served, weak) <==> exists i | 0 <= i < |ls| :: Matches(ls[i].tag, served, weak)
  {
    if ls == [] {
      assert tail + "" == tail;
      NamesSkipsAll(tail, "", served, weak);
    } else {
      var rest := Write(ls[1..], tail);
      assert Write(ls, tail) == ls[0].before + (ls[0].tag + rest);
      NamesSkipsAll(ls[0].before, ls[0].tag + rest, served, weak);
      NamesTag(ls[0].tag, rest, served, weak);
      NamesExactly(ls[1..], tail, served, weak);
      if i :| 0 <= i < |ls[1..]| && Matches(ls[1..][i].tag, served, weak) {
        assert ls[i + 1] == ls[1..][i];
      }
      if i :| 0 <= i < |ls| && Matches(ls[i].tag, served, weak) {
        assert i > 0 ==> ls[1..][i - 1] == ls[i];
      }
    }
  }

  lemma StrongTagExactly(x: string)
    ensures ValidTag("\"" + x + "\"") <==> AllTagChars(x)
  {
    var tag := "\"" + x + "\"";
    assert Start(tag) == 0 by { assert tag[0] == '"'; }
    assert forall i | 0 <= i < |x| :: tag[i + 1] == x[i];
    assert forall i | 0 < i < |tag| - 1 :: tag[i] == x[i - 1];
  }

  lemma WeakTagExactly(x: string)
    ensures ValidTag("W/\"" + x + "\"") <==> AllTagChars(x)
  {
    var tag := "W/\"" + x + "\"";
    assert Start(tag) == 2 by { assert tag[..2] == "W/"; }
    assert forall i | 0 <= i < |x| :: tag[i + 3] == x[i];
    assert forall i | 2 < i < |tag| - 1 :: tag[i] == x[i - 3];
  }

  /** A tag is a quoted string of the allowed characters, with W/ in front if it is weak. */
  lemma TagExactly(x: string)
    ensures ValidTag("\"" + x + "\"") <==> AllTagChars(x)
    ensures ValidTag("W/\"" + x + "\"") <==> AllTagChars(x)
  {
    StrongTagExactly(x);
    WeakTagExactly(x);
  }

  predicate AllTagChars(x: string) {
    forall i | 0 <= i < |x| :: x[i] as int == 0x21 || 0x23 <= x[i] as int <= 0x7E || x[i] as int >= 0x80
  }

  /** A weak tag and the strong one with the same text match each other weakly, and nothing strongly. */
  lemma WeakAndStrong(x: string, y: string)
    ensures Matches("W/\"" + x + "\"", "\"" + y + "\"", true) <==> x == y
    ensures Matches("\"" + x + "\"", "W/\"" + y + "\"", true) <==> x == y
    ensures Matches("\"" + x + "\"", "\"" + y + "\"", true) <==> x == y
    ensures Matches("W/\"" + x + "\"", "W/\"" + y + "\"", true) <==> x == y
    ensures Matches("\"" + x + "\"", "\"" + y + "\"", false) <==> x == y
    ensures forall served :: !Matches("W/\"" + x + "\"", served, false)
    ensures forall tag :: !Matches(tag, "W/\"" + y + "\"", false)
  {
    OpaqueOf(x);
    OpaqueOf(y);
    var a, b := "\"" + x + "\"", "\"" + y + "\"";
    assert a[1..|a| - 1] == x && b[1..|b| - 1] == y;
    assert ("W/\"" + x + "\"")[0] == 'W' && ("W/\"" + y + "\"")[0] == 'W';
  }

  lemma OpaqueOf(x: string)
    ensures Opaque("\"" + x + "\"") == "\"" + x + "\"" && Opaque("W/\"" + x + "\"") == "\"" + x + "\""
  {
    assert ("\"" + x + "\"")[0] == '"';
    assert ("W/\"" + x + "\"")[..2] == "W/" && ("W/\"" + x + "\"")[2..] == "\"" + x + "\"";
  }

  /** A star names any tag: If-Match holds on it and If-None-Match fails. */
  lemma StarNamesAll(before: string, rest: string, served: string, weak: bool)
    requires AllSeparators(before)
    ensures Names(before + "*" + rest, served, weak)
  {
    var h := "*" + rest;
    assert before + "*" + rest == before + h;
    NamesSkipsAll(before, h, served, weak);
    TrimRightCons('*', rest);
    assert ['*'] + rest == h && !IsSpace('*');
    assert TrimLeft(h) == h && Trim(h)[0] == '*';
  }

  /** Separators are commas and white space. */
  lemma SeparatorsExactly(s: string)
    ensures AllSeparators(s) <==> forall i | 0 <= i < |s| :: s[i] in ", \t\r\n"
  {
  }

  // ----- the order of the preconditions -----

  datatype Verdict = Serve | NotModified | PreconditionFailed

  /** The decision, given what the two date headers say. */
  method CheckPreconditions(ifMatch: string, ifNoneMatch: string, served: string,
                            unmodified: Condition, modified: Condition, safe: bool)
    returns (v: Verdict)
    ensures v == PreconditionFailed <==>
              || (if ifMatch != "" then !Names(ifMatch, served, false) else unmodified == Fails)
              || (ifNoneMatch != "" && Names(ifNoneMatch, served, true) && !safe)
    ensures v == NotModified <==>
              && !(if ifMatch != "" then !Names(ifMatch, served, false) else unmodified == Fails)
              && (if ifNoneMatch != "" then safe && Names(ifNoneMatch, served, true) else modified == Fails)
    // asking for the served tag both ways never gets the content
    ensures ifMatch != "" && ifMatch == ifNoneMatch ==> v != Serve
  {
    var ch := CheckIfMatch(ifMatch, served);
    if ch == Unset {
      ch := unmodified;
    }
    if ch == Fails {
      return PreconditionFailed;
    }
    StrongIsWeak(ifMatch, served);
    var none := CheckIfNoneMatch(ifNoneMatch, served);
    if none == Fails {
      return if safe then NotModified else PreconditionFailed;
    } else if none == Unset && modified == Fails {
      return NotModified;
    }
    return Serve;
  }
}
