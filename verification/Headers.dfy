/** Parsing of header lists and quoted strings. */
module Headers {
  import opened Basics

  predicate IsSeparator(c: char) { c in " \t\"(),/:;<=>?@[]\\{}" }

  predicate IsToken(c: char) { 31 < c as int < 127 && !IsSeparator(c) }

  /** The characters of a token are those section 3.2.6 of RFC 7230 lists. */
  lemma TokenExactly(c: char)
    ensures IsToken(c) <==> 'a' <= c <= 'z' || 'A' <= c <= 'Z' || '0' <= c <= '9' || c in "!#$%&'*+-.^_`|~"
  {
  }

  // ----- comma-separated lists -----

  /** Outside quotes, inside them, or after a backslash inside them. */
  datatype Mode = Plain | Quoted | Escaped

  function NextMode(m: Mode, c: char): Mode {
    match m
    case Escaped => Quoted
    case Quoted => if c == '\\' then Escaped else if c == '"' then Plain else Quoted
    case Plain => if c == '"' then Quoted else Plain
  }

  function Emit(item: string): seq<string> { if item == "" then [] else [item] }

  /** The items of `s`, when `cur` has been read of the present one and then `gap` of spaces. */
  function Items(s: string, cur: string, gap: string, m: Mode): seq<string> {
    if s == "" then Emit(cur)
    else
      var c, rest := s[0], s[1..];
      if m == Plain && IsSpace(c) then
        if cur == "" then Items(rest, "", "", Plain) else Items(rest, cur, gap + [c], Plain)
      else if m == Plain && c == ',' then Emit(cur) + Items(rest, "", "", Plain)
      else Items(rest, cur + gap + [c], "", NextMode(m, c))
  }

  /** The items still to come at index `i`, when the present one is `s[b..e]` so far. */
  ghost function Left(s: string, i: nat, b: nat, e: nat, m: Mode): seq<string>
    requires b <= e <= i <= |s|
  {
    Items(s[i..], s[b..e], s[e..i], m)
  }

  lemma LeftStep(s: string, i: nat, b: nat, e: nat, m: Mode)
    requires b <= e <= i < |s| && (b == e ==> e == i) && (m != Plain ==> e == i)
    ensures
      var c, n := s[i], i + 1;
      Left(s, i, b, e, m) ==
      if m == Plain && IsSpace(c) then (if b == e then Left(s, n, n, n, Plain) else Left(s, n, b, e, Plain))
      else if m == Plain && c == ',' then Emit(s[b..e]) + Left(s, n, n, n, Plain)
      else Left(s, n, b, n, NextMode(m, c))
  {
    assert s[i..][0] == s[i] && s[i..][1..] == s[i + 1..];
    assert s[e..i] + [s[i]] == s[e..i + 1];
    assert s[b..e] + s[e..i] + [s[i]] == s[b..i + 1];
    assert s[i + 1..i + 1] == "";
  }

  /** One header line, by indices into it. */
  method ParseLine(s: string) returns (result: seq<string>)
    ensures result == Items(s, "", "", Plain)
  {
    result := [];
    var begin, end := 0, 0;
    var escape, quote := false, false;
    ghost var m := Plain;
    assert s[0..] == s && s[0..0] == "";
    for i := 0 to |s|
      invariant begin <= end <= i && (begin == end ==> end == i) && (m != Plain ==> end == i)
      invariant m == if escape then Escaped else if quote then Quoted else Plain
      invariant escape ==> quote
      invariant result + Left(s, i, begin, end, m) == Items(s, "", "", Plain)
    {
      var b := s[i];
      LeftStep(s, i, begin, end, m);
      if escape {
        escape := false;
        end := i + 1;
        m := Quoted;
      } else if quote {
        m := NextMode(m, b);
        if b == '\\' {
          escape := true;
        } else if b == '"' {
          quote := false;
        }
        end := i + 1;
      } else if b == '"' {
        quote := true;
        end := i + 1;
        m := Quoted;
      } else if IsSpace(b) {
        if begin == end {
          begin := i + 1;
          end := begin;
        }
      } else if b == ',' {
        ghost var rest := Left(s, i + 1, i + 1, i + 1, Plain);
        assert result + (Emit(s[begin..end]) + rest) == (result + Emit(s[begin..end])) + rest;
        if begin < end {
          result := result + [s[begin..end]];
        }
        begin := i + 1;
        end := begin;
      } else {
        end := i + 1;
      }
    }
    assert s[|s|..] == "";
    if begin < end {
      result := result + [s[begin..end]];
    }
  }

  /** All lines of one header. */
  method ParseList(lines: seq<string>) returns (result: seq<string>)
    ensures result == AllItems(lines)
  {
    result := [];
    for i := 0 to |lines|
      invariant result + AllItems(lines[i..]) == AllItems(lines)
    {
      var items := ParseLine(lines[i]);
      assert lines[i..][1..] == lines[i + 1..];
      assert result + (items + AllItems(lines[i + 1..])) == (result + items) + AllItems(lines[i + 1..]);
      result := result + items;
    }
  }

  function AllItems(lines: seq<string>): seq<string> {
    if lines == [] then [] else Items(lines[0], "", "", Plain) + AllItems(lines[1..])
  }

  lemma {:induction false} LinesInOrder(a: seq<string>, b: seq<string>)
    ensures AllItems(a + b) == AllItems(a) + AllItems(b)
  {
    if a == [] {
      assert a + b == b;
    } else {
      assert (a + b)[1..] == a[1..] + b;
      LinesInOrder(a[1..], b);
    }
  }

  // ----- writing a list and reading it back -----

  /** Where reading `w` leads, unless it meets a comma outside quotes. */
  function Scan(w: string, m: Mode): Option<Mode> {
    if w == "" then Some(m)
    else if m == Plain && w[0] == ',' then None
    else Scan(w[1..], NextMode(m, w[0]))
  }

  predicate AllSpace(w: string) { forall i | 0 <= i < |w| :: IsSpace(w[i]) }

  /** An item of a list: quotes closed, no bare comma, no space at either end. */
  predicate WellFormed(w: string) {
    w != "" && !IsSpace(w[0]) && !IsSpace(w[|w| - 1]) && Scan(w, Plain) == Some(Plain)
  }

  /** An item with whatever spaces around it. */
  datatype Padded = Padded(before: string, item: string, after: string)

  predicate Proper(p: Padded) { AllSpace(p.before) && AllSpace(p.after) && WellFormed(p.item) }

  function Text(p: Padded): string { p.before + p.item + p.after }

  function Write(ps: seq<Padded>): string {
    if ps == [] then ""
    else if |ps| == 1 then Text(ps[0])
    else Text(ps[0]) + "," + Write(ps[1..])
  }

  function ItemsOf(ps: seq<Padded>): seq<string> {
    if ps == [] then [] else [ps[0].item] + ItemsOf(ps[1..])
  }

  lemma {:induction false} ItemsOfWord(w: string, rest: string, cur: string, gap: string, m: Mode)
    requires w != "" && !IsSpace(w[|w| - 1]) && Scan(w, m) == Some(Plain)
    requires m == Plain && cur == "" ==> gap == "" && !IsSpace(w[0])
    requires m != Plain ==> gap == ""
    ensures Items(w + rest, cur, gap, m) == Items(rest, cur + gap + w, "", Plain)
    decreases |w|
  {
    var c, w' := w[0], w[1..];
    assert (w + rest)[0] == c && (w + rest)[1..] == w' + rest;
    assert w == [c] + w';
    assert !(m == Plain && c == ',') && Scan(w', NextMode(m, c)) == Some(Plain);
    if w' == "" {
      assert w' + rest == rest && w == [c];
    } else if m == Plain && IsSpace(c) {
      ItemsOfWord(w', rest, cur, gap + [c], Plain);
      assert cur + (gap + [c]) + w' == cur + gap + w;
    } else {
      ItemsOfWord(w', rest, cur + gap + [c], "", NextMode(m, c));
      assert cur + gap + [c] + "" + w' == cur + gap + w;
    }
  }

  lemma {:induction false} ItemsOfSpace(sp: string, rest: string, cur: string, gap: string)
    requires AllSpace(sp)
    ensures cur == "" && gap == "" ==> Items(sp + rest, cur, gap, Plain) == Items(rest, cur, gap, Plain)
    ensures cur != "" ==> Items(sp + rest, cur, gap, Plain) == Items(rest, cur, gap + sp, Plain)
    decreases |sp|
  {
    if sp == "" {
      assert sp + rest == rest && gap + sp == gap;
    } else {
      assert (sp + rest)[0] == sp[0] && (sp + rest)[1..] == sp[1..] + rest;
      if cur == "" {
        ItemsOfSpace(sp[1..], rest, "", "");
      } else {
        ItemsOfSpace(sp[1..], rest, cur, gap + [sp[0]]);
        assert gap + [sp[0]] + sp[1..] == gap + sp;
      }
    }
  }

  lemma ItemsOfItem(p: Padded, tail: string)
    requires Proper(p)
    ensures Items(p.item + tail, "", "", Plain) == Items(tail, p.item, "", Plain)
  {
    ItemsOfWord(p.item, tail, "", "", Plain);
    assert "" + "" + p.item == p.item;
  }

  lemma ItemsOfPadded(p: Padded, rest: string)
    requires Proper(p)
    ensures Items(Text(p) + rest, "", "", Plain) == Items(rest, p.item, p.after, Plain)
  {
    var tail := p.after + rest;
    assert Text(p) + rest == p.before + (p.item + tail);
    ItemsOfSpace(p.before, p.item + tail, "", "");
    ItemsOfItem(p, tail);
    ItemsOfSpace(p.after, rest, p.item, "");
    assert "" + p.after == p.after;
  }

  lemma ItemsOfComma(t: string, cur: string, gap: string)
    requires cur != ""
    ensures Items("," + t, cur, gap, Plain) == [cur] + Items(t, "", "", Plain)
  {
    assert ("," + t)[0] == ',' && ("," + t)[1..] == t;
  }

  /** A list of well-formed items, however padded, is read back item by item. */
  lemma {:induction false} ListRoundTrip(ps: seq<Padded>)
    requires forall i | 0 <= i < |ps| :: Proper(ps[i])
    ensures Items(Write(ps), "", "", Plain) == ItemsOf(ps)
  {
    if |ps| == 1 {
      ItemsOfPadded(ps[0], "");
      assert Text(ps[0]) + "" == Text(ps[0]);
      assert ps[1..] == [];
    } else if |ps| > 1 {
      var rest := Write(ps[1..]);
      assert Write(ps) == Text(ps[0]) + ("," + rest);
      ItemsOfPadded(ps[0], "," + rest);
      ItemsOfComma(rest, ps[0].item, ps[0].after);
      ListRoundTrip(ps[1..]);
    }
  }

  // ----- quoted strings -----

  /** The value up to the closing quote and what follows it; nothing if the quote is never closed. */
  function Unquote(s: string): Option<(string, string)>
    decreases |s|
  {
    if s == "" then None
    else if s[0] == '"' then Some(("", s[1..]))
    else if s[0] == '\\' then (if |s| == 1 then None else Prepend([s[1]], Unquote(s[2..])))
    else Prepend([s[0]], Unquote(s[1..]))
  }

  function Prepend(w: string, r: Option<(string, string)>): Option<(string, string)> {
    match r
    case None => None
    case Some((v, t)) => Some((w + v, t))
  }

  lemma PrependPrepend(a: string, b: string, r: Option<(string, string)>)
    ensures Prepend(a, Prepend(b, r)) == Prepend(a + b, r)
  {
    if r.Some? {
      assert a + (b + r.value.0) == (a + b) + r.value.0;
    }
  }

  lemma PrependNothing(r: Option<(string, string)>)
    ensures Prepend("", r) == r
  {
    if r.Some? {
      assert "" + r.value.0 == r.value.0;
    }
  }

  function TokenRun(s: string): (n: nat)
    ensures n <= |s| && (forall i | 0 <= i < n :: IsToken(s[i])) && (n < |s| ==> !IsToken(s[n]))
  {
    if s == "" || !IsToken(s[0]) then 0 else 1 + TokenRun(s[1..])
  }

  /** What is expected: a token, or a quoted string with its escapes undone. */
  function TokenOrQuoted(s: string): (string, string) {
    if s == "" || s[0] != '"' then (s[..TokenRun(s)], s[TokenRun(s)..])
    else
      match Unquote(s[1..])
      case Some(r) => r
      case None => ("", "")
  }

  method ExpectToken(s: string) returns (token: string, rest: string)
    ensures token == s[..TokenRun(s)] && rest == s[TokenRun(s)..]
    ensures s == token + rest && (rest != "" ==> !IsToken(rest[0]))
    ensures forall i | 0 <= i < |token| :: IsToken(token[i])
  {
    var i := 0;
    while i < |s|
      invariant i <= |s| && TokenRun(s) == i + TokenRun(s[i..])
    {
      assert s[i..][1..] == s[i + 1..];
      if !IsToken(s[i]) {
        break;
      }
      i := i + 1;
    }
    return s[..i], s[i..];
  }

  /** Unquoting from index `k` on, after `was`. */
  ghost function Rest(was: string, s: string, k: nat): Option<(string, string)>
    requires k <= |s|
  {
    Prepend(was, Unquote(s[k..]))
  }

  lemma UnquoteEscaped(s: string, i: nat, was: string)
    requires i + 1 < |s| && s[i] == '\\'
    ensures Rest(was, s, i) == Rest(was + [s[i + 1]], s, i + 2)
  {
    assert s[i..][1] == s[i + 1] && s[i..][2..] == s[i + 2..];
    PrependPrepend(was, [s[i + 1]], Unquote(s[i + 2..]));
  }

  lemma UnquotePlain(s: string, i: nat, was: string)
    requires i < |s| && s[i] != '\\' && s[i] != '"'
    ensures Rest(was, s, i) == Rest(was + [s[i]], s, i + 1)
  {
    assert s[i..][0] == s[i] && s[i..][1..] == s[i + 1..];
    PrependPrepend(was, [s[i]], Unquote(s[i + 1..]));
  }

  lemma UnquoteEnd(s: string, i: nat, was: string)
    requires i < |s| && s[i] == '"'
    ensures Rest(was, s, i) == Some((was, s[i + 1..]))
  {
    assert s[i..][0] == s[i] && s[i..][1..] == s[i + 1..];
    assert was + "" == was;
  }

  /** The slow path: copy into a buffer, dropping the backslashes. */
  method Unescape(s: string, from: nat) returns (value: string, rest: string)
    requires from < |s| && s[from] == '\\'
    requires Unquote(s) == Rest(s[..from], s, from)
    ensures (value, rest) == match Unquote(s) case Some(r) => r case None => ("", "")
  {
    var p := new char[|s| - 1];
    forall k | 0 <= k < from { p[k] := s[k]; }
    var j := from;
    assert p[..j] == s[..from];
    var escape := true;
    var i := from + 1;
    while i < |s|
      invariant from < i <= |s| && from <= j <= i - 1
      invariant Unquote(s) == Rest(p[..j], s, if escape then i - 1 else i)
      invariant escape ==> s[i - 1] == '\\'
    {
      var b := s[i];
      ghost var was := p[..j];
      if escape {
        UnquoteEscaped(s, i - 1, was);
        escape := false;
        p[j] := b;
        j := j + 1;
        assert p[..j] == was + [b];
      } else if b == '\\' {
        escape := true;
      } else if b == '"' {
        UnquoteEnd(s, i, was);
        return p[..j], s[i + 1..];
      } else {
        UnquotePlain(s, i, was);
        p[j] := b;
        j := j + 1;
        assert p[..j] == was + [b];
      }
      i := i + 1;
    }
    UnquoteUnclosed(s, if escape then i - 1 else i);
    return "", "";
  }

  lemma UnquoteUnclosed(s: string, k: nat)
    requires k == |s| || (k == |s| - 1 && s[k] == '\\')
    ensures Unquote(s[k..]) == None
  {
    assert k < |s| ==> s[k..] == "\\";
  }

  method ExpectTokenOrQuoted(text: string) returns (value: string, rest: string)
    ensures (value, rest) == TokenOrQuoted(text)
  {
    if text == "" || text[0] != '"' {
      value, rest := ExpectToken(text);
      return;
    }
    var s := text[1..];
    PrependNothing(Unquote(s));
    assert s[0..] == s && s[..0] == "";
    for i := 0 to |s|
      invariant Unquote(s) == Rest(s[..i], s, i)
    {
      if s[i] == '"' {
        UnquoteEnd(s, i, s[..i]);
        return s[..i], s[i + 1..];
      } else if s[i] == '\\' {
        value, rest := Unescape(s, i);
        return;
      }
      UnquotePlain(s, i, s[..i]);
      assert s[..i] + [s[i]] == s[..i + 1];
    }
    assert s[|s|..] == "";
    return "", "";
  }

  /** `e` writes `v` inside quotes: any character may be escaped, quotes and backslashes must be. */
  predicate Escapes(e: string, v: string) {
    if v == "" then e == ""
    else
      || (e != "" && e[0] == v[0] && v[0] != '"' && v[0] != '\\' && Escapes(e[1..], v[1..]))
      || (|e| >= 2 && e[0] == '\\' && e[1] == v[0] && Escapes(e[2..], v[1..]))
  }

  lemma {:induction false} UnquoteUndoes(e: string, v: string, rest: string)
    requires Escapes(e, v)
    ensures Unquote(e + "\"" + rest) == Some((v, rest))
    decreases |v|
  {
    var s := e + "\"" + rest;
    if v == "" {
      assert s == "\"" + rest && s[1..] == rest;
    } else {
      assert v == [v[0]] + v[1..];
      if e[0] == v[0] && v[0] != '"' && v[0] != '\\' && Escapes(e[1..], v[1..]) {
        UnquoteUndoes(e[1..], v[1..], rest);
        assert s[1..] == e[1..] + "\"" + rest;
      } else {
        UnquoteUndoes(e[2..], v[1..], rest);
        assert s[1] == e[1] && s[2..] == e[2..] + "\"" + rest;
      }
    }
  }

  lemma {:induction false} UnquoteReads(s: string) returns (e: string)
    requires Unquote(s).Some?
    ensures Escapes(e, Unquote(s).value.0) && s == e + "\"" + Unquote(s).value.1
    decreases |s|
  {
    if s[0] == '"' {
      e := "";
    } else if s[0] == '\\' {
      var e' := UnquoteReads(s[2..]);
      e := s[..2] + e';
      assert e[2..] == e' && s == s[..2] + s[2..];
      assert Unquote(s).value.0[1..] == Unquote(s[2..]).value.0;
    } else {
      var e' := UnquoteReads(s[1..]);
      e := s[..1] + e';
      assert e[1..] == e' && s == s[..1] + s[1..];
      assert Unquote(s).value.0[1..] == Unquote(s[1..]).value.0;
    }
  }

  /** Reading undoes every way of quoting any value, whatever follows. */
  lemma QuotedRoundTrip(e: string, v: string, rest: string)
    requires Escapes(e, v)
    ensures TokenOrQuoted("\"" + e + "\"" + rest) == (v, rest)
  {
    UnquoteUndoes(e, v, rest);
    assert ("\"" + e + "\"" + rest)[1..] == e + "\"" + rest;
  }

  /** A value is read from a closed quoted string only if that is a way of quoting it. */
  lemma QuotedOnly(s: string, v: string, rest: string)
    requires Unquote(s) == Some((v, rest))
    ensures exists e :: Escapes(e, v) && s == e + "\"" + rest
  {
    var e := UnquoteReads(s);
    assert Escapes(e, v) && s == e + "\"" + rest;
  }

  /** Every value can be quoted: by escaping all of it, or by escaping nothing where nothing needs it. */
  lemma {:induction false} Quotable(v: string) returns (e: string)
    ensures Escapes(e, v)
    ensures '"' !in v && '\\' !in v ==> e == v
  {
    if v == "" {
      e := "";
    } else {
      var rest := Quotable(v[1..]);
      e := (if v[0] == '"' || v[0] == '\\' then "\\" else "") + [v[0]] + rest;
      assert v[0] in v;
      if v[0] == '"' || v[0] == '\\' {
        assert e[2..] == rest;
      } else {
        assert e[1..] == rest;
      }
    }
  }

  /** A quote that is never closed yields nothing at all. */
  lemma ClosedOrNothing(s: string)
    ensures (exists e, v, rest :: Closes(s, e, v, rest)) || TokenOrQuoted("\"" + s) == ("", "")
  {
    assert ("\"" + s)[1..] == s;
    if Unquote(s).Some? {
      var e := UnquoteReads(s);
      assert Closes(s, e, Unquote(s).value.0, Unquote(s).value.1);
    }
  }

  ghost predicate Closes(s: string, e: string, v: string, rest: string) { Escapes(e, v) && s == e + "\"" + rest }

  // ----- what may stand in a list -----

  lemma {:induction false} ScanPlain(w: string)
    requires '"' !in w && ',' !in w
    ensures Scan(w, Plain) == Some(Plain)
  {
    if w != "" {
      assert w[0] in w;
      ScanPlain(w[1..]);
    }
  }

  lemma {:induction false} ScanEscaped(e: string, v: string, rest: string)
    requires Escapes(e, v)
    ensures Scan(e + "\"" + rest, Quoted) == Scan(rest, Plain)
    decreases |v|
  {
    var s := e + "\"" + rest;
    if v == "" {
      assert s[0] == '"' && s[1..] == rest;
    } else if e[0] == v[0] && v[0] != '"' && v[0] != '\\' && Escapes(e[1..], v[1..]) {
      assert s[1..] == e[1..] + "\"" + rest;
      ScanEscaped(e[1..], v[1..], rest);
    } else {
      assert s[1..][1..] == e[2..] + "\"" + rest && s[1..][0] == e[1];
      ScanEscaped(e[2..], v[1..], rest);
    }
  }

  /** An item may be any text without commas and quotes, or any quoted string, commas and all. */
  lemma ItemsAllowed(w: string, e: string, v: string)
    requires Escapes(e, v)
    ensures w != "" && '"' !in w && ',' !in w && w[0] !in " \t\r\n" && w[|w| - 1] !in " \t\r\n" ==> WellFormed(w)
    ensures WellFormed("\"" + e + "\"")
  {
    if '"' !in w && ',' !in w {
      ScanPlain(w);
    }
    var q := "\"" + e + "\"";
    assert q[1..] == e + "\"" + "";
    ScanEscaped(e, v, "");
  }

  /** Several lines, each a list, read as one. */
  lemma {:induction false} LinesRoundTrip(lines: seq<seq<Padded>>)
    requires forall i, j | 0 <= i < |lines| && 0 <= j < |lines[i]| :: Proper(lines[i][j])
    ensures AllItems(Texts(lines)) == AllOf(lines)
  {
    if lines != [] {
      ListRoundTrip(lines[0]);
      LinesRoundTrip(lines[1..]);
      assert Texts(lines)[1..] == Texts(lines[1..]);
    }
  }

  function Texts(lines: seq<seq<Padded>>): seq<string> {
    if lines == [] then [] else [Write(lines[0])] + Texts(lines[1..])
  }

  function AllOf(lines: seq<seq<Padded>>): seq<string> {
    if lines == [] then [] else ItemsOf(lines[0]) + AllOf(lines[1..])
  }
}
