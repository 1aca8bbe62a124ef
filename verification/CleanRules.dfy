/** The rules lexical cleaning applies, as the documentation of the standard library lists them. */
module CleanRules {
  import opened Paths

  /** Components that lead back to where they start, from anywhere. */
  ghost predicate Neutral(mid: seq<string>) {
    && (forall p: Place :: Steps(p, mid) == p)
    && (forall names: seq<string> :: RootedSteps(names, mid) == names)
  }

  lemma SplitThree(a: string, x: string, b: string)
    ensures Split(a + "/" + x + "/" + b) == Split(a) + Split(x) + Split(b)
    ensures Split(a + "/" + b) == Split(a) + Split(b)
  {
    SplitCut(a + "/" + x, b);
    SplitCut(a, x);
    SplitCut(a, b);
  }

  lemma DropNeutral(a: string, x: string, b: string)
    requires Neutral(Split(x))
    ensures Clean(a + "/" + x + "/" + b) == Clean(a + "/" + b)
  {
    SplitThree(a, x, b);
    StepsConcat(Origin, Split(a) + Split(x), Split(b));
    StepsConcat(Origin, Split(a), Split(x));
    StepsConcat(Origin, Split(a), Split(b));
    RootedStepsConcat([], Split(a) + Split(x), Split(b));
    RootedStepsConcat([], Split(a), Split(x));
    RootedStepsConcat([], Split(a), Split(b));
    assert (a + "/" + x + "/" + b)[0] == (if a == "" then '/' else a[0]) == (a + "/" + b)[0];
  }

  lemma OneNeutral(c: string)
    requires c == "" || c == "."
    ensures Neutral([c])
  {
    forall p: Place ensures Steps(p, [c]) == p { assert [c][1..] == []; }
    forall names: seq<string> ensures RootedSteps(names, [c]) == names { assert [c][1..] == []; }
  }

  lemma NameUpNeutral(n: string)
    requires Ordinary(n)
    ensures Neutral([n, ".."])
  {
    assert [n, ".."][1..] == [".."] && [".."][1..] == [];
    forall p: Place ensures Steps(p, [n, ".."]) == p {
      assert (p.names + [n])[..|p.names|] == p.names;
      assert Step(Step(p, n), "..") == p;
    }
    forall names: seq<string> ensures RootedSteps(names, [n, ".."]) == names {
      assert (names + [n])[..|names|] == names;
      assert RootedStep(RootedStep(names, n), "..") == names;
    }
  }

  /** Runs of slashes become one, "." goes, and so does a name with the ".." that follows it. */
  lemma InnerRules(a: string, n: string, b: string)
    requires Ordinary(n)
    ensures Clean(a + "//" + b) == Clean(a + "/" + b)
    ensures Clean(a + "/./" + b) == Clean(a + "/" + b)
    ensures Clean(a + "/" + n + "/../" + b) == Clean(a + "/" + b)
  {
    SplitWord("");
    OneNeutral("");
    DropNeutral(a, "", b);
    assert a + "/" + "" + "/" + b == a + "//" + b;
    SplitWord(".");
    OneNeutral(".");
    DropNeutral(a, ".", b);
    assert a + "/" + "." + "/" + b == a + "/./" + b;
    UpRule(a, n, b);
  }

  lemma UpRule(a: string, n: string, b: string)
    requires Ordinary(n)
    ensures Clean(a + "/" + n + "/../" + b) == Clean(a + "/" + b)
  {
    var x := n + "/" + "..";
    SplitCut(n, "..");
    SplitWord(n);
    SplitWord("..");
    NameUpNeutral(n);
    assert [n] + [".."] == [n, ".."];
    DropNeutral(a, x, b);
    assert a + "/" + x + "/" + b == a + "/" + n + "/../" + b;
  }

  /** A ".." at the top of an absolute path goes; nothing at all is the directory itself. */
  lemma TopRules(b: string)
    ensures Clean("/../" + b) == Clean("/" + b)
    ensures Clean("") == "." && Clean("/") == "/"
  {
    var s := "/../" + b;
    assert s[1..] == ".." + "/" + b && ("/" + b)[1..] == b;
    SplitCut("..", b);
    SplitWord("..");
    var comps := [""] + ([".."] + Split(b));
    assert Split(s) == comps && Split("/" + b) == [""] + Split(b);
    assert comps[1..] == [".."] + Split(b) && comps[1..][1..] == Split(b);
    assert ([""] + Split(b))[1..] == Split(b);
    assert RootedStep([], "..") == [] && RootedStep([], "") == [];
    assert RootedSteps([], comps) == RootedSteps([], comps[1..]) == RootedSteps([], Split(b));
    assert NamesOf(s) == NamesOf("/" + b);
    SplitWord("");
    assert [""][1..] == [];
    assert "/"[1..] == "" && Split("/") == ["", ""] && ["", ""][1..] == [""];
  }

  /** What needs no cleaning stays: absolute names, and ".."s in front of relative ones. */
  lemma Unchanged(ups: nat, names: seq<string>)
    requires AllOrdinary(names)
    ensures Clean("/" + Join(names)) == "/" + Join(names)
    ensures ups + |names| > 0 ==> Clean(Join(DotDots(ups) + names)) == Join(DotDots(ups) + names)
  {
    NamesOfRooted(names);
    if ups + |names| > 0 {
      PlaceOfRelative(Place(ups, names));
    }
  }
}
