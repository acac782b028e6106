/**
 * Lexical path joining as Go's path/filepath does it on a Unix system
 * (separator '/'): `Join` drops leading empty elements, joins the rest with
 * '/' and cleans the result; `Clean` removes empty and "." elements, lets
 * ".." cancel the element before it, and renders "" as ".".
 * The cache file path is built from two `Join`s, so this module is what
 * decides its exact shape.
 */
module FilePath {

  /** The pieces of `s` between '/' separators, as strings.Split(s, "/"). */
  function Split(s: string): (r: seq<string>)
    ensures |r| >= 1
    decreases |s|
  {
    if s == [] then [""]
    else if s[0] == '/' then [""] + Split(s[1..])
    else
      var t := Split(s[1..]);
      [[s[0]] + t[0]] + t[1..]
  }

  /** The pieces that name something: neither empty nor ".". */
  function Significant(pieces: seq<string>): seq<string>
  {
    if pieces == [] then []
    else if pieces[0] == "" || pieces[0] == "." then Significant(pieces[1..])
    else [pieces[0]] + Significant(pieces[1..])
  }

  function Elements(s: string): seq<string>
  {
    Significant(Split(s))
  }

  /** How one element changes the stack of output elements. */
  function Step(rooted: bool, stack: seq<string>, e: string): seq<string>
  {
    if e != ".." then stack + [e]
    else if |stack| > 0 && stack[|stack| - 1] != ".." then stack[..|stack| - 1]
    else if rooted then stack
    else stack + [".."]
  }

  function Process(rooted: bool, stack: seq<string>, elems: seq<string>): seq<string>
    decreases |elems|
  {
    if elems == [] then stack
    else Process(rooted, Step(rooted, stack, elems[0]), elems[1..])
  }

  /** strings.Join(parts, "/"). */
  function JoinSlash(parts: seq<string>): string
  {
    if parts == [] then ""
    else if |parts| == 1 then parts[0]
    else JoinSlash(parts[..|parts| - 1]) + "/" + parts[|parts| - 1]
  }

  function Render(rooted: bool, stack: seq<string>): string
  {
    var s := (if rooted then "/" else "") + JoinSlash(stack);
    if s == "" then "." else s
  }

  /** filepath.Clean. */
  function Clean(p: string): string
  {
    if p == "" then "."
    else
      var rooted := p[0] == '/';
      Render(rooted, Process(rooted, [], Elements(p)))
  }

  /** filepath.Join with two elements. */
  function Join(a: string, b: string): string
  {
    if a != "" then Clean(a + "/" + b)
    else if b != "" then Clean(b)
    else ""
  }

  /** One path element that Clean keeps as it is. */
  predicate Plain(e: string)
  {
    e != "" && e != "." && e != ".." && '/' !in e
  }

  /** The path naming `e` inside the clean directory `dir`. */
  function Child(dir: string, e: string): string
  {
    if dir == "/" then "/" + e
    else if dir == "." then e
    else dir + "/" + e
  }

  // ---------------------------------------------------------------------------
  // Shape of the stacks Clean builds

  ghost predicate Good(stack: seq<string>)
  {
    forall i :: 0 <= i < |stack| ==> stack[i] != "" && stack[i] != "." && '/' !in stack[i]
  }

  /** What Clean's output stack looks like: ".." only as a prefix, and never when rooted. */
  ghost predicate Normal(rooted: bool, stack: seq<string>)
  {
    && Good(stack)
    && (rooted ==> forall i :: 0 <= i < |stack| ==> stack[i] != "..")
    && (forall i, j :: 0 <= j < i < |stack| && stack[i] == ".." ==> stack[j] == "..")
  }

  lemma {:induction false} SplitNoSlash(s: string)
    ensures forall i :: 0 <= i < |Split(s)| ==> '/' !in Split(s)[i]
    decreases |s|
  {
    if s != [] {
      SplitNoSlash(s[1..]);
    }
  }

  lemma {:induction false} SignificantGood(pieces: seq<string>)
    requires forall i :: 0 <= i < |pieces| ==> '/' !in pieces[i]
    ensures Good(Significant(pieces))
    decreases |pieces|
  {
    if pieces != [] {
      SignificantGood(pieces[1..]);
    }
  }

  lemma ElementsGood(s: string)
    ensures Good(Elements(s))
  {
    SplitNoSlash(s);
    SignificantGood(Split(s));
  }

  lemma {:induction false} ProcessNormal(rooted: bool, stack: seq<string>, elems: seq<string>)
    requires Normal(rooted, stack) && Good(elems)
    ensures Normal(rooted, Process(rooted, stack, elems))
    decreases |elems|
  {
    if elems != [] {
      var next := Step(rooted, stack, elems[0]);
      assert Normal(rooted, next);
      ProcessNormal(rooted, next, elems[1..]);
    }
  }

  lemma {:induction false} ProcessAppend(rooted: bool, stack: seq<string>, xs: seq<string>, ys: seq<string>)
    ensures Process(rooted, stack, xs + ys) == Process(rooted, Process(rooted, stack, xs), ys)
    decreases |xs|
  {
    if xs != [] {
      assert (xs + ys)[1..] == xs[1..] + ys;
      ProcessAppend(rooted, Step(rooted, stack, xs[0]), xs[1..], ys);
    } else {
      assert xs + ys == ys;
    }
  }

  /** A stack already in Clean's output shape is left as it is. */
  lemma {:induction false} ProcessNormalIdentity(rooted: bool, done: seq<string>, rest: seq<string>)
    requires Normal(rooted, done + rest)
    ensures Process(rooted, done, rest) == done + rest
    decreases |rest|
  {
    if rest == [] {
      assert done + rest == done;
    } else {
      var all := done + rest;
      assert all[|done|] == rest[0];
      if rest[0] == ".." {
        assert forall j :: 0 <= j < |done| ==> all[j] == done[j];
      }
      assert Step(rooted, done, rest[0]) == done + [rest[0]];
      assert (done + [rest[0]]) + rest[1..] == all;
      ProcessNormalIdentity(rooted, done + [rest[0]], rest[1..]);
    }
  }

  lemma {:induction false} SplitAppend(a: string, b: string)
    ensures Split(a + "/" + b) == Split(a) + Split(b)
    decreases |a|
  {
    if a == [] {
      assert a + "/" + b == "/" + b;
      assert ("/" + b)[1..] == b;
    } else {
      assert (a + "/" + b)[0] == a[0];
      assert (a + "/" + b)[1..] == a[1..] + "/" + b;
      SplitAppend(a[1..], b);
    }
  }

  lemma {:induction false} SplitPlain(e: string)
    requires '/' !in e
    ensures Split(e) == [e]
    decreases |e|
  {
    if e != [] {
      SplitPlain(e[1..]);
      assert [e[0]] + e[1..] == e;
    }
  }

  lemma {:induction false} SignificantAppend(xs: seq<string>, ys: seq<string>)
    ensures Significant(xs + ys) == Significant(xs) + Significant(ys)
    decreases |xs|
  {
    if xs == [] {
      assert xs + ys == ys;
    } else {
      assert (xs + ys)[1..] == xs[1..] + ys;
      SignificantAppend(xs[1..], ys);
    }
  }

  lemma ElementsChild(s: string, e: string)
    requires Plain(e)
    ensures Elements(s + "/" + e) == Elements(s) + [e]
  {
    SplitAppend(s, e);
    SplitPlain(e);
    SignificantAppend(Split(s), [e]);
  }

  /** Joining pieces without '/' and splitting again gives the pieces back. */
  lemma {:induction false} SplitJoinSlash(parts: seq<string>)
    requires |parts| > 0 && forall i :: 0 <= i < |parts| ==> '/' !in parts[i]
    ensures Split(JoinSlash(parts)) == parts
    decreases |parts|
  {
    if |parts| == 1 {
      SplitPlain(parts[0]);
    } else {
      var init := parts[..|parts| - 1];
      SplitJoinSlash(init);
      SplitAppend(JoinSlash(init), parts[|parts| - 1]);
      SplitPlain(parts[|parts| - 1]);
      assert init + [parts[|parts| - 1]] == parts;
    }
  }

  lemma {:induction false} JoinSlashShape(parts: seq<string>)
    requires |parts| > 0 && Good(parts)
    ensures |JoinSlash(parts)| > 0 && JoinSlash(parts)[0] != '/'
    ensures JoinSlash(parts) != "."
    decreases |parts|
  {
    if |parts| > 1 {
      JoinSlashShape(parts[..|parts| - 1]);
      var j := JoinSlash(parts);
      assert j[|JoinSlash(parts[..|parts| - 1])|] == '/';
    }
  }

  lemma SignificantGoodIdentity(parts: seq<string>)
    requires Good(parts)
    ensures Significant(parts) == parts
  {
    if parts != [] {
      SignificantGoodIdentity(parts[1..]);
    }
  }

  lemma CleanRender(rooted: bool, stack: seq<string>)
    requires Normal(rooted, stack)
    ensures Clean(Render(rooted, stack)) == Render(rooted, stack)
  {
    var p := Render(rooted, stack);
    if stack == [] {
      if rooted {
        assert p == "/" && p[1..] == "";
        assert Split(p) == ["", ""];
        assert ["", ""][1..] == [""] && [""][1..] == [];
        assert Elements(p) == [];
      } else {
        assert p == "." && p[1..] == "";
        assert Split(p[1..]) == [""];
        assert Split(p) == [['.'] + ""] + [""][1..];
        assert ["."][1..] == [];
        assert Elements(p) == [];
      }
    } else {
      JoinSlashShape(stack);
      var j := JoinSlash(stack);
      forall i | 0 <= i < |stack| ensures '/' !in stack[i] { }
      SplitJoinSlash(stack);
      SignificantGoodIdentity(stack);
      if rooted {
        assert p == "/" + j && p[0] == '/' && p[1..] == j;
        assert Split(p) == [""] + stack;
        assert Elements(p) == stack;
      } else {
        assert p == j;
        assert Elements(p) == stack;
      }
      assert [] + stack == stack;
      ProcessNormalIdentity(rooted, [], stack);
    }
  }

  lemma CleanNormal(p: string)
    ensures p != "" ==> Normal(p[0] == '/', Process(p[0] == '/', [], Elements(p)))
  {
    if p != "" {
      ElementsGood(p);
      ProcessNormal(p[0] == '/', [], Elements(p));
    }
  }

  /** Cleaning a clean path changes nothing. */
  lemma CleanIdempotent(p: string)
    ensures Clean(Clean(p)) == Clean(p)
  {
    if p == "" {
      CleanRender(false, []);
    } else {
      CleanNormal(p);
      CleanRender(p[0] == '/', Process(p[0] == '/', [], Elements(p)));
    }
  }

  lemma JoinSlashSnoc(stack: seq<string>, e: string)
    requires stack != []
    ensures JoinSlash(stack + [e]) == JoinSlash(stack) + "/" + e
  {
    assert (stack + [e])[..|stack|] == stack;
  }

  /** Rendering a stack with one more plain element names it inside the shorter rendering. */
  lemma RenderChild(rooted: bool, stack: seq<string>, e: string)
    requires Good(stack) && Plain(e)
    ensures Render(rooted, stack + [e]) == Child(Render(rooted, stack), e)
  {
    if stack == [] {
      assert [] + [e] == [e];
      assert JoinSlash([e]) == e;
    } else {
      JoinSlashShape(stack);
      JoinSlashSnoc(stack, e);
      var j := JoinSlash(stack);
      if rooted {
        assert Render(rooted, stack) == "/" + j;
        assert ("/" + j)[1] == j[0];
        assert Render(rooted, stack + [e]) == "/" + j + "/" + e;
      } else {
        assert Render(rooted, stack) == j;
        assert Render(rooted, stack + [e]) == j + "/" + e;
      }
    }
  }

  /** Cleaning `s/e`, for a plain element `e`, names `e` inside Clean(s). */
  lemma CleanChild(s: string, e: string)
    requires s != "" && Plain(e)
    ensures Clean(s + "/" + e) == Child(Clean(s), e)
  {
    var rooted := s[0] == '/';
    assert (s + "/" + e)[0] == s[0];
    ElementsChild(s, e);
    ProcessAppend(rooted, [], Elements(s), [e]);
    var stack := Process(rooted, [], Elements(s));
    assert Process(rooted, stack, [e]) == stack + [e];
    CleanNormal(s);
    RenderChild(rooted, stack, e);
  }

  /** filepath.Join(dir, e) for a plain element `e`: `e` inside the cleaned `dir`. */
  lemma JoinPlain(dir: string, e: string)
    requires Plain(e)
    ensures Join(dir, e) == Child(Clean(dir), e)
  {
    if dir == "" {
      SplitPlain(e);
      assert [e][1..] == [];
      assert Significant([e]) == [e] + Significant([]);
      assert Elements(e) == [e];
      assert Process(false, [], [e]) == [e];
      assert JoinSlash([e]) == e;
    } else {
      CleanChild(dir, e);
    }
  }

  /** A child of a clean directory is itself clean. */
  lemma ChildClean(dir: string, e: string)
    requires Plain(e) && Clean(dir) == dir
    ensures Clean(Child(dir, e)) == Child(dir, e)
  {
    JoinPlain(dir, e);
    CleanIdempotent(dir + "/" + e);
  }
}
