/** The path normaliser: `wash_path` of shell/buildin_cmd.c over `path_parse` of fs/fs.c.

    A C string is a `string` without its NUL.  The buffer operations (strcat, cutting at the
    last slash) are proved to be a fold over the components of the path. */
module Path {

  // ----- components -----------------------------------------------------------------------

  /** The characters before the first slash. */
  function Head(s: string): (n: string)
    ensures |n| <= |s| && s[..|n|] == n && '/' !in n
    ensures |n| < |s| ==> s[|n|] == '/'
    ensures s != "" && s[0] != '/' ==> n != ""
  {
    if s == "" || s[0] == '/' then "" else [s[0]] + Head(s[1..])
  }

  /** The non-empty components. */
  function Components(s: string): (c: seq<string>)
    decreases |s|
  {
    if s == "" then []
    else if s[0] == '/' then Components(s[1..])
    else [Head(s)] + Components(s[|Head(s)|..])
  }

  /** "." is skipped, ".." drops the last component and stays at the root. */
  function Walk(stack: seq<string>, c: string): (r: seq<string>) {
    if c == ".." then (if stack == [] then [] else stack[..|stack| - 1])
    else if c == "." then stack
    else stack + [c]
  }

  function Fold(stack: seq<string>, cs: seq<string>): (r: seq<string>)
    decreases |cs|
  {
    if cs == [] then stack else Fold(Walk(stack, cs[0]), cs[1..])
  }

  function Join(stack: seq<string>): (s: string) {
    if stack == [] then "" else Join(stack[..|stack| - 1]) + "/" + stack[|stack| - 1]
  }

  function Render(stack: seq<string>): (s: string) { if stack == [] then "/" else Join(stack) }

  function Normal(path: string): (s: string) { Render(Fold([], Components(path))) }

  /** Every component fits the name buffer of 16 bytes with its NUL. */
  predicate Short(cs: seq<string>) {
    cs == [] || (|cs[0]| <= 15 && Short(cs[1..]))
  }

  lemma {:induction false} ShortMeans(cs: seq<string>)
    ensures Short(cs) <==> forall c :: c in cs ==> |c| <= 15
  {
    if cs != [] {
      ShortMeans(cs[1..]);
      assert forall c :: c in cs <==> c == cs[0] || c in cs[1..];
    }
  }

  // ----- path_parse ---------------------------------------------------------------------------

  datatype Rest = NoRest | RestAt(i: nat)

  /** `path_parse` on the part of `path` from i on, absolute or relative: the first component,
      and where the next slash is.  A name of more than 15 characters overruns the callers'
      buffers of 16 bytes. */
  method PathParse(path: string, i: nat) returns (next: Rest, name: string)
    requires i <= |path|
    ensures name == "" <==> Components(path[i..]) == []
    ensures (Short(Components(path[i..])) ==> |name| <= 15) && '/' !in name
    ensures next.NoRest? ==> Components(path[i..]) == if name == "" then [] else [name]
    ensures next.RestAt? ==> i < next.i < |path| && path[next.i] == '/' && name != ""
                             && Components(path[i..]) == [name] + Components(path[next.i..])
  {
    var from := SkipSlashes(path, i);
    var k;
    k, name := TakeName(path, from);
    FirstName(path, from);
    if k == |path| {
      assert path[k..] == "";
      return NoRest, name;
    }
    next := RestAt(k);
  }

  method SkipSlashes(path: string, i: nat) returns (k: nat)
    requires i <= |path|
    ensures i <= k <= |path| && Components(path[k..]) == Components(path[i..])
    ensures k < |path| ==> path[k] != '/'
  {
    k := i;
    while k < |path| && path[k] == '/'
      invariant i <= k <= |path| && Components(path[k..]) == Components(path[i..])
    {
      SkipSlash(path, k);
      k := k + 1;
    }
  }

  method TakeName(path: string, from: nat) returns (k: nat, name: string)
    requires from <= |path|
    ensures from <= k <= |path| && name == Head(path[from..]) && k == from + |name|
    ensures k < |path| ==> path[k] == '/'
  {
    k, name := from, "";
    while k < |path| && path[k] != '/'
      invariant from <= k <= |path| && name == path[from..k]
      invariant k - from <= |Head(path[from..])|
    {
      HeadNext(path, from, k);
      name := name + [path[k]];
      k := k + 1;
    }
    HeadDone(path, from, k);
  }

  lemma SkipSlash(path: string, k: nat)
    requires k < |path| && path[k] == '/'
    ensures Components(path[k..]) == Components(path[k + 1..])
  {
    assert path[k..][1..] == path[k + 1..];
  }

  /** Where a component starts, the components are that one and those after it. */
  lemma FirstName(path: string, k: nat)
    requires k <= |path| && (k < |path| ==> path[k] != '/')
    ensures var n := Head(path[k..]);
            && (k == |path| ==> Components(path[k..]) == [] && n == "")
            && (k < |path| ==> n != "" && Components(path[k..]) == [n] + Components(path[k + |n|..]))
  {
    if k < |path| {
      var n := Head(path[k..]);
      assert path[k..][|n|..] == path[k + |n|..];
    }
  }

  lemma HeadNext(path: string, from: nat, k: nat)
    requires from <= k < |path| && path[k] != '/' && k - from <= |Head(path[from..])|
    ensures k + 1 - from <= |Head(path[from..])|
  {
    var n := Head(path[from..]);
    assert path[from..][k - from] == path[k];
  }

  lemma HeadDone(path: string, from: nat, k: nat)
    requires from <= k <= |path| && (k < |path| ==> path[k] == '/') && k - from <= |Head(path[from..])|
    ensures path[from..k] == Head(path[from..])
  {
    var n := Head(path[from..]);
    assert path[from..][..|n|] == n;
    if k - from < |n| {
      assert false;
    }
  }

  // ----- the buffer ---------------------------------------------------------------------------------

  /** strrchr(s, '/'): the index of the last slash. */
  method LastSlash(s: string) returns (k: nat)
    requires '/' in s
    ensures k < |s| && s[k] == '/' && '/' !in s[k + 1..]
  {
    var i := 0;
    k := |s|;
    while i < |s|
      invariant 0 <= i <= |s|
      invariant if k < |s| then k < i && s[k] == '/' && '/' !in s[k + 1..i] else k == |s| && '/' !in s[..i]
    {
      if s[i] == '/' {
        k := i;
        assert s[k + 1..i + 1] == "";
      } else {
        assert k < |s| ==> s[k + 1..i + 1] == s[k + 1..i] + [s[i]];
        assert s[..i + 1] == s[..i] + [s[i]];
      }
      i := i + 1;
    }
    assert s[..i] == s;
    assert k < |s| ==> s[k + 1..i] == s[k + 1..];
  }

  ghost predicate GoodPart(c: string) { c != "" && '/' !in c && c != "." && c != ".." }

  ghost predicate GoodStack(st: seq<string>) { forall i {:trigger st[i]} :: 0 <= i < |st| ==> GoodPart(st[i]) }

  /** The last slash of a rendered path is the one before its last component. */
  lemma CutLast(st: seq<string>, k: nat)
    requires GoodStack(st) && k < |Render(st)| && Render(st)[k] == '/' && '/' !in Render(st)[k + 1..]
    ensures k == 0 <==> |st| <= 1
    ensures |st| > 1 ==> Render(st)[..k] == Render(st[..|st| - 1])
    ensures Render(st)[..1] == "/"
  {
    if st != [] {
      var front, last := st[..|st| - 1], st[|st| - 1];
      var s := Join(st);
      assert s == Join(front) + "/" + last;
      JoinStarts(front);
      assert s[|Join(front)|] == '/';
      SlashAfter(Join(front), last, k);
      assert s[..k] == Join(front);
    }
  }

  /** In "front/last" the slash before `last` is the last one. */
  lemma SlashAfter(front: string, last: string, k: nat)
    requires '/' !in last && k < |front + "/" + last|
    requires (front + "/" + last)[k] == '/' && '/' !in (front + "/" + last)[k + 1..]
    ensures k == |front|
  {
    var s := front + "/" + last;
    assert s[|front|] == '/' && s[|front| + 1..] == last;
    if k < |front| {
      assert false;
    } else if k > |front| {
      assert false;
    }
  }

  lemma JoinStarts(st: seq<string>)
    ensures st != [] ==> Join(st) != "" && Join(st)[0] == '/'
    ensures st == [] <==> Join(st) == ""
  {
    if st != [] { JoinStarts(st[..|st| - 1]); }
  }

  lemma SlashIn(st: seq<string>)
    ensures Render(st)[..1] == "/" && '/' in Render(st)
  {
    JoinStarts(st);
    assert Render(st)[0] == '/';
  }

  lemma RootOnly(st: seq<string>)
    requires GoodStack(st)
    ensures Render(st) == "/" <==> st == []
  {
    if st != [] {
      assert GoodPart(st[|st| - 1]);
      assert |Join(st)| >= 2;
    }
  }

  lemma AppendPart(st: seq<string>, name: string)
    ensures Render(st + [name]) == (if st == [] then "/" else Render(st) + "/") + name
  {
    var longer := st + [name];
    assert longer[..|longer| - 1] == st && longer[|longer| - 1] == name;
    assert Join(longer) == Join(st) + "/" + name;
    if st == [] { assert "" + "/" == "/"; }
  }

  lemma GoodWalk(st: seq<string>, c: string)
    requires GoodStack(st) && c != "" && '/' !in c
    ensures GoodStack(Walk(st, c))
  {
  }

  /** The body of the loop: one component put into the buffer. */
  method WashStep(buf: string, name: string, ghost st: seq<string>) returns (out: string)
    requires buf == Render(st) && GoodStack(st) && name != "" && '/' !in name
    ensures out == Render(Walk(st, name))
  {
    out := buf;
    if name == ".." {
      SlashIn(st);
      var k := LastSlash(out);
      CutLast(st, k);
      if k != 0 { out := out[..k]; } else { out := out[..1]; }
    } else if name != "." {
      RootOnly(st);
      AppendPart(st, name);
      if out != "/" { out := out + "/"; }
      out := out + name;
    }
  }

  /** The components still to come: `name`, and those from `sub` on. */
  ghost function ToCome(path: string, sub: Rest, name: string): (cs: seq<string>)
    requires sub.RestAt? ==> sub.i <= |path|
  {
    if name == "" then [] else [name] + if sub.RestAt? then Components(path[sub.i..]) else []
  }

  lemma NextToCome(path: string, sub: Rest, name: string, st: seq<string>)
    requires (sub.RestAt? ==> sub.i <= |path|) && name != "" && Short(ToCome(path, sub, name))
    ensures var todo := ToCome(path, sub, name);
            && todo != [] && Short(todo[1..]) && Fold(st, todo) == Fold(Walk(st, name), todo[1..])
            && todo[1..] == if sub.RestAt? then Components(path[sub.i..]) else []
  {
    assert ToCome(path, sub, name)[0] == name;
  }

  /** `wash_path` on an absolute path whose components fit the name buffer. */
  method WashPath(old_path: string) returns (out: string)
    requires old_path != "" && old_path[0] == '/'
    requires Short(Components(old_path))
    ensures out == Normal(old_path)
  {
    assert old_path[0..] == old_path;
    var sub, name := PathParse(old_path, 0);
    if name == "" { return "/"; }
    out := "/";
    ghost var st: seq<string> := [];
    ghost var todo := ToCome(old_path, sub, name);
    assert todo == Components(old_path);
    while name != ""
      invariant out == Render(st) && GoodStack(st) && '/' !in name
      invariant sub.RestAt? ==> sub.i < |old_path| && old_path[sub.i] == '/'
      invariant todo == ToCome(old_path, sub, name) && Fold(st, todo) == Fold([], Components(old_path))
      invariant Short(todo)
      decreases |todo|
    {
      NextToCome(old_path, sub, name, st);
      out := WashStep(out, name, st);
      GoodWalk(st, name);
      st := Walk(st, name);
      todo := todo[1..];
      name := "";
      if sub.RestAt? {
        sub, name := PathParse(old_path, sub.i);
      }
    }
  }

  // ----- what the result is ---------------------------------------------------------------------------

  lemma {:induction false} ComponentsClean(s: string)
    ensures forall c :: c in Components(s) ==> c != "" && '/' !in c
    decreases |s|
  {
    if s == "" {
    } else if s[0] == '/' {
      ComponentsClean(s[1..]);
    } else {
      ComponentsClean(s[|Head(s)|..]);
    }
  }

  lemma {:induction false} FoldGood(st: seq<string>, cs: seq<string>)
    requires GoodStack(st) && forall c :: c in cs ==> c != "" && '/' !in c
    ensures GoodStack(Fold(st, cs))
    ensures forall c :: c in Fold(st, cs) ==> c in st || c in cs
    decreases |cs|
  {
    if cs != [] {
      assert cs[0] in cs && forall c :: c in cs[1..] ==> c in cs;
      GoodWalk(st, cs[0]);
      FoldGood(Walk(st, cs[0]), cs[1..]);
    }
  }

  /** Adding "/b" to a path adds the component b. */
  lemma {:induction false} ComponentsAppend(a: string, b: string)
    requires b != "" && '/' !in b
    ensures Components(a + "/" + b) == Components(a) + [b]
    decreases |a|
  {
    var s := a + "/" + b;
    if a == "" {
      assert s[1..] == b;
      HeadAll(b);
      assert b[|b|..] == "";
    } else if a[0] == '/' {
      assert s[1..] == a[1..] + "/" + b;
      ComponentsAppend(a[1..], b);
    } else {
      HeadPrefix(a, "/" + b);
      assert a + ("/" + b) == s;
      var n := |Head(a)|;
      assert s[n..] == a[n..] + "/" + b;
      ComponentsAppend(a[n..], b);
    }
  }

  lemma {:induction false} HeadAll(b: string)
    requires '/' !in b
    ensures Head(b) == b
  {
    if b != "" { HeadAll(b[1..]); }
  }

  lemma {:induction false} HeadPrefix(a: string, rest: string)
    requires rest != "" && rest[0] == '/'
    ensures Head(a + rest) == Head(a)
  {
    if a == "" {
      assert a + rest == rest;
    } else if a[0] != '/' {
      assert (a + rest)[1..] == a[1..] + rest;
      HeadPrefix(a[1..], rest);
    }
  }

  lemma {:induction false} ComponentsJoin(st: seq<string>)
    requires GoodStack(st)
    ensures Components(Join(st)) == st
  {
    if st != [] {
      var front, last := st[..|st| - 1], st[|st| - 1];
      ComponentsJoin(front);
      ComponentsAppend(Join(front), last);
      assert st == front + [last];
    }
  }

  /** Reading a rendered path gives its components back. */
  lemma ComponentsRender(st: seq<string>)
    requires GoodStack(st)
    ensures Components(Render(st)) == st
  {
    ComponentsJoin(st);
    if st == [] { assert "/"[1..] == ""; }
  }

  lemma {:induction false} FoldSelf(st: seq<string>, cs: seq<string>)
    requires GoodStack(cs)
    ensures Fold(st, cs) == st + cs
    decreases |cs|
  {
    if cs != [] {
      assert GoodPart(cs[0]);
      assert forall i {:trigger cs[1..][i]} :: 0 <= i < |cs| - 1 ==> cs[1..][i] == cs[i + 1];
      FoldSelf(st + [cs[0]], cs[1..]);
      assert st + [cs[0]] + cs[1..] == st + cs;
    }
  }

  /** The components of a washed path: all ordinary, and all from the path. */
  lemma NormalComponents(path: string)
    ensures GoodStack(Components(Normal(path)))
    ensures forall c :: c in Components(Normal(path)) ==> c in Components(path)
    ensures Normal(path) == Render(Components(Normal(path)))
  {
    ComponentsClean(path);
    FoldGood([], Components(path));
    ComponentsRender(Fold([], Components(path)));
  }

  /** Washing twice is washing once. */
  lemma NormalIdempotent(path: string)
    ensures Normal(Normal(path)) == Normal(path)
  {
    NormalComponents(path);
    var st := Components(Normal(path));
    FoldSelf([], st);
    assert [] + st == st;
  }

  // ----- one more component --------------------------------------------------------------------------

  lemma {:induction false} FoldLast(st: seq<string>, cs: seq<string>, c: string)
    ensures Fold(st, cs + [c]) == Walk(Fold(st, cs), c)
    decreases |cs|
  {
    if cs != [] {
      assert (cs + [c])[1..] == cs[1..] + [c];
      FoldLast(Walk(st, cs[0]), cs[1..], c);
    }
  }

  /** The stack of components that the buffer holds at the end. */
  ghost function Stack(path: string): (st: seq<string>) { Fold([], Components(path)) }

  lemma StackLast(p: string, c: string)
    requires c != "" && '/' !in c
    ensures Stack(p + "/" + c) == Walk(Stack(p), c)
    ensures GoodStack(Stack(p)) && Components(Normal(p)) == Stack(p)
    ensures GoodStack(Stack(p + "/" + c)) && Components(Normal(p + "/" + c)) == Stack(p + "/" + c)
  {
    ComponentsAppend(p, c);
    FoldLast([], Components(p), c);
    ComponentsClean(p);
    FoldGood([], Components(p));
    ComponentsRender(Stack(p));
    GoodWalk(Stack(p), c);
    ComponentsRender(Stack(p + "/" + c));
  }

  /** An ordinary component goes down one directory: it is added at the end. */
  lemma NormalDown(p: string, c: string)
    requires GoodPart(c)
    ensures Components(Normal(p + "/" + c)) == Components(Normal(p)) + [c]
    ensures Normal(p + "/" + c) == (if Normal(p) == "/" then "/" else Normal(p) + "/") + c
  {
    StackLast(p, c);
    RootOnly(Stack(p));
    AppendPart(Stack(p), c);
  }

  /** ".." after an ordinary component takes it away again; ".." at the root stays there. */
  lemma NormalUp(p: string, c: string)
    requires GoodPart(c)
    ensures Normal(p + "/" + c + "/..") == Normal(p)
    ensures Normal(p) == "/" ==> Normal(p + "/..") == "/"
  {
    StackLast(p, c);
    StackUp(p + "/" + c);
    assert (Stack(p) + [c])[..|Stack(p)|] == Stack(p);
    StackUp(p);
    RootOnly(Stack(p));
  }

  lemma StackUp(p: string)
    ensures Stack(p + "/..") == Walk(Stack(p), "..")
    ensures GoodStack(Stack(p)) && Components(Normal(p)) == Stack(p) && Components(Normal(p + "/..")) == Stack(p + "/..")
  {
    assert p + "/" + ".." == p + "/..";
    StackLast(p, "..");
  }

  /** In general ".." takes the last component of what was there. */
  lemma NormalParent(p: string)
    ensures var parts := Components(Normal(p));
            Components(Normal(p + "/..")) == if parts == [] then [] else parts[..|parts| - 1]
  {
    StackUp(p);
  }

  /** "." stays, and so does a slash. */
  lemma NormalDot(p: string)
    ensures Normal(p + "/.") == Normal(p) && Normal(p + "/") == Normal(p)
  {
    assert p + "/" + "." == p + "/.";
    StackLast(p, ".");
    TrailingSlash(p);
  }

  lemma {:induction false} TrailingSlash(p: string)
    ensures Components(p + "/") == Components(p)
    decreases |p|
  {
    if p == "" {
      assert (p + "/")[1..] == "";
    } else if p[0] == '/' {
      assert (p + "/")[1..] == p[1..] + "/";
      TrailingSlash(p[1..]);
    } else {
      HeadPrefix(p, "/");
      var n := |Head(p)|;
      assert (p + "/")[n..] == p[n..] + "/";
      TrailingSlash(p[n..]);
    }
  }

  /** The root, and its parent. */
  lemma NormalRoot()
    ensures Normal("/") == "/" && Normal("") == "/" && Normal("/..") == "/"
  {
    assert "" + "/" == "/" && "" + "/.." == "/..";
    StackUp("");
    TrailingSlash("");
  }

  /** No doubled slash, and none at the end but for the root. */
  ghost predicate CleanSlashes(s: string) {
    && s != "" && s[0] == '/'
    && (forall i {:trigger s[i]} :: 0 <= i < |s| - 1 && s[i] == '/' ==> s[i + 1] != '/')
    && (s[|s| - 1] == '/' ==> s == "/")
  }

  lemma {:induction false} JoinClean(st: seq<string>)
    requires GoodStack(st) && st != []
    ensures CleanSlashes(Join(st))
  {
    var front, last := st[..|st| - 1], st[|st| - 1];
    var a, s := Join(front), Join(st);
    assert s == a + "/" + last;
    assert last[|last| - 1] in last && last[0] in last && s[|s| - 1] == last[|last| - 1];
    if front != [] { JoinClean(front); }
    JoinStarts(st);
    assert front != [] ==> a[|a| - 1] != '/' by {
      if front != [] { assert GoodPart(front[|front| - 1]) && |a| >= 2; }
    }
    forall i | 0 <= i < |s| - 1 && s[i] == '/' ensures s[i + 1] != '/' {
      assert i < |a| ==> s[i] == a[i];
      assert i + 1 < |a| ==> s[i + 1] == a[i + 1];
      assert i == |a| ==> s[i + 1] == last[0];
      assert s[|a| + 1..] == last;
    }
  }

  /** The normal form of every path is clean. */
  lemma NormalClean(path: string)
    ensures CleanSlashes(Normal(path))
  {
    NormalComponents(path);
    var st := Components(Normal(path));
    if st != [] { JoinClean(st); }
  }

  /** What the components of a path need, each with its slash. */
  function Weight(cs: seq<string>): (n: nat) {
    if cs == [] then 0 else Weight(cs[..|cs| - 1]) + 1 + |cs[|cs| - 1]|
  }

  lemma {:induction false} WeightAppend(a: seq<string>, b: seq<string>)
    ensures Weight(a + b) == Weight(a) + Weight(b)
  {
    if b == [] {
      assert a + b == a;
    } else {
      var n := |b| - 1;
      assert (a + b)[..|a| + n] == a + b[..n];
      WeightAppend(a, b[..n]);
    }
  }

  lemma {:induction false} JoinWeight(st: seq<string>)
    ensures |Join(st)| == Weight(st)
  {
    if st != [] { JoinWeight(st[..|st| - 1]); }
  }

  lemma {:induction false} FoldWeight(st: seq<string>, cs: seq<string>)
    ensures Weight(Fold(st, cs)) <= Weight(st) + Weight(cs)
    decreases |cs|
  {
    if cs != [] {
      assert [cs[0]] + cs[1..] == cs;
      WeightAppend([cs[0]], cs[1..]);
      assert Weight([cs[0]]) == 1 + |cs[0]|;
      FoldWeight(Walk(st, cs[0]), cs[1..]);
      WeightAppend(st, [cs[0]]);
    }
  }

  /** Components with a slash each fit in the path; without a leading slash, in one more. */
  lemma {:induction false} ComponentsWeight(s: string)
    ensures Weight(Components(s)) <= |s| + (if s != "" && s[0] != '/' then 1 else 0)
    decreases |s|
  {
    if s == "" {
    } else if s[0] == '/' {
      ComponentsWeight(s[1..]);
    } else {
      var n := Head(s);
      ComponentsWeight(s[|n|..]);
      WeightAppend([n], Components(s[|n|..]));
      assert Weight([n]) == 1 + |n|;
    }
  }

  /** The result fits where the absolute path did. */
  lemma NormalFits(path: string)
    requires path != "" && path[0] == '/'
    ensures |Normal(path)| <= |path|
  {
    ComponentsWeight(path);
    FoldWeight([], Components(path));
    JoinWeight(Fold([], Components(path)));
  }
}
