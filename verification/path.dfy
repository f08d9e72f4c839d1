/** Absolute paths for the shell (GetAbsolutePath in shell/buildin_cmd.c). */
module Path {
  import opened Basics

  const MAX_PATH_LEN: nat := 256

  /** The length of the component a string begins with. */
  function WordLen(s: string): (n: nat)
    ensures n <= |s| && (n < |s| ==> s[n] == '/') && forall i :: 0 <= i < n ==> s[i] != '/'
  {
    if s == "" || s[0] == '/' then 0 else 1 + WordLen(s[1..])
  }

  /** The components of a path: what stands between slashes, if anything does. */
  function Components(s: string): (r: seq<string>)
    ensures forall c :: c in r ==> c != "" && '/' !in c
    decreases |s|
  {
    if s == "" then []
    else if s[0] == '/' then Components(s[1..])
    else
      assert WordLen(s) > 0;
      [s[..WordLen(s)]] + Components(s[WordLen(s)..])
  }

  /** One component met on the way: "." stays, ".." goes up unless at the top. */
  function Enter(st: seq<string>, c: string): seq<string>
  {
    if c == "." then st
    else if c == ".." then (if st == [] then [] else st[..|st| - 1])
    else st + [c]
  }

  function Walk(st: seq<string>, cs: seq<string>): seq<string>
    decreases |cs|
  {
    if cs == [] then st else Walk(Enter(st, cs[0]), cs[1..])
  }

  function Join(cs: seq<string>): string
  {
    if cs == [] then "" else "/" + cs[0] + Join(cs[1..])
  }

  function Shown(cs: seq<string>): string
  {
    if cs == [] then "/" else Join(cs)
  }

  /** The path that is taken apart: the given one, or the current directory's with the given one behind. */
  function Whole(path: string, cwd: Option<string>): string
  {
    if path != "" && path[0] == '/' then path
    else if cwd.None? then path
    else cwd.value + (if cwd.value == "/" then "" else "/") + path
  }

  /** What GetAbsolutePath puts into the buffer. */
  function Absolute(path: string, cwd: Option<string>): string
  {
    Shown(Walk([], Components(Whole(path, cwd))))
  }

  // ---------- What the result is ----------

  predicate Plain(c: string)
  {
    c != "" && c != "." && c != ".." && '/' !in c
  }

  lemma EnterIsPlain(st: seq<string>, c: string)
    requires (forall x :: x in st ==> Plain(x)) && c != "" && '/' !in c
    ensures forall x :: x in Enter(st, c) ==> Plain(x)
  {
    forall x | x in Enter(st, c) ensures Plain(x) {
      if x !in st { assert x == c; }
    }
  }

  lemma {:induction false} WalkIsPlain(st: seq<string>, cs: seq<string>)
    requires forall c :: c in st ==> Plain(c)
    requires forall c :: c in cs ==> c != "" && '/' !in c
    ensures forall c :: c in Walk(st, cs) ==> Plain(c)
    decreases |cs|
  {
    if cs != [] {
      assert cs[0] in cs;
      EnterIsPlain(st, cs[0]);
      hide Enter, Plain;
      assert forall c :: c in cs[1..] ==> c in cs;
      WalkIsPlain(Enter(st, cs[0]), cs[1..]);
    }
  }

  lemma {:induction false} WalkConcat(st: seq<string>, a: seq<string>, b: seq<string>)
    ensures Walk(st, a + b) == Walk(Walk(st, a), b)
    decreases |a|
  {
    if a == [] {
      assert a + b == b;
    } else {
      assert (a + b)[1..] == a[1..] + b;
      WalkConcat(Enter(st, a[0]), a[1..], b);
    }
  }

  lemma {:induction false} WalkPlain(st: seq<string>, cs: seq<string>)
    requires forall c :: c in cs ==> Plain(c)
    ensures Walk(st, cs) == st + cs
    decreases |cs|
  {
    if cs == [] {
      assert st + cs == st;
    } else {
      assert cs[0] in cs;
      WalkPlain(st + [cs[0]], cs[1..]);
      assert st + [cs[0]] + cs[1..] == st + cs;
    }
  }

  lemma {:induction false} WordLenOf(c: string, s: string)
    requires '/' !in c && (s == "" || s[0] == '/')
    ensures WordLen(c + s) == |c|
  {
    if c == "" {
      assert c + s == s;
    } else {
      assert (c + s)[1..] == c[1..] + s;
      WordLenOf(c[1..], s);
    }
  }

  /** A component followed by a slash, or by nothing, is the first one. */
  lemma ComponentsOfWord(c: string, s: string)
    requires c != "" && '/' !in c && (s == "" || s[0] == '/')
    ensures Components(c + s) == [c] + Components(s)
  {
    WordLenOf(c, s);
    assert (c + s)[..|c|] == c && (c + s)[|c|..] == s;
    assert (c + s)[0] == c[0] && c[0] in c;
  }

  /** Taking a joined path apart gives back what was joined. */
  lemma {:induction false} ComponentsOfJoin(cs: seq<string>)
    requires forall c :: c in cs ==> c != "" && '/' !in c
    ensures Components(Join(cs)) == cs
    decreases |cs|
  {
    if cs != [] {
      assert cs[0] in cs;
      var rest := Join(cs[1..]);
      assert rest == "" || rest[0] == '/';
      assert Join(cs)[1..] == cs[0] + rest;
      ComponentsOfWord(cs[0], rest);
      assert forall c :: c in cs[1..] ==> c in cs;
      ComponentsOfJoin(cs[1..]);
    }
  }

  lemma ComponentsOfShown(cs: seq<string>)
    requires forall c :: c in cs ==> c != "" && '/' !in c
    ensures Components(Shown(cs)) == cs
  {
    if cs == [] {
      assert "/"[1..] == "";
    } else {
      ComponentsOfJoin(cs);
    }
  }

  /** A path that does not begin with a slash begins with a component. */
  lemma FirstComponent(a: string)
    requires a != "" && a[0] != '/'
    ensures var c, rest := a[..WordLen(a)], a[WordLen(a)..];
            a == c + rest && c != "" && '/' !in c && (rest == "" || rest[0] == '/') && |rest| < |a|
  {}

  lemma ConcatAssoc(a: string, b: string, c: string)
    ensures (a + b) + c == a + (b + c)
  {}

  lemma RegroupComponents(c: string, x: seq<string>, y: seq<string>)
    ensures [c] + x + y == [c] + (x + y)
  {}

  lemma {:induction false} ComponentsSlash(a: string, b: string)
    requires b == "" || b[0] == '/'
    ensures Components(a + b) == Components(a) + Components(b)
    decreases |a|
  {
    if a == "" {
      assert a + b == b;
    } else if a[0] == '/' {
      assert (a + b)[1..] == a[1..] + b;
      ComponentsSlash(a[1..], b);
    } else {
      FirstComponent(a);
      var c, rest := a[..WordLen(a)], a[WordLen(a)..];
      hide Components, WordLen;
      ConcatAssoc(c, rest, b);
      ComponentsOfWord(c, rest + b);
      ComponentsOfWord(c, rest);
      ComponentsSlash(rest, b);
      RegroupComponents(c, Components(rest), Components(b));
    }
  }

  lemma LeadingSlash(s: string)
    ensures Components("/" + s) == Components(s)
  {
    assert ("/" + s)[1..] == s;
  }

  lemma WholeComponents(path: string, w: string)
    requires !(path != "" && path[0] == '/')
    ensures Components(Whole(path, Some(w))) == Components(w) + Components(path)
  {
    if w == "/" {
      assert w + "" + path == "/" + path;
      LeadingSlash(path);
      assert Components("/") == [] by { LeadingSlash(""); assert "/" + "" == "/"; }
    } else {
      ConcatAssoc(w, "/", path);
      ComponentsSlash(w, "/" + path);
      LeadingSlash(path);
    }
  }

  /** A relative path goes on from where the current directory's components lead; an absolute one starts
      at the top. */
  lemma RelativeContinues(path: string, cwd: Option<string>)
    ensures Absolute(path, cwd) ==
              if (path != "" && path[0] == '/') || cwd.None? then Shown(Walk([], Components(path)))
              else Shown(Walk(Walk([], Components(cwd.value)), Components(path)))
  {
    if !((path != "" && path[0] == '/') || cwd.None?) {
      hide Components, Walk, Shown, Whole;
      WholeComponents(path, cwd.value);
      WalkConcat([], Components(cwd.value), Components(path));
    }
  }

  /** The result is absolute and has no empty, "." or ".." component. */
  lemma ResultIsNormal(path: string, cwd: Option<string>)
    ensures Absolute(path, cwd) != "" && Absolute(path, cwd)[0] == '/'
    ensures forall c :: c in Components(Absolute(path, cwd)) ==> Plain(c)
    ensures Components(Absolute(path, cwd)) == Walk([], Components(Whole(path, cwd)))
  {
    WalkIsPlain([], Components(Whole(path, cwd)));
    ComponentsOfShown(Walk([], Components(Whole(path, cwd))));
  }

  /** Normalising twice is normalising once, wherever one stands. */
  lemma NormalisingTwice(path: string, cwd: Option<string>, cwd1: Option<string>)
    ensures Absolute(Absolute(path, cwd), cwd1) == Absolute(path, cwd)
  {
    ResultIsNormal(path, cwd);
    var cs := Components(Absolute(path, cwd));
    WalkPlain([], cs);
    assert [] + cs == cs;
  }

  /** One more component: "." changes nothing, ".." takes the last component away, if there is one, and
      any other is added. */
  lemma LastComponent(p: string, c: string, cwd: Option<string>)
    requires p != "" && c != "" && '/' !in c
    ensures var cs := Components(Absolute(p, cwd));
            Components(Absolute(p + "/" + c, cwd)) ==
              if c == "." then cs
              else if c == ".." then (if cs == [] then [] else cs[..|cs| - 1])
              else cs + [c]
  {
    ResultIsNormal(p, cwd);
    ResultIsNormal(p + "/" + c, cwd);
    var w := Whole(p, cwd);
    WholeGrows(p, c, cwd);
    hide Absolute, Whole, Components;
    ConcatAssoc(w, "/", c);
    ComponentsSlash(w, "/" + c);
    LeadingSlash(c);
    SingleComponent(c);
    WalkConcat([], Components(w), [c]);
    assert Walk(Walk([], Components(w)), [c]) == Enter(Walk([], Components(w)), c);
  }

  lemma WholeGrows(p: string, c: string, cwd: Option<string>)
    requires p != ""
    ensures Whole(p + "/" + c, cwd) == Whole(p, cwd) + "/" + c
  {
    if p[0] != '/' && cwd.Some? {
      var slash := if cwd.value == "/" then "" else "/";
      assert cwd.value + slash + (p + "/" + c) == cwd.value + slash + p + "/" + c;
    }
  }

  lemma SingleComponent(c: string)
    requires c != "" && '/' !in c
    ensures Components(c) == [c]
  {
    ComponentsOfWord(c, "");
    assert c + "" == c;
  }

  /** No slash follows another, and none is last but that of the top directory. */
  ghost predicate Tight(s: string)
  {
    forall i :: 0 <= i < |s| && s[i] == '/' ==> i + 1 < |s| && s[i + 1] != '/'
  }

  lemma {:induction false} JoinIsTight(cs: seq<string>)
    requires forall c :: c in cs ==> c != "" && '/' !in c
    ensures Tight(Join(cs))
  {
    if cs != [] {
      var c, rest := cs[0], Join(cs[1..]);
      assert c in cs && forall x :: x in cs[1..] ==> x in cs;
      JoinIsTight(cs[1..]);
      var s := "/" + c + rest;
      assert forall i :: 1 <= i <= |c| ==> s[i] == c[i - 1] && s[i] != '/';
      forall i | |c| < i < |s| && s[i] == '/' ensures i + 1 < |s| && s[i + 1] != '/' {
        assert s[i] == rest[i - |c| - 1];
      }
    }
  }

  lemma ResultIsTight(path: string, cwd: Option<string>)
    ensures Absolute(path, cwd) == "/" || Tight(Absolute(path, cwd))
  {
    ResultIsNormal(path, cwd);
    var cs := Walk([], Components(Whole(path, cwd)));
    hide Components, Walk, Whole, Tight;
    if cs != [] { JoinIsTight(cs); }
  }

  // ---------- The function as written ----------

  /** The string a pointer into the buffer stands for. */
  function StringAt(tmp: string, p: nat): (r: string)
    requires p <= |tmp|
    ensures p + |r| <= |tmp| && r == tmp[p..p + |r|] && (p + |r| < |tmp| ==> tmp[p + |r|] == '\0')
    ensures forall i :: 0 <= i < |r| ==> r[i] != '\0'
    decreases |tmp| - p
  {
    if p == |tmp| || tmp[p] == '\0' then "" else [tmp[p]] + StringAt(tmp, p + 1)
  }

  lemma {:induction false} StringIs(tmp: string, p: nat, c: string)
    requires p + |c| <= |tmp| && tmp[p..p + |c|] == c && '\0' !in c && (p + |c| == |tmp| || tmp[p + |c|] == '\0')
    ensures StringAt(tmp, p) == c
    decreases |c|
  {
    if c != "" {
      assert tmp[p] == c[0] && c[0] in c;
      assert tmp[p + 1..p + 1 + |c[1..]|] == c[1..];
      StringIs(tmp, p + 1, c[1..]);
      assert c == [c[0]] + c[1..];
    }
  }

  /** A terminator written behind the end of a string does not change it. */
  lemma TerminatorBehind(tmp: string, p: nat, k: nat)
    requires p <= |tmp| && p + |StringAt(tmp, p)| < k < |tmp|
    ensures StringAt(tmp[k := '\0'], p) == StringAt(tmp, p)
  {
    var c := StringAt(tmp, p);
    assert tmp[k := '\0'][p..p + |c|] == c;
    StringIs(tmp[k := '\0'], p, c);
  }

  ghost predicate StackHolds(tmp: string, stack: seq<nat>, st: seq<string>, str: nat)
  {
    |stack| == |st| && str <= |tmp| &&
    forall i :: 0 <= i < |stack| ==>
      stack[i] <= |tmp| && StringAt(tmp, stack[i]) == st[i] && (str < |tmp| ==> stack[i] + |st[i]| < str)
  }

  method GetAbsolutePath(path: string, cwd: Option<string>) returns (buf: string)
    requires '\0' !in path && (cwd.Some? ==> '\0' !in cwd.value) && |Whole(path, cwd)| <= MAX_PATH_LEN
    ensures buf == Absolute(path, cwd)
  {
    hide Components, Walk, Join, StackHolds;
    var tmp, stack: seq<nat>;
    ghost var st;
    tmp, stack, st := Scan(Whole(path, cwd));
    buf := JoinStack(tmp, stack, st);
    JoinIsEmpty(st);
    if buf == "" { buf := "/"; }
  }

  lemma JoinIsEmpty(cs: seq<string>)
    ensures Join(cs) == "" <==> cs == []
  {}

  /** The loop that takes the path apart in place. */
  method Scan(whole: string) returns (tmp: string, stack: seq<nat>, ghost st: seq<string>)
    requires '\0' !in whole
    ensures st == Walk([], Components(whole)) && StackHolds(tmp, stack, st, |tmp|)
  {
    hide Components, Walk;
    tmp, stack, st := whole, [], [];
    var str := 0;
    assert tmp[0..] == tmp;
    while str < |tmp|
      invariant 0 <= str <= |tmp| == |whole| && tmp[str..] == whole[str..]
      invariant Walk(st, Components(tmp[str..])) == Walk([], Components(whole))
      invariant StackHolds(tmp, stack, st, str)
    {
      if tmp[str] == '/' {
        SkipSlash(tmp, str);
        str := str + 1;
        AtSlash(tmp, stack, st, str);
      } else {
        str, tmp, stack, st := NextComponent(str, tmp, stack, st);
      }
    }
    NothingLeft(st);
    assert tmp[str..] == "";
  }

  lemma SkipSlash(tmp: string, str: nat)
    requires str < |tmp| && tmp[str] == '/'
    ensures Components(tmp[str..]) == Components(tmp[str + 1..])
  {
    assert tmp[str..][1..] == tmp[str + 1..];
  }

  lemma AtSlash(tmp: string, stack: seq<nat>, st: seq<string>, str: nat)
    requires 0 < str <= |tmp| && StackHolds(tmp, stack, st, str - 1)
    ensures StackHolds(tmp, stack, st, str)
  {}

  lemma NothingLeft(st: seq<string>)
    ensures Walk(st, Components("")) == st
  {}

  /** The loop that puts the components together. */
  method JoinStack(tmp: string, stack: seq<nat>, ghost st: seq<string>) returns (buf: string)
    requires StackHolds(tmp, stack, st, |tmp|)
    ensures buf == Join(st)
  {
    hide Join, StringAt;
    var i := 0;
    buf := "";
    assert st[0..] == st;
    while i < |stack|
      invariant 0 <= i <= |stack| == |st| && Join(st) == buf + Join(st[i..])
    {
      JoinStep(st, i);
      Append(buf, st[i], Join(st[i + 1..]));
      buf := buf + "/" + StringAt(tmp, stack[i]);
      i := i + 1;
    }
    JoinOfNone(st[i..]);
  }

  lemma Append(buf: string, c: string, rest: string)
    ensures buf + ("/" + c + rest) == buf + "/" + c + rest
  {}

  lemma JoinOfNone(cs: seq<string>)
    requires |cs| == 0
    ensures Join(cs) == ""
  {}

  lemma JoinStep(st: seq<string>, i: nat)
    requires i < |st|
    ensures Join(st[i..]) == "/" + st[i] + Join(st[i + 1..])
  {
    assert st[i..][1..] == st[i + 1..];
  }

  /** The string just cut off, and those on the stack before it. */
  lemma CutOff(tmp0: string, stack0: seq<nat>, st0: seq<string>, str0: nat, n: nat)
    requires StackHolds(tmp0, stack0, st0, str0) && str0 < n <= |tmp0| && '\0' !in tmp0[str0..]
    ensures var tmp := if n < |tmp0| then tmp0[n := '\0'] else tmp0;
            var str := if n < |tmp0| then n + 1 else n;
            StackHolds(tmp, stack0 + [str0], st0 + [tmp0[str0..n]], str)
  {
    var tmp := if n < |tmp0| then tmp0[n := '\0'] else tmp0;
    var c := tmp0[str0..n];
    assert tmp[str0..str0 + |c|] == c;
    assert forall i :: 0 <= i < |c| ==> c[i] == tmp0[str0..][i];
    StringIs(tmp, str0, c);
    forall i | 0 <= i < |stack0| ensures StringAt(tmp, stack0[i]) == st0[i] {
      if n < |tmp0| { TerminatorBehind(tmp0, stack0[i], n); }
    }
  }

  lemma PoppedHolds(tmp: string, stack: seq<nat>, st: seq<string>, str: nat, k: nat)
    requires StackHolds(tmp, stack, st, str) && k <= |stack|
    ensures StackHolds(tmp, stack[..k], st[..k], str)
  {}

  lemma ComponentsCut(s: string, n: nat)
    requires s != "" && s[0] != '/' && n == WordLen(s)
    ensures n > 0 && Components(s) == [s[..n]] + Components(if n < |s| then s[n + 1..] else "")
  {
    if n < |s| { assert s[n..][1..] == s[n + 1..]; }
  }

  lemma {:induction false} WordLenIs(s: string, n: nat)
    requires n <= |s| && (forall i :: 0 <= i < n ==> s[i] != '/') && (n < |s| ==> s[n] == '/')
    ensures WordLen(s) == n
  {
    if n > 0 { WordLenIs(s[1..], n - 1); }
  }

  /** The else-branch of the scan: push a component, cut it off, and pop for "." and "..". */
  method NextComponent(str0: nat, tmp0: string, stack0: seq<nat>, ghost st0: seq<string>)
    returns (str: nat, tmp: string, stack: seq<nat>, ghost st: seq<string>)
    requires str0 < |tmp0| && tmp0[str0] != '/' && '\0' !in tmp0[str0..] && StackHolds(tmp0, stack0, st0, str0)
    ensures str0 < str <= |tmp0| == |tmp| && tmp[str..] == tmp0[str..]
    ensures Walk(st, Components(tmp[str..])) == Walk(st0, Components(tmp0[str0..]))
    ensures StackHolds(tmp, stack, st, str)
  {
    hide StackHolds, Components, Walk, WordLen, StringAt, Kept, Enter;
    str, tmp, stack := str0, tmp0, stack0 + [str0];
    while str < |tmp| && tmp[str] != '/'
      invariant str0 <= str <= |tmp| && (str == str0 ==> tmp[str] != '/')
      invariant forall i :: str0 <= i < str ==> tmp[i] != '/'
    {
      str := str + 1;
    }
    ghost var c, rest := tmp0[str0..str], if str < |tmp0| then tmp0[str + 1..] else "";
    CutOff(tmp0, stack0, st0, str0, str);
    CutAndWalk(tmp0, st0, str0, str);
    if str < |tmp| {
      tmp := tmp[str := '\0'];
      str := str + 1;
    }
    st := st0 + [c];
    TopOfStack(tmp, stack, st, str);
    var top := StringAt(tmp, stack[|stack| - 1]);
    var ptr := Kept(top, |stack|);
    PoppedHolds(tmp, stack, st, str, ptr);
    KeptIsEntered(st0, c);
    stack, st := stack[..ptr], st[..ptr];
    assert tmp[str..] == tmp0[str..] == rest;
  }

  /** How much of the stack stays when `top` lies on it. */
  function Kept(top: string, ptr: nat): (r: nat)
    requires ptr > 0
    ensures r <= ptr
  {
    if top == "." then ptr - 1 else if top == ".." then (if ptr >= 2 then ptr - 2 else 0) else ptr
  }

  lemma KeptIsEntered(st: seq<string>, c: string)
    ensures (st + [c])[..Kept(c, |st| + 1)] == Enter(st, c)
  {}

  lemma TopOfStack(tmp: string, stack: seq<nat>, st: seq<string>, str: nat)
    requires StackHolds(tmp, stack, st, str) && stack != []
    ensures |stack| == |st| && stack[|stack| - 1] <= |tmp| && StringAt(tmp, stack[|stack| - 1]) == st[|st| - 1]
  {}

  lemma WalkOne(st: seq<string>, c: string, cs: seq<string>)
    ensures Walk(st, [c] + cs) == Walk(Enter(st, c), cs)
  {
    assert ([c] + cs)[1..] == cs;
  }

  lemma CutAndWalk(tmp: string, st: seq<string>, str0: nat, n: nat)
    requires str0 < n <= |tmp| && (forall i :: str0 <= i < n ==> tmp[i] != '/') && (n < |tmp| ==> tmp[n] == '/')
    ensures var rest := if n < |tmp| then tmp[n + 1..] else "";
            Walk(st, Components(tmp[str0..])) == Walk(Enter(st, tmp[str0..n]), Components(rest))
  {
    hide Components, Walk, Enter;
    CutComponents(tmp, str0, n);
    WalkOne(st, tmp[str0..n], Components(if n < |tmp| then tmp[n + 1..] else ""));
  }

  lemma CutComponents(tmp: string, str0: nat, n: nat)
    requires str0 < n <= |tmp| && (forall i :: str0 <= i < n ==> tmp[i] != '/') && (n < |tmp| ==> tmp[n] == '/')
    ensures Components(tmp[str0..]) == [tmp[str0..n]] + Components(if n < |tmp| then tmp[n + 1..] else "")
  {
    var s := tmp[str0..];
    WordLenIs(s, n - str0);
    ComponentsCut(s, n - str0);
    assert s[..n - str0] == tmp[str0..n];
    if n < |tmp| { assert s[n - str0 + 1..] == tmp[n + 1..]; }
  }
}
