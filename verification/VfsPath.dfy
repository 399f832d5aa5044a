/**
  Paths of the virtual file system, CORE/VFS/path.cpp: splitting, appending and
  stripping, and the resolution of "." and ".." by a walk from right to left.

  A path is the text m_path of the class; all its separators are '/'.
 */
module VfsPath {
  import opened Basics

  // ---------------------------------------------------------------- pieces

  /** Index of the last separator among the first n characters, or -1. */
  function LastSep(s: string, n: nat): (k: int)
    requires n <= |s|
    ensures -1 <= k < n
    ensures k >= 0 ==> s[k] == '/'
    ensures forall i :: k < i < n ==> s[i] != '/'
  {
    if n == 0 then -1 else if s[n - 1] == '/' then n - 1 else LastSep(s, n - 1)
  }

  function File(p: string): string { p[LastSep(p, |p|) + 1..] }

  function Dir(p: string): string { var k := LastSep(p, |p|); if k >= 0 then p[..k + 1] else "./" }

  /** operator+: only a directory can be appended to. */
  function Plus(p: string, other: string): string {
    if File(p) != "" then "" else if p == "./" then other else p + other
  }

  predicate IsParent(p: string, other: string) { p <= other }

  /** stripParent, for a parent that is a directory. */
  function StripParent(p: string, parent: string): string
    requires File(parent) == "" && IsParent(parent, p)
  {
    p[|parent|..]
  }

  lemma {:induction false} DirAndFile(p: string)
    ensures '/' in p ==> Dir(p) + File(p) == p
    ensures '/' !in p ==> File(p) == p
    ensures '/' !in File(p)
  {
    if LastSep(p, |p|) < 0 { assert File(p) == p; }
  }

  /** Appending to a directory and stripping it again is the identity, except for "./", which is dropped. */
  lemma StripUndoesPlus(d: string, p: string)
    requires File(d) == ""
    ensures IsParent(d, Plus(d, p)) && StripParent(Plus(d, p), d) == p <==> d != "./"
  {
    if d != "./" { assert (d + p)[..|d|] == d && (d + p)[|d|..] == p; }
  }

  /** Nothing can be appended to a path that does not end in a separator; "./" in front is dropped. */
  lemma AppendsToDirectories(p: string, other: string)
    ensures p != "" && p[|p| - 1] != '/' ==> Plus(p, other) == ""
    ensures p == "" || (p[|p| - 1] == '/' && p != "./") ==> Plus(p, other) == p + other
    ensures Plus("./", other) == other
  {
    assert LastSep("./", 2) == 1;
  }

  /** cleanPath: both kinds of separators become '/'. */
  method CleanPath(s: string) returns (r: string)
    ensures |r| == |s| && forall i :: 0 <= i < |s| ==> r[i] == if s[i] == '\\' then '/' else s[i]
  {
    var text := new char[|s|];
    for x := 0 to |s|
      invariant forall i :: 0 <= i < x ==> text[i] == if s[i] == '\\' then '/' else s[i]
    {
      text[x] := if s[x] == '\\' || s[x] == '/' then '/' else s[x];
    }
    r := text[..];
  }

  // ---------------------------------------------------- the normal form of a path

  /** Directory text, here and below the first n characters of d: empty or ending with a separator. */
  predicate IsDirs(d: string, n: nat) { n <= |d| && (n == 0 || d[n - 1] == '/') }

  /** Where the last component starts. */
  function Cut(d: string, n: nat): (k: nat)
    requires IsDirs(d, n) && n > 0
    ensures k < n && IsDirs(d, k)
  {
    LastSep(d, n - 1) + 1
  }

  function Last(d: string, n: nat): string
    requires IsDirs(d, n) && n > 0
  {
    d[Cut(d, n)..n - 1]
  }

  /** The components of a directory text, without a leading separator. */
  function Components(d: string, n: nat): seq<string>
    requires IsDirs(d, n)
  {
    if n == 0 || (n == 1 && d[0] == '/') then [] else Components(d, Cut(d, n)) + [Last(d, n)]
  }

  function Join(cs: seq<string>): string {
    if cs == [] then "" else Join(cs[..|cs| - 1]) + cs[|cs| - 1] + "/"
  }

  /** Left to right: "." stays, ".." drops the last name and fails if there is none. */
  function Normal(cs: seq<string>): Option<seq<string>> {
    if cs == [] then Some([])
    else
      var c := cs[|cs| - 1];
      match Normal(cs[..|cs| - 1])
      case None => None
      case Some(names) =>
        if c == "." then Some(names)
        else if c == ".." then (if names == [] then None else Some(names[..|names| - 1]))
        else Some(names + [c])
  }

  /** Does "./" occur anywhere? */
  predicate HasDots(p: string) { exists i :: 0 <= i < |p| - 1 && p[i] == '.' && p[i + 1] == '/' }

  /** The resolved path. */
  function Resolved(p: string): string {
    if p == "" || !HasDots(p) then p
    else
      DirIsDirs(p);
      match Normal(Components(Dir(p), |Dir(p)|))
      case None => ""
      case Some(names) => Join(names) + File(p)
  }

  lemma DirIsDirs(p: string)
    ensures IsDirs(Dir(p), |Dir(p)|)
  {
  }

  // ------------------------------------------------------- the walk from the right

  /** What a walk gives that still has n characters of d to see, skip names to drop and the text tail kept. */
  function Outcome(d: string, n: nat, skip: nat, tail: string): Option<string>
    requires IsDirs(d, n)
  {
    match Normal(Components(d, n))
    case None => None
    case Some(names) => if skip <= |names| then Some(Join(names[..|names| - skip]) + tail) else None
  }

  lemma {:induction false} SeesDot(d: string, n: nat, skip: nat, tail: string)
    requires IsDirs(d, n) && n > 1 && Last(d, n) == "."
    ensures Outcome(d, n, skip, tail) == Outcome(d, Cut(d, n), skip, tail)
  {
  }

  lemma {:induction false} SeesDotDot(d: string, n: nat, skip: nat, tail: string)
    requires IsDirs(d, n) && n > 1 && Last(d, n) == ".."
    ensures Outcome(d, n, skip, tail) == Outcome(d, Cut(d, n), skip + 1, tail)
  {
    match Normal(Components(d, Cut(d, n)))
    case None =>
    case Some(names) =>
      if 0 < |names| && skip < |names| {
        assert names[..|names| - 1][..|names| - 1 - skip] == names[..|names| - (skip + 1)];
      }
  }

  lemma {:induction false} SkipsName(d: string, n: nat, skip: nat, tail: string)
    requires IsDirs(d, n) && n > 1 && Last(d, n) != "." && Last(d, n) != ".." && skip > 0
    ensures Outcome(d, n, skip, tail) == Outcome(d, Cut(d, n), skip - 1, tail)
  {
    match Normal(Components(d, Cut(d, n)))
    case None =>
    case Some(names) =>
      var all := names + [Last(d, n)];
      if skip <= |all| { assert all[..|all| - skip] == names[..|names| - (skip - 1)]; }
  }

  lemma {:induction false} KeepsName(d: string, n: nat, tail: string)
    requires IsDirs(d, n) && n > 1 && Last(d, n) != "." && Last(d, n) != ".."
    ensures Outcome(d, n, 0, tail) == Outcome(d, Cut(d, n), 0, Last(d, n) + "/" + tail)
  {
    match Normal(Components(d, Cut(d, n)))
    case None =>
    case Some(names) =>
      var c := Last(d, n);
      assert (names + [c])[..|names| + 1] == names + [c] && names[..|names|] == names;
      JoinOne(names, c, tail);
  }

  lemma {:induction false} JoinOne(names: seq<string>, c: string, tail: string)
    ensures Join(names + [c]) + tail == Join(names) + (c + "/" + tail)
  {
    assert (names + [c])[..|names|] == names;
    assert Join(names) + c + "/" + tail == Join(names) + (c + "/" + tail);
  }

  lemma {:induction false} NothingLeft(d: string, n: nat, skip: nat, tail: string)
    requires IsDirs(d, n) && n <= 1
    ensures Outcome(d, n, skip, tail) == if skip == 0 then Some(tail) else None
  {
    assert Join([]) + tail == tail;
  }

  lemma DotText(c: string, dots: string)
    ensures c + "/" == dots + "/" <==> c == dots
  {
    if c + "/" == dots + "/" { assert c == (c + "/")[..|c|] == (dots + "/")[..|dots|] == dots; }
  }

  /**
    What one turn of the walk does with a component: the separator at its end is
    iter, the one before it is next; more and less are skip + 1 and skip - 1.
   */
  lemma {:induction false} Turn(d: string, n: nat, iter: nat, next: int, rest: nat, skip: nat, more: nat, less: int,
      tail: string)
    requires IsDirs(d, n) && n == iter + 1 && iter > 0 && next == LastSep(d, iter) && rest == next + 1
    requires more == skip + 1 && less == skip - 1
    ensures rest <= iter && IsDirs(d, rest)
    ensures var cur := d[rest..n];
      && (cur == "./" ==> Outcome(d, n, skip, tail) == Outcome(d, rest, skip, tail))
      && (cur == "../" ==> Outcome(d, n, skip, tail) == Outcome(d, rest, more, tail))
      && (cur != "./" && cur != "../" && skip > 0 ==> Outcome(d, n, skip, tail) == Outcome(d, rest, less, tail))
      && (cur != "./" && cur != "../" && skip == 0 ==> Outcome(d, n, skip, tail) == Outcome(d, rest, skip, cur + tail))
  {
    var c := Last(d, n);
    assert rest == Cut(d, n) && d[rest..n] == c + "/";
    DotText(c, ".");
    DotText(c, "..");
    if c == "." { SeesDot(d, n, skip, tail); }
    else if c == ".." { SeesDotDot(d, n, skip, tail); }
    else if skip > 0 { SkipsName(d, n, skip, tail); }
    else { KeepsName(d, n, tail); }
  }

  /**
    The walk over the directories from right to left with a counter of names to
    drop.  The first component is treated apart: ".." there fails at once.
   */
  method Walk(olddirs: string) returns (ok: bool, newdirs: string)
    requires IsDirs(olddirs, |olddirs|)
    ensures Outcome(olddirs, |olddirs|, 0, "") == if ok then Some(newdirs) else None
  {
    var iter, skip: nat := |olddirs| - 1, 0;
    ok, newdirs := true, "";
    ghost var all, n: nat := Outcome(olddirs, |olddirs|, 0, ""), |olddirs|;
    while iter > 0
      invariant -1 <= iter && n == iter + 1 && IsDirs(olddirs, n)
      invariant if ok then all == Outcome(olddirs, n, skip, newdirs) else n == 0 && all == None
    {
      var iterNext := LastSep(olddirs, iter);
      var curDir := olddirs[iterNext + 1..iter + 1];
      var more, less := skip + 1, skip - 1;
      ghost var rest := iterNext + 1;
      assert curDir == olddirs[rest..n];
      Turn(olddirs, n, iter, iterNext, rest, skip, more, less, newdirs);
      iter, n := iterNext, rest;
      if iterNext != -1 {
        if curDir == "./" { continue; }
        if curDir == "../" {
          skip := more;
          continue;
        }
      }
      if curDir == "../" {
        NothingLeft(olddirs, n, more, newdirs);
        ok := false;
      } else if curDir == "./" {
        curDir := "";
        assert curDir + newdirs == newdirs;
      } else if skip > 0 {
        skip := less;
        continue;
      }
      newdirs := curDir + newdirs;
    }
    if ok { NothingLeft(olddirs, n, skip, newdirs); }
    ghost var fine, kept := ok, newdirs;
    for i := 0 to skip
      invariant ok == (fine && i == 0) && (i == 0 ==> newdirs == kept)
    {
      newdirs := "../" + newdirs;
      ok := false;
    }
  }

  lemma {:induction false} WalkedWhole(d: string, n: nat)
    requires IsDirs(d, n)
    ensures Outcome(d, n, 0, "") ==
      match Normal(Components(d, n))
      case None => None
      case Some(names) => Some(Join(names))
  {
    match Normal(Components(d, n))
    case None =>
    case Some(names) => assert names[..|names|] == names && Join(names) + "" == Join(names);
  }

  method Resolve(p: string) returns (r: string)
    ensures r == Resolved(p)
  {
    if p == "" || !HasDots(p) { return p; }
    DirIsDirs(p);
    WalkedWhole(Dir(p), |Dir(p)|);
    var ok, newdirs := Walk(Dir(p));
    r := if ok then newdirs + File(p) else "";
  }

  // ------------------------------------------------------- what resolution means

  /** Names minus "..". */
  function Depth(cs: seq<string>): int {
    if cs == [] then 0
    else Depth(cs[..|cs| - 1]) + (var c := cs[|cs| - 1]; if c == "." then 0 else if c == ".." then -1 else 1)
  }

  ghost predicate ClimbsOut(cs: seq<string>) { exists i :: 0 <= i <= |cs| && Depth(cs[..i]) < 0 }

  /** Resolution fails exactly if some directory prefix has more ".." than names; otherwise their difference remains. */
  lemma {:induction false} FailsIffClimbsOut(cs: seq<string>)
    ensures Normal(cs).None? <==> ClimbsOut(cs)
    ensures Normal(cs).Some? ==> |Normal(cs).value| == Depth(cs)
  {
    if cs == [] {
      assert Depth(cs[..0]) == 0;
    } else {
      var init := cs[..|cs| - 1];
      FailsIffClimbsOut(init);
      assert cs[..|cs|] == cs;
      assert forall i :: 0 <= i <= |init| ==> init[..i] == cs[..i];
      if ClimbsOut(init) {
        var i :| 0 <= i <= |init| && Depth(init[..i]) < 0;
        assert Depth(cs[..i]) < 0;
      }
      forall i | 0 <= i <= |cs| && Depth(cs[..i]) < 0 ensures i == |cs| || Depth(init[..i]) < 0 {
      }
      if Depth(cs) < 0 { assert Depth(cs[..|cs|]) < 0; }
    }
  }

  predicate IsName(c: string) { c != "." && c != ".." }

  ghost predicate Names(cs: seq<string>) { forall c :: c in cs ==> IsName(c) }

  ghost predicate Plain(cs: seq<string>) { forall c :: c in cs ==> '/' !in c }

  /** The normal form holds names of the path only. */
  lemma {:induction false} NormalHasNames(cs: seq<string>, c: string)
    requires Normal(cs).Some? && c in Normal(cs).value
    ensures c in cs && IsName(c)
  {
    if cs != [] {
      var init, last := cs[..|cs| - 1], cs[|cs| - 1];
      if c in Normal(init).value { NormalHasNames(init, c); }
    }
  }

  lemma {:induction false} NormalIsNoLonger(cs: seq<string>)
    requires Normal(cs).Some?
    ensures |Join(Normal(cs).value)| <= |Join(cs)|
  {
    if cs != [] {
      var init, last := cs[..|cs| - 1], cs[|cs| - 1];
      NormalIsNoLonger(init);
      var names := Normal(init).value;
      if IsName(last) { assert (names + [last])[..|names|] == names; }
    }
  }

  lemma {:induction false} CleanIsNormal(names: seq<string>)
    requires Names(names)
    ensures Normal(names) == Some(names)
  {
    if names != [] {
      assert names[|names| - 1] in names;
      CleanIsNormal(names[..|names| - 1]);
      assert names[..|names| - 1] + [names[|names| - 1]] == names;
    }
  }

  lemma {:induction false} NormalOfRest(a: seq<string>, a': seq<string>, b: seq<string>)
    requires Normal(a) == Normal(a')
    ensures Normal(a + b) == Normal(a' + b)
    decreases |b|
  {
    if b == [] {
      assert a + b == a && a' + b == a';
    } else {
      var init := b[..|b| - 1];
      assert (a + b)[..|a + b| - 1] == a + init && (a' + b)[..|a' + b| - 1] == a' + init;
      NormalOfRest(a, a', init);
    }
  }

  /**
    Wherever they stand, a "." can be dropped, and so can a name with the ".."
    behind it; a ".." at the beginning leads nowhere.
   */
  lemma {:induction false} DotsCanBeDropped(a: seq<string>, c: string, b: seq<string>)
    ensures Normal(a + ["."] + b) == Normal(a + b)
    ensures c != "." && c != ".." ==> Normal(a + [c, ".."] + b) == Normal(a + b)
    ensures Normal([".."] + b) == None
  {
    assert (a + ["."])[..|a|] == a;
    NormalOfRest(a + ["."], a, b);
    if c != "." && c != ".." {
      var up := a + [c, ".."];
      assert up[..|a| + 1] == a + [c] && (a + [c])[..|a|] == a;
      assert Normal(a).Some? ==> (Normal(a).value + [c])[..|Normal(a).value|] == Normal(a).value;
      assert Normal(up) == Normal(a);
      NormalOfRest(up, a, b);
    }
    StaysNone(b);
  }

  lemma {:induction false} StaysNone(b: seq<string>)
    ensures Normal([".."] + b) == None
    decreases |b|
  {
    var cs := [".."] + b;
    if b == [] {
      assert cs[..0] == [];
    } else {
      assert cs[..|cs| - 1] == [".."] + b[..|b| - 1];
      StaysNone(b[..|b| - 1]);
    }
  }

  lemma {:induction false} ComponentsArePlain(d: string, n: nat)
    requires IsDirs(d, n)
    ensures Plain(Components(d, n))
  {
    if n > 1 || (n == 1 && d[0] != '/') { ComponentsArePlain(d, Cut(d, n)); }
  }

  function Leading(d: string, n: nat): (lo: nat)
    requires n <= |d|
    ensures lo <= n
  {
    if n > 0 && d[0] == '/' then 1 else 0
  }

  /** Joining the components gives the directory text back, without a leading separator. */
  lemma {:induction false} ComponentsJoin(d: string, n: nat)
    requires IsDirs(d, n)
    ensures Join(Components(d, n)) == d[Leading(d, n)..n]
  {
    if n > 1 || (n == 1 && d[0] != '/') {
      var k, lo := Cut(d, n), Leading(d, n);
      var init, c := Components(d, k), Last(d, n);
      assert d[0] == '/' ==> LastSep(d, n - 1) >= 0;
      ComponentsJoin(d, k);
      assert Join(init) == d[lo..k];
      JoinLast(init, c);
      Glue(d, lo, k, n);
      assert Components(d, n) == init + [c];
    }
  }

  lemma {:induction false} JoinLast(cs: seq<string>, c: string)
    ensures Join(cs + [c]) == Join(cs) + c + "/"
  {
    assert (cs + [c])[..|cs|] == cs;
  }

  lemma Glue(d: string, lo: nat, k: nat, n: nat)
    requires lo <= k < n <= |d| && d[n - 1] == '/'
    ensures d[lo..k] + d[k..n - 1] + "/" == d[lo..n]
  {
  }

  lemma {:induction false} JoinStarts(cs: seq<string>)
    requires cs != []
    ensures Join(cs) != "" && Join(cs)[0] == (cs[0] + "/")[0]
  {
    if |cs| > 1 { JoinStarts(cs[..|cs| - 1]); }
  }

  lemma {:induction false} LastSepIn(s: string, n: nat, k: nat)
    requires k < n <= |s| && s[k] == '/' && '/' !in s[k + 1..n]
    ensures LastSep(s, n) == k
  {
    assert forall i :: k < i < n ==> s[i] == s[k + 1..n][i - k - 1];
  }

  lemma {:induction false} LastOfJoin(init: string, c: string, s: string, n: nat)
    requires '/' !in c && n == |init| + |c| + 1 && n <= |s| && s[..n] == init + c + "/"
    requires IsDirs(s, |init|)
    ensures IsDirs(s, n) && Cut(s, n) == |init| && Last(s, n) == c
  {
    var k, m := |init|, n - 1;
    assert s[..n][k..m] == s[k..m] == c && s[n - 1] == s[..n][n - 1];
    if k > 0 { LastSepIn(s, m, k - 1); } else { LastSepNone(s, m); }
  }

  /** Joined components are found again if the first one is not empty. */
  lemma {:induction false} ComponentsOfJoin(cs: seq<string>, s: string)
    requires Plain(cs) && Join(cs) <= s && (cs != [] ==> cs[0] != "")
    ensures IsDirs(s, |Join(cs)|) && Components(s, |Join(cs)|) == cs
  {
    if cs != [] {
      var init, c := cs[..|cs| - 1], cs[|cs| - 1];
      var i, j := Join(init), Join(cs);
      assert c in cs && j == i + c + "/" && i <= j;
      ComponentsOfJoin(init, s);
      JoinStarts(cs);
      assert s[..|j|] == j && s[0] == j[0];
      LastOfJoin(i, c, s, |j|);
      assert cs == init + [c];
    }
  }

  /** Dots in front of a separator are where "." and ".." components show. */
  lemma {:induction false} NoDotsNoWork(d: string, n: nat)
    requires IsDirs(d, n) && !HasDots(d)
    ensures Names(Components(d, n))
  {
    if n > 1 || (n == 1 && d[0] != '/') {
      NoDotsNoWork(d, Cut(d, n));
      var c := Last(d, n);
      assert c != "" ==> d[n - 2] == c[|c| - 1];
    }
  }

  /** Without "./" in it, the directories of a relative path are their own normal form. */
  lemma {:induction false} NothingToDo(p: string)
    requires '/' in p && p[0] != '/' && !HasDots(p)
    ensures IsDirs(Dir(p), |Dir(p)|) && Normal(Components(Dir(p), |Dir(p)|)) == Some(Components(Dir(p), |Dir(p)|))
    ensures Join(Components(Dir(p), |Dir(p)|)) + File(p) == p
  {
    var d := Dir(p);
    DirIsDirs(p);
    DirAndFile(p);
    assert !HasDots(d) by { assert forall i :: 0 <= i < |d| ==> d[i] == p[i]; }
    NoDotsNoWork(d, |d|);
    ComponentsJoin(d, |d|);
    assert d[..|d|] == d;
    CleanIsNormal(Components(d, |d|));
  }

  lemma {:induction false} DotDirectory(d: string)
    requires |d| == 2 && d[0] == '.' && d[1] == '/'
    ensures IsDirs(d, 2) && Normal(Components(d, 2)) == Some([])
  {
    LastSepNone(d, 1);
    assert Cut(d, 2) == 0 && Last(d, 2) == ".";
    var cs := Components(d, 2);
    assert Components(d, 0) == [] && cs == [] + [Last(d, 2)];
    assert cs[0] == "." && cs[..0] == [];
  }

  lemma {:induction false} LastSepNone(s: string, n: nat)
    requires n <= |s| && forall i :: 0 <= i < n ==> s[i] != '/'
    ensures LastSep(s, n) == -1
  {
  }

  lemma {:induction false} NoDirectories(p: string)
    requires '/' !in p
    ensures Dir(p) == "./" && IsDirs(Dir(p), 2) && Normal(Components(Dir(p), 2)) == Some([]) && File(p) == p
  {
    DirAndFile(p);
    LastSepNone(p, |p|);
    DotDirectory(Dir(p));
  }

  /** For a relative path the shortcut for paths without "./" changes nothing. */
  lemma {:induction false} ResolvedIsNormal(p: string)
    requires p != "" && p[0] != '/'
    ensures IsDirs(Dir(p), |Dir(p)|)
    ensures Resolved(p) == match Normal(Components(Dir(p), |Dir(p)|))
      case None => ""
      case Some(names) => Join(names) + File(p)
  {
    DirIsDirs(p);
    if !HasDots(p) {
      if '/' in p { NothingToDo(p); } else { NoDirectories(p); }
    }
  }

  predicate EndsInDot(c: string) { c != "" && c[|c| - 1] == '.' }

  predicate SomeEndsInDot(names: seq<string>) {
    names != [] && (EndsInDot(names[|names| - 1]) || SomeEndsInDot(names[..|names| - 1]))
  }

  /** Resolving a path leaves a leading separator and a "./", which resolving once more takes the separator off. */
  predicate LosesSeparator(p: string) {
    && p != "" && HasDots(p)
    && (DirIsDirs(p);
        match Normal(Components(Dir(p), |Dir(p)|))
        case None => false
        case Some(names) => names != [] && names[0] == "" && SomeEndsInDot(names))
  }

  lemma {:induction false} DotsInFront(s: string, file: string)
    requires '/' !in file
    ensures HasDots(s + file) <==> HasDots(s)
  {
    var t := s + file;
    assert forall i :: 0 <= i < |s| ==> t[i] == s[i];
    assert forall i :: |s| <= i < |t| ==> t[i] == file[i - |s|];
    if HasDots(t) {
      var i :| 0 <= i < |t| - 1 && t[i] == '.' && t[i + 1] == '/';
      assert i + 1 < |s|;
    }
  }

  /** Joined names have "./" among them exactly if some name ends in a dot. */
  lemma {:induction false} DotsInJoin(names: seq<string>)
    requires Plain(names)
    ensures HasDots(Join(names)) <==> SomeEndsInDot(names)
  {
    if names != [] {
      var init, c := names[..|names| - 1], names[|names| - 1];
      assert c in names;
      DotsInJoin(init);
      DotsInLast(Join(init), c);
    }
  }

  lemma {:induction false} DotsInLast(j: string, c: string)
    requires '/' !in c && (j != "" ==> j[|j| - 1] == '/')
    ensures HasDots(j + c + "/") <==> HasDots(j) || EndsInDot(c)
  {
    DotsInFront(j, c);
    var s := j + c;
    var t := s + "/";
    assert forall i :: 0 <= i < |s| ==> t[i] == s[i];
    if HasDots(t) && !HasDots(s) {
      var i :| 0 <= i < |t| - 1 && t[i] == '.' && t[i + 1] == '/';
      assert i == |s| - 1;
      assert c != "" ==> s[i] == c[|c| - 1];
      assert c == "" ==> s == j;
    }
    if EndsInDot(c) { assert t[|s| - 1] == '.' && t[|s|] == '/'; }
  }

  lemma {:induction false} ResolvedAgain(p: string)
    ensures var r := Resolved(p); Resolved(r) == r <==> r == "" || r[0] != '/' || !HasDots(r)
  {
    var r := Resolved(p);
    if r != "" && HasDots(r) {
      if r[0] == '/' { LeadingIsDropped(r); } else { ResolvedStays(p); }
    }
  }

  /** When a result has its leading separator and "./" told from the names it is made of. */
  lemma {:induction false} ResultOfNames(names: seq<string>, file: string)
    requires Plain(names) && '/' !in file
    ensures var r := Join(names) + file;
      r != "" && r[0] == '/' && HasDots(r) <==> names != [] && names[0] == "" && SomeEndsInDot(names)
  {
    DotsInFront(Join(names), file);
    DotsInJoin(names);
    if names != [] {
      JoinStarts(names);
      assert names[0] in names;
      assert (Join(names) + file)[0] == Join(names)[0];
    }
  }

  /** Resolving twice is resolving once exactly for the paths that do not lose a separator. */
  lemma {:induction false} ResolveIdempotent(p: string)
    ensures Resolved(Resolved(p)) == Resolved(p) <==> !LosesSeparator(p)
  {
    ResolvedAgain(p);
    if p != "" && HasDots(p) {
      DirIsDirs(p);
      var cs := Components(Dir(p), |Dir(p)|);
      if Normal(cs).Some? {
        var names := Normal(cs).value;
        DirAndFile(p);
        ComponentsArePlain(Dir(p), |Dir(p)|);
        forall c | c in names ensures c in cs { NormalHasNames(cs, c); }
        ResultOfNames(names, File(p));
      }
    }
  }

  /** After a leading separator any joined components are found again. */
  lemma {:induction false} ComponentsAfterLead(cs: seq<string>, s: string)
    requires Plain(cs) && "/" + Join(cs) <= s
    ensures IsDirs(s, 1 + |Join(cs)|) && Components(s, 1 + |Join(cs)|) == cs
  {
    var j := "/" + Join(cs);
    assert s[0] == j[0] == '/';
    if cs != [] {
      var init, c := cs[..|cs| - 1], cs[|cs| - 1];
      var i := "/" + Join(init);
      assert c in cs && j == i + c + "/" && i <= j;
      ComponentsAfterLead(init, s);
      assert s[..|j|] == j;
      LastOfJoin(i, c, s, |j|);
      assert cs == init + [c];
    }
  }

  /** Is the result absolute?  A path with "./" loses its leading separator and begins with its first name. */
  predicate ToAbsolute(p: string) {
    && p != ""
    && if !HasDots(p) then p[0] == '/'
       else
         (DirIsDirs(p);
          match Normal(Components(Dir(p), |Dir(p)|))
          case None => false
          case Some(names) => names != [] && names[0] == "")
  }

  /** Resolving gives an absolute path exactly then, whether the path itself is absolute or not. */
  lemma {:induction false} AbsoluteIff(p: string)
    ensures Resolved(p) != "" && Resolved(p)[0] == '/' <==> ToAbsolute(p)
  {
    if p != "" && HasDots(p) {
      DirIsDirs(p);
      var cs := Components(Dir(p), |Dir(p)|);
      if Normal(cs).Some? {
        DirAndFile(p);
        ComponentsArePlain(Dir(p), |Dir(p)|);
        FirstOfNames(cs, File(p));
      }
    }
  }

  lemma {:induction false} FirstOfNames(cs: seq<string>, file: string)
    requires Plain(cs) && Normal(cs).Some? && '/' !in file
    ensures var names := Normal(cs).value; var r := Join(names) + file;
      r != "" && r[0] == '/' <==> names != [] && names[0] == ""
  {
    var names := Normal(cs).value;
    if names != [] {
      NormalHasNames(cs, names[0]);
      JoinStarts(names);
    }
  }

  /** A leading separator, components joined, and a file: resolving takes the separator off. */
  lemma {:induction false} ResolvedAfterLead(cs: seq<string>, file: string)
    requires Plain(cs) && '/' !in file && HasDots("/" + Join(cs) + file)
    ensures Resolved("/" + Join(cs) + file) ==
      match Normal(cs)
      case None => ""
      case Some(names) => Join(names) + file
  {
    var j := "/" + Join(cs);
    var p := j + file;
    if cs != [] { JoinStarts(cs); }
    LastSepIn(p, |p|, |j| - 1);
    assert Dir(p) == j && File(p) == file;
    ComponentsAfterLead(cs, j);
  }

  /** An absolute path whose names need no work loses its leading separator if one of them ends in a dot. */
  lemma {:induction false} LeadIsLost(names: seq<string>, file: string)
    requires Plain(names) && Names(names) && SomeEndsInDot(names) && '/' !in file
    ensures Resolved("/" + Join(names) + file) == Join(names) + file
  {
    var p := "/" + Join(names) + file;
    DotsInJoin(names);
    assert forall i :: 0 <= i < |Join(names)| ==> p[i + 1] == Join(names)[i];
    var k :| 0 <= k < |Join(names)| - 1 && Join(names)[k] == '.' && Join(names)[k + 1] == '/';
    assert p[k + 1] == '.' && p[k + 2] == '/';
    ResolvedAfterLead(names, file);
    CleanIsNormal(names);
  }

  lemma {:induction false} NormalLast(cs: seq<string>, c: string)
    requires Normal(cs).Some?
    ensures var names := Normal(cs).value;
      Normal(cs + [c]) ==
        if c == "." then Some(names)
        else if c == ".." then (if names == [] then None else Some(names[..|names| - 1]))
        else Some(names + [c])
  {
    assert (cs + [c])[..|cs|] == cs;
  }

  lemma {:induction false} DotComponents()
    ensures Normal(["."]) == Some([]) && Join(["."]) == "./"
    ensures Normal(["a", ".."]) == Some([]) && Join(["a", ".."]) == "a/../"
    ensures Normal(["a", "..", ""]) == Some([""]) && Join(["a", "..", ""]) == "a/..//" && Join([""]) == "/"
  {
    var none: seq<string> := [];
    var a, up := ["a"], ["a", ".."];
    assert none + ["."] == ["."] && none + ["a"] == a && a + [".."] == up && up + [""] == ["a", "..", ""];
    assert none + [""] == [""] && a[..0] == none;
    hide Normal, Join;
    NothingJoined();
    NormalLast(none, ".");
    NormalLast(none, "a");
    NormalLast(a, "..");
    NormalLast(up, "");
    JoinLast(none, ".");
    JoinLast(none, "");
    JoinLast(none, "a");
    JoinLast(a, "..");
    JoinLast(up, "");
  }

  lemma NothingJoined()
    ensures Normal([]) == Some([]) && Join([]) == ""
  {
  }

  /** So do /./a and /a/../b, while the relative path a/..//b gets one. */
  lemma {:induction false} AbsoluteIsLost()
    ensures Resolved("/./a") == "a" && Resolved("/a/../b") == "b" && Resolved("a/..//b") == "/b"
  {
    DotComponents();
    NothingJoined();
    hide Resolved, Normal, Join;
    var p, q, r := "/./a", "/a/../b", "a/..//b";
    assert p == "/" + Join(["."]) + "a" && q == "/" + Join(["a", ".."]) + "b" && r == Join(["a", "..", ""]) + "b";
    assert p[1] == '.' && p[2] == '/' && q[4] == '.' && q[5] == '/' && r[3] == '.' && r[4] == '/';
    ResolvedAfterLead(["."], "a");
    ResolvedAfterLead(["a", ".."], "b");
    ResolvedJoin(["a", "..", ""], "b");
  }

  lemma {:induction false} ResolvedJoin(cs: seq<string>, file: string)
    requires Plain(cs) && cs != [] && cs[0] != "" && '/' !in file && HasDots(Join(cs) + file)
    ensures Resolved(Join(cs) + file) ==
      match Normal(cs)
      case None => ""
      case Some(names) => Join(names) + file
  {
    JoinedSplits(cs, file);
    ComponentsOfJoin(cs, Join(cs));
  }

  /** The path //a./b becomes /a./b, and that becomes a./b. */
  lemma {:induction false} LosesTwoSeparators()
    ensures Resolved("//a./b") == "/a./b" && Resolved("/a./b") == "a./b"
  {
    hide Resolved;
    var one, two := ["a."], ["", "a."];
    assert one[..0] == [] && two[..1] == [""] && [""][..0] == [];
    assert Join(one) == "a./" && Join([""]) == "/" && Join(two) == "/a./";
    LeadIsLost(one, "b");
    LeadIsLost(two, "b");
    assert "/" + Join(one) + "b" == "/a./b" && "/" + Join(two) + "b" == "//a./b";
  }

  lemma {:induction false} LeadingIsDropped(r: string)
    requires r != "" && r[0] == '/' && HasDots(r)
    ensures |Resolved(r)| < |r|
  {
    var d := Dir(r);
    DirIsDirs(r);
    DirAndFile(r);
    ComponentsJoin(d, |d|);
    if Normal(Components(d, |d|)).Some? { NormalIsNoLonger(Components(d, |d|)); }
  }

  lemma {:induction false} JoinedSplits(names: seq<string>, file: string)
    requires names != [] && '/' !in file
    ensures Dir(Join(names) + file) == Join(names) && File(Join(names) + file) == file
  {
    JoinStarts(names);
    var j := Join(names);
    var r := j + file;
    assert j[|j| - 1] == '/' && r[|j|..|r|] == file;
    LastSepIn(r, |r|, |j| - 1);
  }

  lemma {:induction false} NormalStays(cs: seq<string>)
    requires Plain(cs) && Normal(cs).Some?
    ensures var names := Normal(cs).value; var j := Join(names);
      names != [] && names[0] != "" ==> IsDirs(j, |j|) && Normal(Components(j, |j|)) == Some(names)
  {
    var names := Normal(cs).value;
    forall c | c in names ensures c in cs && IsName(c) { NormalHasNames(cs, c); }
    if names != [] && names[0] != "" {
      ComponentsOfJoin(names, Join(names));
      CleanIsNormal(names);
    }
  }

  lemma {:induction false} NormalResolves(names: seq<string>, file: string)
    requires names != [] && '/' !in file
    requires var j := Join(names); IsDirs(j, |j|) && Normal(Components(j, |j|)) == Some(names)
    ensures Resolved(Join(names) + file) == Join(names) + file
  {
    JoinedSplits(names, file);
  }

  lemma {:induction false} ResolvedStays(p: string)
    requires Resolved(p) != "" && Resolved(p)[0] != '/' && p != "" && HasDots(p)
    ensures Resolved(Resolved(p)) == Resolved(p)
  {
    DirIsDirs(p);
    var file, cs := File(p), Components(Dir(p), |Dir(p)|);
    DirAndFile(p);
    ComponentsArePlain(Dir(p), |Dir(p)|);
    var names := Normal(cs).value;
    if names == [] {
      FileStays(file);
      assert Join(names) + file == file;
    } else {
      JoinStarts(names);
      NormalStays(cs);
      NormalResolves(names, file);
    }
  }

  lemma FileStays(file: string)
    requires '/' !in file
    ensures Resolved(file) == file
  {
  }

  /** In particular it is idempotent on relative paths without empty components. */
  lemma {:induction false} RelativeIdempotent(p: string)
    requires IsDirs(Dir(p), |Dir(p)|) && "" !in Components(Dir(p), |Dir(p)|)
    requires p != "" && p[0] != '/'
    ensures Resolved(Resolved(p)) == Resolved(p)
  {
    var cs := Components(Dir(p), |Dir(p)|);
    ResolveIdempotent(p);
    if HasDots(p) && Normal(cs).Some? && Normal(cs).value != [] {
      NormalHasNames(cs, Normal(cs).value[0]);
    }
  }
}
