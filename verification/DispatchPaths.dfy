/** Declared paths (backend/dispatch_routing.py): how they are normalized, when two declarations
    overlap, and when they claim a common file. */
module DispatchPaths {
  import opened Common
  import opened Text

  // ---------------------------------------------------------------- paths

  function LStripSlash(s: string): string {
    if s != "" && s[0] == '/' then LStripSlash(s[1..]) else s
  }

  function RStripSlash(s: string): string {
    if s != "" && s[|s| - 1] == '/' then RStripSlash(s[..|s| - 1]) else s
  }

  function Slashes(s: string): string {
    seq(|s|, i requires 0 <= i < |s| => if s[i] == '\\' then '/' else s[i])
  }

  function NormalizePath(p: string): string {
    RStripSlash(LStripSlash(Slashes(Strip(p))))
  }

  function Normals(paths: seq<string>): seq<string> {
    if paths == [] then []
    else
      var init := Normals(paths[..|paths| - 1]);
      var p := paths[|paths| - 1];
      if Strip(p) == "" then init else init + [NormalizePath(p)]
  }

  /** The first closing bracket from a position on. */
  function Closing(s: string, from: nat): (r: Option<nat>)
    ensures r.Some? ==> from <= r.value < |s| && s[r.value] == ']'
    decreases |s| - from
  {
    if from >= |s| then None else if s[from] == ']' then Some(from) else Closing(s, from + 1)
  }

  /** The length of the character class that `s` begins with: a bracket right after the opening one,
      or after its negation, does not close it. */
  function ClassLength(s: string): (r: Option<nat>)
    ensures r.Some? ==> r.value < |s|
  {
    var first := if s != "" && s[0] == '!' then 1 else 0;
    Closing(s, if first < |s| && s[first] == ']' then first + 1 else first)
  }

  /** The characters and ranges a class lists. */
  predicate Listed(c: char, s: string) {
    if s == "" then false
    else if |s| >= 3 && s[1] == '-' then s[0] <= c <= s[2] || Listed(c, s[3..])
    else c == s[0] || Listed(c, s[1..])
  }

  predicate InClass(c: char, s: string) {
    if s != "" && s[0] == '!' then !Listed(c, s[1..]) else Listed(c, s)
  }

  /** fnmatch with `*`, `?` and classes; a bracket that is not closed stands for itself. */
  predicate Glob(name: string, pattern: string)
    decreases |name| + |pattern|
  {
    if pattern == "" then name == ""
    else if pattern[0] == '*' then Glob(name, pattern[1..]) || (name != "" && Glob(name[1..], pattern))
    else if name == "" then false
    else
      var n := if pattern[0] == '[' then ClassLength(pattern[1..]) else None;
      if n.Some? then InClass(name[0], pattern[1..n.value + 1]) && Glob(name[1..], pattern[n.value + 2..])
      else (pattern[0] == '?' || pattern[0] == name[0]) && Glob(name[1..], pattern[1..])
  }

  /** `dir` is a proper parent directory of `p`. */
  predicate ParentOf(dir: string, p: string) {
    dir + "/" <= p
  }

  predicate PairOverlap(a: string, b: string) {
    a == b || ParentOf(a, b) || ParentOf(b, a) || Glob(a, b) || Glob(b, a)
  }

  predicate Catchall(paths: seq<string>) {
    "*" in paths || "" in paths
  }

  predicate Overlap(pathsA: seq<string>, pathsB: seq<string>) {
    var a, b := Normals(pathsA), Normals(pathsB);
    Catchall(a) || Catchall(b) || exists p, q | p in a && q in b :: PairOverlap(p, q)
  }

  method PathsOverlap(pathsA: seq<string>, pathsB: seq<string>) returns (r: bool)
    ensures r == Overlap(pathsA, pathsB)
  {
    var a, b := Normals(pathsA), Normals(pathsB);
    if "*" in a || "*" in b || "" in a || "" in b {
      return true;
    }
    for i := 0 to |a|
      invariant forall p, q | p in a[..i] && q in b :: !PairOverlap(p, q)
    {
      for j := 0 to |b|
        invariant forall q | q in b[..j] :: !PairOverlap(a[i], q)
      {
        if PairOverlap(a[i], b[j]) {
          return true;
        }
      }
      assert b[..|b|] == b && a[..i + 1] == a[..i] + [a[i]];
    }
    assert a[..|a|] == a;
    return false;
  }

  lemma OverlapIsSymmetric(a: seq<string>, b: seq<string>)
    ensures Overlap(a, b) == Overlap(b, a)
  {
    forall p, q ensures PairOverlap(p, q) == PairOverlap(q, p) {
    }
  }

  // ---------------------------------------------------------------- what a declaration means

  predicate IsSlash(c: char) {
    c == '/'
  }

  /** The text with a slash for every backslash. */
  ghost predicate Converted(s: string, t: string) {
    |t| == |s| && forall i | 0 <= i < |s| :: t[i] == if s[i] == '\\' then '/' else s[i]
  }

  /** What a path declares: its text without white space around it, with slashes for backslashes,
      and then without slashes around it. */
  ghost predicate Bare(p: string, core: string) {
    exists text, slashed :: Trims(IsSpace, p, text) && Converted(text, slashed) && Trims(IsSlash, slashed, core)
  }

  lemma {:induction false} LStripSlashIs(s: string)
    ensures |LStripSlash(s)| <= |s| && LStripSlash(s) == s[|s| - |LStripSlash(s)|..]
    ensures forall k | 0 <= k < |s| - |LStripSlash(s)| :: s[k] == '/'
    ensures LStripSlash(s) != "" ==> LStripSlash(s)[0] != '/'
  {
    if s != "" && s[0] == '/' {
      LStripSlashIs(s[1..]);
    }
  }

  lemma {:induction false} RStripSlashIs(s: string)
    ensures RStripSlash(s) <= s && forall k | |RStripSlash(s)| <= k < |s| :: s[k] == '/'
    ensures RStripSlash(s) != "" ==> RStripSlash(s)[|RStripSlash(s)| - 1] != '/'
  {
    if s != "" && s[|s| - 1] == '/' {
      RStripSlashIs(s[..|s| - 1]);
    }
  }

  lemma SlashesTrimmed(s: string)
    ensures Trims(IsSlash, s, RStripSlash(LStripSlash(s)))
  {
    LStripSlashIs(s);
    var t := LStripSlash(s);
    RStripSlashIs(t);
    var core := RStripSlash(t);
    var i := |s| - |t|;
    var j := i + |core|;
    assert core == s[i..j];
    forall k | j <= k < |s| ensures IsSlash(s[k]) {
      assert s[k] == t[k - i];
    }
    assert Middle(IsSlash, s, i, j);
  }

  lemma SameConversion(s: string, a: string, b: string)
    requires Converted(s, a) && Converted(s, b)
    ensures a == b
  {
  }

  /** Normalizing a path is finding what it declares. */
  lemma NormalFormIff(p: string, core: string)
    ensures NormalizePath(p) == core <==> Bare(p, core)
  {
    StripTrims(p);
    SlashesTrimmed(Slashes(Strip(p)));
    assert Converted(Strip(p), Slashes(Strip(p)));
    hide Trims, Converted, Slashes, Strip;
    assert Bare(p, NormalizePath(p));
    if Bare(p, core) {
      var text, slashed :| Trims(IsSpace, p, text) && Converted(text, slashed) && Trims(IsSlash, slashed, core);
      TrimsIsUnique(IsSpace, p, text, Strip(p));
      SameConversion(text, slashed, Slashes(text));
      TrimsIsUnique(IsSlash, slashed, core, NormalizePath(p));
    }
  }

  /** White space around a path makes no difference. */
  lemma SpacesAround(before: string, p: string, after: string, core: string)
    requires Bare(p, core) && (forall c :: c in before ==> IsSpace(c)) && forall c :: c in after ==> IsSpace(c)
    ensures Bare(before + p + after, core)
  {
    hide Converted;
    var text, slashed :| Trims(IsSpace, p, text) && Converted(text, slashed) && Trims(IsSlash, slashed, core);
    TrimsAround(IsSpace, before, p, after, text);
    hide Trims;
  }

  /** Nor do slashes around it and backslashes for slashes. */
  lemma SlashesAround(before: string, p: string, after: string, core: string)
    requires (forall c :: c in before + after ==> c == '/' || c == '\\') && Converted(p, core)
    requires core != "" && !IsSpace(p[0]) && !IsSpace(p[|p| - 1]) && core[0] != '/' && core[|core| - 1] != '/'
    ensures Bare(before + p + after, core)
  {
    var all := before + p + after;
    var slashed := seq(|before|, i => '/') + core + seq(|after|, i => '/');
    SlashesAroundCore(|before|, core, |after|);
    NoSpacesAround(before, p, after);
    hide Trims;
    forall i | 0 <= i < |all| ensures slashed[i] == if all[i] == '\\' then '/' else all[i] {
      if i < |before| {
        assert all[i] in before + after;
      } else if i < |before| + |p| {
        assert all[i] == p[i - |before|] && slashed[i] == core[i - |before|];
      } else {
        assert all[i] in before + after;
      }
    }
  }

  lemma SlashesAroundCore(n: nat, core: string, m: nat)
    requires core != "" && core[0] != '/' && core[|core| - 1] != '/'
    ensures Trims(IsSlash, seq(n, i => '/') + core + seq(m, i => '/'), core)
  {
    assert Middle(IsSlash, core, 0, |core|) && core[0..|core|] == core;
    TrimsAround(IsSlash, seq(n, i => '/'), core, seq(m, i => '/'), core);
  }

  lemma NoSpacesAround(before: string, p: string, after: string)
    requires (forall c :: c in before + after ==> c == '/' || c == '\\')
    requires p != "" && !IsSpace(p[0]) && !IsSpace(p[|p| - 1])
    ensures Trims(IsSpace, before + p + after, before + p + after)
  {
    var all := before + p + after;
    assert before != "" ==> before[0] in before + after;
    assert after != "" ==> after[|after| - 1] in before + after;
    assert all[0] == if before == "" then p[0] else before[0];
    assert all[|all| - 1] == if after == "" then p[|p| - 1] else after[|after| - 1];
    assert Middle(IsSpace, all, 0, |all|) && all[0..|all|] == all;
  }

  /** The path has some text. */
  predicate HasText(p: string) {
    exists i | 0 <= i < |p| :: !IsSpace(p[i])
  }

  lemma HasTextIff(p: string)
    ensures HasText(p) <==> Strip(p) != ""
  {
    StripTrims(p);
    var i, j :| Middle(IsSpace, p, i, j) && Strip(p) == p[i..j];
    if i < j {
      assert !IsSpace(p[i]);
    }
  }

  /** A declaration declares a bare path. */
  ghost predicate Declares(paths: seq<string>, core: string) {
    exists p :: p in paths && HasText(p) && Bare(p, core)
  }

  lemma {:induction false} NormalsAreDeclared(paths: seq<string>, core: string)
    ensures core in Normals(paths) <==> Declares(paths, core)
  {
    if paths != [] {
      var init, p := paths[..|paths| - 1], paths[|paths| - 1];
      assert paths == init + [p];
      NormalsAreDeclared(init, core);
      NormalFormIff(p, core);
      HasTextIff(p);
      hide Bare, HasText, NormalizePath, Strip;
      assert forall q :: q in paths <==> q in init || q == p;
    }
  }

  /** Overlap, said of what the two declarations declare: one of them claims everything, or two of
      their paths are equal, one a directory above the other, or one a pattern for the other. */
  lemma OverlapIff(pathsA: seq<string>, pathsB: seq<string>)
    ensures Overlap(pathsA, pathsB) <==>
              || Declares(pathsA, "*") || Declares(pathsA, "") || Declares(pathsB, "*") || Declares(pathsB, "")
              || exists a, b ::
                   && Declares(pathsA, a) && Declares(pathsB, b)
                   && (a == b || a + "/" <= b || b + "/" <= a || Glob(a, b) || Glob(b, a))
  {
    hide Declares, Normals, Glob, PairOverlap;
    AllNormalsAreDeclared(pathsA);
    AllNormalsAreDeclared(pathsB);
    forall a, b
      ensures PairOverlap(a, b) <==> (a == b || a + "/" <= b || b + "/" <= a || Glob(a, b) || Glob(b, a))
    {
      MeetIff(a, b);
    }
  }

  lemma AllNormalsAreDeclared(paths: seq<string>)
    ensures forall core :: core in Normals(paths) <==> Declares(paths, core)
  {
    forall core ensures core in Normals(paths) <==> Declares(paths, core) {
      NormalsAreDeclared(paths, core);
    }
  }

  lemma MeetIff(a: string, b: string)
    ensures PairOverlap(a, b) <==> (a == b || a + "/" <= b || b + "/" <= a || Glob(a, b) || Glob(b, a))
  {
    hide Glob;
  }

  /** So two declarations of the same paths, however they are written, overlap the same others. */
  lemma SpellingDoesNotMatter(a: seq<string>, a': seq<string>, b: seq<string>)
    requires forall core :: Declares(a, core) <==> Declares(a', core)
    ensures Overlap(a, b) == Overlap(a', b)
  {
    OverlapIff(a, b);
    OverlapIff(a', b);
    hide Declares, Overlap, Glob;
  }

  // ---------------------------------------------------------------- claims

  /** A path claims a file: the file itself, a file below it, or a file its pattern matches. */
  predicate Claims(path: string, file: string) {
    path == "" || path == "*" || path == file || ParentOf(path, file) || Glob(file, path)
  }

  predicate Plain(path: string) {
    '*' !in path && '?' !in path && '[' !in path
  }

  lemma {:induction false} PlainGlob(name: string, pattern: string)
    requires Plain(pattern)
    ensures Glob(name, pattern) <==> name == pattern
    decreases |pattern|
  {
    if pattern != "" && name != "" {
      assert pattern == [pattern[0]] + pattern[1..] && name == [name[0]] + name[1..];
      PlainGlob(name[1..], pattern[1..]);
    }
  }

  /** A declaration claims a file if one of its paths does. */
  ghost predicate ClaimsFile(paths: seq<string>, file: string) {
    exists p :: Declares(paths, p) && Claims(p, file)
  }

  ghost predicate SharesFile(a: seq<string>, b: seq<string>) {
    exists file :: ClaimsFile(a, file) && ClaimsFile(b, file)
  }

  /** Apart from the catch-all `*`, no path has a wildcard. */
  ghost predicate AllPlain(paths: seq<string>) {
    forall p :: Declares(paths, p) ==> Plain(p) || p == "*"
  }

  ghost predicate DeclaresNothing(paths: seq<string>) {
    forall p :: !Declares(paths, p)
  }

  ghost predicate CatchesAll(paths: seq<string>) {
    Declares(paths, "*") || Declares(paths, "")
  }

  /** Without wildcards, two declarations overlap exactly when some file is claimed by both, or when
      one has no path at all and the other claims everything. */
  lemma PlainOverlapIsAConflict(a: seq<string>, b: seq<string>)
    requires AllPlain(a) && AllPlain(b)
    ensures Overlap(a, b) <==>
              SharesFile(a, b) || ((DeclaresNothing(a) || DeclaresNothing(b)) && (CatchesAll(a) || CatchesAll(b)))
  {
    OverlapIff(a, b);
    hide Declares, Overlap, Glob;
    if !DeclaresNothing(a) && !DeclaresNothing(b) {
      var x :| Declares(a, x);
      var y :| Declares(b, y);
      if CatchesAll(a) {
        assert ClaimsFile(a, y) && ClaimsFile(b, y);
      } else if CatchesAll(b) {
        assert ClaimsFile(a, x) && ClaimsFile(b, x);
      } else {
        PairsShare(a, b);
        hide Claims;
        forall p, q | Declares(a, p) && Declares(b, q)
          ensures (p == q || p + "/" <= q || q + "/" <= p || Glob(p, q) || Glob(q, p))
                  <==> exists file :: Claims(p, file) && Claims(q, file)
        {
          PlainPair(p, q);
          MeetIff(p, q);
        }
      }
    }
  }

  lemma PairsShare(a: seq<string>, b: seq<string>)
    ensures SharesFile(a, b) <==>
              exists p, q :: Declares(a, p) && Declares(b, q) && exists file :: Claims(p, file) && Claims(q, file)
  {
    hide Declares, Claims;
    if p, q, file :| Declares(a, p) && Declares(b, q) && Claims(p, file) && Claims(q, file) {
      assert ClaimsFile(a, file) && ClaimsFile(b, file);
    }
    if file :| ClaimsFile(a, file) && ClaimsFile(b, file) {
      var p :| Declares(a, p) && Claims(p, file);
      var q :| Declares(b, q) && Claims(q, file);
      assert Claims(p, file) && Claims(q, file);
    }
  }

  lemma PlainPair(p: string, q: string)
    requires Plain(p) && Plain(q) && p != "" && q != ""
    ensures PairOverlap(p, q) <==> exists file :: Claims(p, file) && Claims(q, file)
  {
    PlainGlob(p, q);
    PlainGlob(q, p);
    if PairOverlap(p, q) {
      assert (Claims(p, p) && Claims(q, p)) || (Claims(p, q) && Claims(q, q));
    } else {
      forall file | Claims(p, file) ensures !Claims(q, file) {
        if Claims(q, file) {
          SharedFile(p, q, file);
          assert false;
        }
      }
    }
  }

  lemma SharedFile(p: string, q: string, file: string)
    requires Plain(p) && Plain(q) && p != "" && q != "" && Claims(p, file) && Claims(q, file)
    ensures p == q || ParentOf(p, q) || ParentOf(q, p)
  {
    PlainGlob(file, p);
    PlainGlob(file, q);
    if |p| < |q| {
      assert p == file[..|p|] && file[|p|] == '/';
      assert q == file[..|q|];
      assert q[..|p| + 1] == p + "/";
    } else if |q| < |p| {
      assert q == file[..|q|] && file[|q|] == '/';
      assert p == file[..|p|];
      assert p[..|q| + 1] == q + "/";
    }
  }

  lemma NormalAlready(s: string)
    requires s != "" && '\\' !in s
    requires !IsSpace(s[0]) && !IsSpace(s[|s| - 1]) && s[0] != '/' && s[|s| - 1] != '/'
    ensures Normals([s]) == [s] && forall p :: Declares([s], p) <==> p == s
  {
    assert Slashes(s) == s;
    assert [s][..0] == [];
    assert Normals([s]) == [s];
    forall p ensures Declares([s], p) <==> p == s {
      NormalsAreDeclared([s], p);
    }
  }

  /** One wildcard is enough to miss a conflict: the directory `s` and the pattern `*a` both claim
      `s/a`, but the pattern does not match the name of the directory. */
  lemma OneWildcardMisses()
    ensures (forall p :: Declares(["s"], p) <==> p == "s") && (forall p :: Declares(["*a"], p) <==> p == "*a")
    ensures !Overlap(["s"], ["*a"]) && ClaimsFile(["s"], "s/a") && ClaimsFile(["*a"], "s/a")
  {
    hide *;
    BothNormal();
    OverlapIff(["s"], ["*a"]);
    NeitherMeets();
    BothClaim();
    ClaimsItself(["s"], "s", "s/a");
    ClaimsItself(["*a"], "*a", "s/a");
  }

  lemma ClaimsItself(paths: seq<string>, p: string, file: string)
    requires (forall q :: Declares(paths, q) <==> q == p) && Claims(p, file)
    ensures ClaimsFile(paths, file)
  {
    hide Declares, Claims;
    assert Declares(paths, p);
  }

  lemma BothNormal()
    ensures (forall p :: Declares(["s"], p) <==> p == "s") && (forall p :: Declares(["*a"], p) <==> p == "*a")
  {
    NormalAlready("s");
    NormalAlready("*a");
    hide Declares;
  }

  lemma NeitherMeets()
    ensures "s" != "*a" && !("s" + "/" <= "*a") && !("*a" + "/" <= "s") && !Glob("s", "*a") && !Glob("*a", "s")
    ensures "s" != "*" && "*a" != "*" && "s" != "" && "*a" != ""
  {
    StarMatches();
    PlainGlob("*a", "s");
    hide Glob;
    assert |"s" + "/"| == 2 && |"*a" + "/"| == 3 && ("s" + "/")[0] == 's' && "*a"[0] == '*';
    assert |"*a"| == 2 && |"s"| == 1 && |"*"| == 1 && "s"[0] != "*"[0];
  }

  lemma BothClaim()
    ensures Claims("s", "s/a") && Claims("*a", "s/a")
  {
    StarMatches();
    hide Glob;
    assert "s/a"[..2] == "s" + "/";
  }

  lemma StarMatches()
    ensures Glob("s/a", "*a") && !Glob("s", "*a")
  {
    GlobStar("s/a", "*a");
    GlobStar("/a", "*a");
    GlobStar("a", "*a");
    GlobStar("s", "*a");
    GlobStar("", "*a");
    PlainGlob("a", "a");
    PlainGlob("s", "a");
    PlainGlob("", "a");
    hide Glob;
    assert "s/a"[1..] == "/a" && "/a"[1..] == "a" && "s"[1..] == "" && "*a"[1..] == "a";
    assert "s"[0] != "a"[0];
  }

  /** One step of the matcher at a star. */
  lemma GlobStar(name: string, pattern: string)
    requires pattern != "" && pattern[0] == '*'
    ensures Glob(name, pattern) == (Glob(name, pattern[1..]) || (name != "" && Glob(name[1..], pattern)))
  {
  }

  /** The declarations a side may make: with wildcards anywhere, or only the catch-all. */
  ghost predicate MayDeclare(wild: bool, paths: seq<string>) {
    !DeclaresNothing(paths) && (wild || AllPlain(paths))
  }

  ghost predicate OverlapIsExact(wildA: bool, wildB: bool) {
    forall a, b | MayDeclare(wildA, a) && MayDeclare(wildB, b) :: Overlap(a, b) <==> SharesFile(a, b)
  }

  /** Main result: overlap decides whether two declarations claim a common file if and only if
      neither side may use wildcards. */
  lemma OverlapIsExactIff(wildA: bool, wildB: bool)
    ensures OverlapIsExact(wildA, wildB) <==> !wildA && !wildB
  {
    hide Declares, Overlap, Claims;
    if !wildA && !wildB {
      forall a, b | MayDeclare(wildA, a) && MayDeclare(wildB, b) ensures Overlap(a, b) <==> SharesFile(a, b) {
        PlainOverlapIsAConflict(a, b);
      }
    } else {
      OneWildcardMisses();
      OverlapIsSymmetric(["s"], ["*a"]);
      assert SharesFile(["s"], ["*a"]) && SharesFile(["*a"], ["s"]);
      assert Plain("s") && Declares(["s"], "s") && Declares(["*a"], "*a");
      if wildB {
        assert MayDeclare(wildA, ["s"]) && MayDeclare(wildB, ["*a"]);
      } else {
        assert MayDeclare(wildA, ["*a"]) && MayDeclare(wildB, ["s"]);
      }
    }
  }
}
