/** Canonical request paths and the read-only demo's guard over the admin area. */
module DemoPaths {
  import opened Prelude

  const DOT := "."
  const UP := ".."

  // ---------------------------------------------------------------- strings and their segments

  /** `s.split("/")`. */
  function Split(s: string): (cs: seq<string>)
    ensures cs != []
    ensures forall c, ch | c in cs && ch in c :: ch in s && ch != '/'
  {
    if s == "" then [""]
    else if s[0] == '/' then [""] + Split(s[1..])
    else
      var rest := Split(s[1..]);
      [[s[0]] + rest[0]] + rest[1..]
  }

  /** `"/".join(cs)`. */
  function Join(cs: seq<string>): string {
    if cs == [] then "" else if |cs| == 1 then cs[0] else cs[0] + "/" + Join(cs[1..])
  }

  /** `s.replace("\\", "/")`. */
  function Fold(s: string): (r: string)
    ensures |r| == |s| && '\\' !in r
    ensures forall i | 0 <= i < |s| :: r[i] == if s[i] == '\\' then '/' else s[i]
  {
    if s == "" then "" else [if s[0] == '\\' then '/' else s[0]] + Fold(s[1..])
  }

  /** `re.sub(r"/{2,}", "/", s)`. */
  function Collapse(s: string): string {
    if |s| < 2 then s
    else if s[0] == '/' && s[1] == '/' then Collapse(s[1..])
    else [s[0]] + Collapse(s[1..])
  }

  // ---------------------------------------------------------------- posixpath.normpath

  function Push(st: seq<string>, c: string, rooted: bool): seq<string> {
    if c == "" || c == DOT then st
    else if c != UP || (!rooted && st == []) || (st != [] && st[|st| - 1] == UP) then st + [c]
    else if st != [] then st[..|st| - 1]
    else st
  }

  function Resolve(st: seq<string>, cs: seq<string>, rooted: bool): seq<string> {
    if cs == [] then st else Push(Resolve(st, cs[..|cs| - 1], rooted), cs[|cs| - 1], rooted)
  }

  /** Two leading slashes are kept; three or more count as one. */
  function LeadingSlashes(s: string): (k: nat)
    ensures k <= 2
  {
    if s == "" || s[0] != '/' then 0
    else if |s| >= 2 && s[1] == '/' && (|s| == 2 || s[2] != '/') then 2
    else 1
  }

  function Slashes(k: nat): string {
    if k == 0 then "" else if k == 1 then "/" else "//"
  }

  function NormPath(s: string): string {
    var k := LeadingSlashes(s);
    var r := Slashes(k) + Join(Resolve([], Split(s), k > 0));
    if r == "" then DOT else r
  }

  // ---------------------------------------------------------------- the middleware's own functions

  predicate Starts(s: string, prefix: string) {
    |prefix| <= |s| && s[..|prefix|] == prefix
  }

  predicate DoubleSlash(s: string) {
    |s| >= 2 && s[0] == '/' && s[1] == '/'
  }

  function OneSlash(s: string): string {
    if DoubleSlash(s) then s[1..] else s
  }

  /** `_normalize_path`. */
  function Normalize(raw: string): string {
    if raw == "" then "/"
    else
      var n := NormPath(Fold(raw));
      if Starts(n, "/") then n else "/" + n
  }

  /** The path less one trailing slash. */
  function Trim(raw: string): string {
    if |raw| > 1 && raw[|raw| - 1] == '/' then raw[..|raw| - 1] else raw
  }

  /** `_clean_raw_path`. */
  function CleanRawPath(raw: string): Option<string> {
    var candidate := Trim(raw);
    if '\\' in raw then None
    else if !Starts(candidate, "/") then None
    else if candidate == "/" then Some(candidate)
    else
      var segments := Split(candidate)[1..];
      if exists s | s in segments :: s == "" || s == DOT || s == UP then None else Some(candidate)
  }

  // ---------------------------------------------------------------- segments and strings undo each other

  lemma {:induction false} JoinSplit(s: string)
    ensures Join(Split(s)) == s
  {
    if s != "" {
      JoinSplit(s[1..]);
      var rest := Split(s[1..]);
      if s[0] == '/' {
        assert ([""] + rest)[1..] == rest;
      } else {
        assert ([[s[0]] + rest[0]] + rest[1..])[1..] == rest[1..];
      }
    }
  }

  lemma {:induction false} SplitConcat(a: string, b: string)
    ensures Split(a + "/" + b) == Split(a) + Split(b)
  {
    var s := a + "/" + b;
    if a == "" {
      assert s[1..] == b;
    } else {
      assert s[1..] == a[1..] + "/" + b;
      SplitConcat(a[1..], b);
    }
  }

  lemma {:induction false} SplitRooted(s: string)
    ensures Split("/" + s) == [""] + Split(s)
  {
    assert ("/" + s)[1..] == s;
  }

  lemma {:induction false} SplitPlain(c: string)
    requires '/' !in c
    ensures Split(c) == [c]
  {
    if c != "" {
      assert c[0] in c && c == [c[0]] + c[1..];
      SplitPlain(c[1..]);
    }
  }

  lemma {:induction false} SplitJoin(cs: seq<string>)
    requires cs != [] && forall c | c in cs :: '/' !in c
    ensures Split(Join(cs)) == cs
  {
    SplitPlain(cs[0]);
    if |cs| > 1 {
      assert forall c | c in cs[1..] :: c in cs;
      SplitJoin(cs[1..]);
      SplitConcat(cs[0], Join(cs[1..]));
    }
  }

  // ---------------------------------------------------------------- resolving

  ghost predicate Plain(c: string) {
    c != "" && c != DOT && c != UP && '/' !in c && '\\' !in c
  }

  ghost predicate AllPlain(cs: seq<string>) {
    forall c | c in cs :: Plain(c)
  }

  lemma {:induction false} ResolveConcat(st: seq<string>, a: seq<string>, b: seq<string>, rooted: bool)
    ensures Resolve(st, a + b, rooted) == Resolve(Resolve(st, a, rooted), b, rooted)
  {
    if b == [] {
      assert a + b == a;
    } else {
      assert (a + b)[..|a + b| - 1] == a + b[..|b| - 1];
      ResolveConcat(st, a, b[..|b| - 1], rooted);
    }
  }

  lemma {:induction false} ResolvePlain(st: seq<string>, cs: seq<string>, rooted: bool)
    requires AllPlain(cs)
    ensures Resolve(st, cs, rooted) == st + cs
  {
    if cs != [] {
      ResolvePlain(st, cs[..|cs| - 1], rooted);
      assert Plain(cs[|cs| - 1]);
      assert cs == cs[..|cs| - 1] + [cs[|cs| - 1]];
    }
  }

  /** Below a root every resolved segment is a name. */
  lemma {:induction false} RootedIsPlain(cs: seq<string>)
    requires forall c | c in cs :: '/' !in c && '\\' !in c
    ensures AllPlain(Resolve([], cs, true))
  {
    if cs != [] {
      RootedIsPlain(cs[..|cs| - 1]);
      var st := Resolve([], cs[..|cs| - 1], true);
      if st != [] {
        assert Plain(st[|st| - 1]);
      }
      assert cs[|cs| - 1] in cs;
    }
  }

  lemma {:induction false} JoinOfPlain(cs: seq<string>)
    requires forall c | c in cs :: c != "" && '/' !in c && '\\' !in c
    ensures '\\' !in Join(cs) && (cs != [] ==> Join(cs) != "" && Join(cs)[0] != '/')
  {
    if cs != [] {
      assert cs[0] in cs && cs[0][0] in cs[0];
      if |cs| > 1 {
        assert forall c | c in cs[1..] :: c in cs;
        JoinOfPlain(cs[1..]);
      }
    }
  }

  lemma {:induction false} SplitAfterRoot(k: nat, s: string)
    requires 1 <= k <= 2
    ensures Split(Slashes(k) + s) == (if k == 1 then [""] else ["", ""]) + Split(s)
  {
    SplitRooted(s);
    if k == 2 {
      SplitRooted("/" + s);
      assert Slashes(2) + s == "/" + ("/" + s);
    }
  }

  lemma {:induction false} RootOfShape(k: nat, s: string)
    requires 1 <= k <= 2 && '\\' !in s && (s != "" ==> s[0] != '/')
    ensures LeadingSlashes(Slashes(k) + s) == k && '\\' !in Slashes(k) + s
  {
  }

  /** A root and its names, written out and split again. */
  lemma {:induction false} SplitShape(k: nat, cs: seq<string>)
    requires 1 <= k <= 2 && forall c | c in cs :: c != "" && '/' !in c && '\\' !in c
    ensures var s := Slashes(k) + Join(cs);
      && LeadingSlashes(s) == k && '\\' !in s
      && Split(s) == (if k == 1 then [""] else ["", ""]) + (if cs == [] then [""] else cs)
  {
    JoinOfPlain(cs);
    RootOfShape(k, Join(cs));
    SplitAfterRoot(k, Join(cs));
    if cs != [] {
      SplitJoin(cs);
    }
  }

  lemma {:induction false} EmptyResolves(st: seq<string>, k: nat, rooted: bool)
    ensures Resolve(st, if k == 1 then [""] else ["", ""], rooted) == st
  {
    assert Resolve(st, [""], rooted) == st;
    assert ["", ""][..1] == [""];
  }

  /** Resolving a path that is a root and some segments is resolving the segments. */
  lemma {:induction false} ResolveShape(k: nat, cs: seq<string>)
    requires 1 <= k <= 2 && forall c | c in cs :: c != "" && '/' !in c && '\\' !in c
    ensures NormPath(Slashes(k) + Join(cs)) == Slashes(k) + Join(Resolve([], cs, true))
  {
    SplitShape(k, cs);
    EmptyResolves([], k, true);
    var roots := if k == 1 then [""] else ["", ""];
    if cs == [] {
      ResolveConcat([], roots, [""], true);
      EmptyResolves([], 1, true);
    } else {
      ResolveConcat([], roots, cs, true);
    }
  }

  lemma {:induction false} NoBackslashFold(s: string)
    requires '\\' !in s
    ensures Fold(s) == s
  {
    assert forall i | 0 <= i < |s| :: s[i] in s;
  }

  // ---------------------------------------------------------------- normalising twice

  ghost predicate Absolute(raw: string) {
    raw != "" && (raw[0] == '/' || raw[0] == '\\')
  }

  /** A folded path's leading slashes and segments. */
  function Root(raw: string): nat {
    LeadingSlashes(Fold(raw))
  }

  function Segments(raw: string): (cs: seq<string>)
    ensures cs != [] && forall c | c in cs :: '/' !in c && '\\' !in c
  {
    var cs := Split(Fold(raw));
    assert forall c | c in cs :: '\\' in c ==> '\\' in Fold(raw);
    cs
  }

  /** An absolute path normalises to its root followed by names. */
  lemma {:induction false} AbsoluteShape(raw: string)
    requires Absolute(raw)
    ensures var st := Resolve([], Segments(raw), true);
      1 <= Root(raw) <= 2 && AllPlain(st) && Normalize(raw) == Slashes(Root(raw)) + Join(st)
  {
    RootedIsPlain(Segments(raw));
  }

  lemma {:induction false} ShapeIsFixed(k: nat, cs: seq<string>)
    requires 1 <= k <= 2 && AllPlain(cs)
    ensures Normalize(Slashes(k) + Join(cs)) == Slashes(k) + Join(cs)
  {
    SplitShape(k, cs);
    NoBackslashFold(Slashes(k) + Join(cs));
    ResolveShape(k, cs);
    ResolvePlain([], cs, true);
    assert [] + cs == cs;
    assert Starts(Slashes(k) + Join(cs), "/") by { StartsWithSlash(k, Join(cs)); }
  }

  lemma {:induction false} StartsWithSlash(k: nat, s: string)
    requires 1 <= k <= 2
    ensures Starts(Slashes(k) + s, "/")
  {
    assert (Slashes(k) + s)[..1] == "/";
  }

  /** Named segments less `..` segments. */
  function Net(cs: seq<string>): int {
    if cs == [] then 0
    else
      var last := cs[|cs| - 1];
      Net(cs[..|cs| - 1]) + if last == "" || last == DOT then 0 else if last == UP then -1 else 1
  }

  /** Walking the segments never climbs above where it started. */
  ghost predicate NeverClimbs(cs: seq<string>) {
    forall i | 0 <= i <= |cs| :: Net(cs[..i]) >= 0
  }

  /** And ends below it. */
  ghost predicate StaysBelow(cs: seq<string>) {
    NeverClimbs(cs) && Net(cs) > 0
  }

  lemma {:induction false} NeverClimbsFront(cs: seq<string>)
    requires cs != []
    ensures NeverClimbs(cs) <==> NeverClimbs(cs[..|cs| - 1]) && Net(cs) >= 0
  {
    var front := cs[..|cs| - 1];
    assert forall i | 0 <= i <= |front| :: front[..i] == cs[..i];
    assert cs[..|cs|] == cs;
    if NeverClimbs(cs) {
      forall i | 0 <= i <= |front| ensures Net(front[..i]) >= 0 { assert Net(cs[..i]) >= 0; }
      assert Net(cs[..|cs|]) >= 0;
    }
    if NeverClimbs(front) && Net(cs) >= 0 {
      forall i | 0 <= i <= |cs| ensures Net(cs[..i]) >= 0 {
        if i <= |front| {
          assert Net(front[..i]) >= 0;
        }
      }
    }
  }

  /** What is left of a relative path: names, behind leading `..`s exactly if it climbs. */
  lemma {:induction false} RelativeShape(cs: seq<string>)
    requires forall c | c in cs :: '/' !in c && '\\' !in c
    ensures var st := Resolve([], cs, false);
      && (forall c | c in st :: Plain(c) || c == UP)
      && (NeverClimbs(cs) ==> AllPlain(st) && |st| == Net(cs))
      && (!NeverClimbs(cs) ==> st != [] && st[0] == UP)
  {
    if cs != [] {
      var front, last := cs[..|cs| - 1], cs[|cs| - 1];
      assert last in cs;
      RelativeShape(front);
      NeverClimbsFront(cs);
      var st := Resolve([], front, false);
      if st != [] {
        assert st[|st| - 1] in st;
      }
    }
  }

  /** A root and segments are their own normal form exactly when every segment is a name. */
  lemma {:induction false} ShapeIsFixedIff(k: nat, cs: seq<string>)
    requires 1 <= k <= 2 && forall c | c in cs :: c != "" && '/' !in c && '\\' !in c
    ensures Normalize(Slashes(k) + Join(cs)) == Slashes(k) + Join(cs) <==> AllPlain(cs)
  {
    if AllPlain(cs) {
      ShapeIsFixed(k, cs);
    } else {
      var again := Resolve([], cs, true);
      SplitShape(k, cs);
      NoBackslashFold(Slashes(k) + Join(cs));
      ResolveShape(k, cs);
      RootedIsPlain(cs);
      SplitShape(k, again);
      var c :| c in cs && !Plain(c);
      assert c !in again;
      DifferAfterRoots(k, cs, again);
    }
  }

  lemma {:induction false} DifferAfterRoots(k: nat, a: seq<string>, b: seq<string>)
    requires a != [] && a != b && forall c | c in a :: c != ""
    ensures var roots := if k == 1 then [""] else ["", ""]; roots + a != roots + (if b == [] then [""] else b)
  {
    var roots := if k == 1 then [""] else ["", ""];
    var b' := if b == [] then [""] else b;
    assert a[0] in a && a != b';
    assert (roots + a)[|roots|..] == a;
    assert (roots + b')[|roots|..] == b';
  }

  lemma {:induction false} RelativeNormal(raw: string)
    requires raw != "" && !Absolute(raw)
    ensures var st := Resolve([], Segments(raw), false);
      && (forall c | c in st :: c != "" && '/' !in c && '\\' !in c)
      && Normalize(raw) == Slashes(1) + Join(if st == [] then [DOT] else st)
  {
    var st := Resolve([], Segments(raw), false);
    RelativeShape(Segments(raw));
    JoinOfPlain(st);
    assert Slashes(0) + Join(st) == Join(st);
  }

  lemma {:induction false} RelativeIdempotentIff(raw: string)
    requires raw != "" && !Absolute(raw)
    ensures Normalize(Normalize(raw)) == Normalize(raw) <==> StaysBelow(Segments(raw))
  {
    var cs := Segments(raw);
    var st := Resolve([], cs, false);
    var shown := if st == [] then [DOT] else st;
    RelativeNormal(raw);
    RelativeShape(cs);
    ShapeIsFixedIff(1, shown);
    assert shown[0] in shown;
  }

  /** Normalising twice is normalising once exactly when the path is empty or absolute, or is a relative one
      that never climbs above its start and ends below it. */
  lemma {:induction false} IdempotentIff(raw: string)
    ensures Normalize(Normalize(raw)) == Normalize(raw) <==>
      raw == "" || Absolute(raw) || StaysBelow(Segments(raw))
  {
    if raw == "" {
      ShapeIsFixed(1, []);
      assert Slashes(1) + Join([]) == "/";
    } else if Absolute(raw) {
      AbsoluteShape(raw);
      ShapeIsFixed(Root(raw), Resolve([], Segments(raw), true));
    } else {
      RelativeIdempotentIff(raw);
    }
  }

  lemma {:induction false} FoldConcat(p: string, q: string)
    ensures Fold(p + "/" + q) == Fold(p) + "/" + Fold(q)
  {
    var a, b := Fold(p + "/" + q), Fold(p) + "/" + Fold(q);
    assert forall i | 0 <= i < |a| :: a[i] == b[i];
  }

  lemma {:induction false} RootAlone(k: nat)
    requires 1 <= k <= 2
    ensures Resolve([], Split(Slashes(k)), true) == []
  {
    SplitShape(k, []);
    assert Slashes(k) + Join([]) == Slashes(k);
    ResolveConcat([], if k == 1 then [""] else ["", ""], [""], true);
    EmptyResolves([], k, true);
    EmptyResolves([], 1, true);
  }

  /** More path after some name does not change the root. */
  lemma {:induction false} RootStays(f: string, x: string)
    requires f != "" && f[0] == '/' && Resolve([], Split(f), true) != []
    ensures LeadingSlashes(f + "/" + x) == LeadingSlashes(f)
  {
    RootAlone(1);
    RootAlone(2);
    assert f != Slashes(1) && f != Slashes(2);
  }

  lemma {:induction false} UpAlone(rooted: bool)
    ensures Resolve([], [UP], rooted) == if rooted then [] else [UP]
  {
    var none: seq<string> := [];
    assert [UP][..0] == none;
    assert Resolve([], [UP], rooted) == Push(none, UP, rooted);
  }

  lemma {:induction false} UpFirstPass()
    ensures Normalize(UP) == Slashes(1) + Join([UP])
  {
    SplitPlain(UP);
    NoBackslashFold(UP);
    RelativeNormal(UP);
    UpAlone(false);
  }

  lemma {:induction false} UpSecondPass()
    ensures Normalize(Slashes(1) + Join([UP])) == Slashes(1)
  {
    SplitShape(1, [UP]);
    NoBackslashFold(Slashes(1) + Join([UP]));
    ResolveShape(1, [UP]);
    UpAlone(true);
  }

  /** A relative path that climbs is not normalised for good: the first pass leaves `..` under the root it adds, the
      second drops it. */
  lemma {:induction false} ClimbingTakesTwoPasses()
    ensures Normalize("..") == "/.." && Normalize(Normalize("..")) == "/"
  {
    UpFirstPass();
    UpSecondPass();
    assert Slashes(1) + Join([UP]) == "/..";
  }

  /** Repeated slashes are collapsed except in one place: two slashes survive exactly at the front of a path that
      starts with two and no more, back-slashes counting as slashes. */
  lemma {:induction false} TwoSlashesSurviveIff(raw: string)
    ensures var f := Fold(raw);
      DoubleSlash(Normalize(raw)) <==> |f| >= 2 && f[0] == '/' && f[1] == '/' && (|f| == 2 || f[2] != '/')
    ensures forall i | 1 <= i < |Normalize(raw)| - 1 :: !(Normalize(raw)[i] == '/' && Normalize(raw)[i + 1] == '/')
  {
    if raw == "" {
    } else if Absolute(raw) {
      AbsoluteShape(raw);
      var st := Resolve([], Segments(raw), true);
      OneOrTwo(Root(raw), st);
      NoPairsInside(Root(raw), st);
    } else {
      RelativeNormal(raw);
      var st := Resolve([], Segments(raw), false);
      OneOrTwo(1, if st == [] then [DOT] else st);
      NoPairsInside(1, if st == [] then [DOT] else st);
    }
  }

  ghost predicate PairAt(s: string, i: nat) {
    i + 1 < |s| && s[i] == '/' && s[i + 1] == '/'
  }

  lemma {:induction false} NoPairsInJoin(cs: seq<string>, i: nat)
    requires forall c | c in cs :: c != "" && '/' !in c && '\\' !in c
    ensures !PairAt(Join(cs), i)
  {
    if cs != [] && i + 1 < |Join(cs)| {
      var first := cs[0];
      assert first in cs && forall ch | ch in first :: ch != '/';
      if i < |first| {
        assert Join(cs)[i] == first[i];
      } else {
        assert forall c | c in cs[1..] :: c in cs;
        JoinOfPlain(cs[1..]);
        var rest := Join(cs[1..]);
        assert Join(cs) == first + "/" + rest;
        if i > |first| {
          NoPairsInJoin(cs[1..], i - |first| - 1);
          assert Join(cs)[i] == rest[i - |first| - 1] && Join(cs)[i + 1] == rest[i - |first|];
        } else {
          assert Join(cs)[i + 1] == rest[0];
        }
      }
    }
  }

  lemma {:induction false} NoPairsInside(k: nat, cs: seq<string>)
    requires 1 <= k <= 2 && forall c | c in cs :: c != "" && '/' !in c && '\\' !in c
    ensures var s := Slashes(k) + Join(cs); forall i | 1 <= i < |s| - 1 :: !(s[i] == '/' && s[i + 1] == '/')
  {
    var s := Slashes(k) + Join(cs);
    JoinOfPlain(cs);
    forall i | 1 <= i < |s| - 1 ensures !(s[i] == '/' && s[i + 1] == '/') {
      if i >= k {
        NoPairsInJoin(cs, i - k);
        assert s[i] == Join(cs)[i - k] && s[i + 1] == Join(cs)[i - k + 1];
      } else {
        assert s[i + 1] == Join(cs)[0];
      }
    }
  }

  lemma {:induction false} TwoNames(a: string, b: string)
    requires Plain(a) && Plain(b)
    ensures Normalize("//" + (a + "/" + b)) == "//" + (a + "/" + b)
  {
    assert [a, b][1..] == [b];
    assert Join([a, b]) == a + "/" + b;
    ShapeIsFixed(2, [a, b]);
  }

  /** One such path, aimed at the area the guard watches. */
  lemma {:induction false} TwoSlashesSurvive(raw: string)
    requires raw == "//v1/admin"
    ensures Normalize(raw) == raw && DoubleSlash(Normalize(raw))
  {
    var a, b := AdminNames(raw);
    TwoNames(a, b);
  }

  lemma {:induction false} AdminNames(raw: string) returns (a: string, b: string)
    requires raw == "//v1/admin"
    ensures Plain(a) && Plain(b) && raw == "//" + (a + "/" + b) && DoubleSlash(raw)
  {
    a, b := "v1", "admin";
    assert a[0] != '.' && b[0] != '.';
  }

  /** The path so far, then more of it. */
  lemma {:induction false} ExtendedShape(p: string, q: string)
    requires Absolute(p) && Resolve([], Segments(p), true) != []
    ensures Normalize(p + "/" + q)
         == Slashes(Root(p)) + Join(Resolve(Resolve([], Segments(p), true), Segments(q), true))
  {
    FoldConcat(p, q);
    SplitConcat(Fold(p), Fold(q));
    RootStays(Fold(p), Fold(q));
    ResolveConcat([], Segments(p), Segments(q), true);
    AbsoluteShape(p + "/" + q);
  }

  /** Normalisation preserves where a path leads: resolving its beginning first changes nothing, unless the
      beginning is the root itself, whose slash would then be counted with the next. */
  lemma {:induction false} PrefixFirst(p: string, q: string)
    requires Absolute(p) && Normalize(p) != "/" && Normalize(p) != "//"
    ensures Normalize(Normalize(p) + "/" + q) == Normalize(p + "/" + q)
  {
    var k, st := Root(p), Resolve([], Segments(p), true);
    AbsoluteShape(p);
    assert st != [] by {
      assert Slashes(k) + Join([]) == Slashes(k);
    }
    ExtendedShape(p, q);
    SplitShape(k, st);
    NoBackslashFold(Normalize(p));
    var roots := if k == 1 then [""] else ["", ""];
    ResolveConcat([], roots, st, true);
    EmptyResolves([], k, true);
    ResolvePlain([], st, true);
    assert [] + st == st;
    ExtendedShape(Normalize(p), q);
  }

  /** Going down one name and up again leads back. */
  lemma {:induction false} UpUndoesName(p: string, name: string)
    requires Absolute(p) && Normalize(p) != "/" && Normalize(p) != "//" && Plain(name)
    ensures Normalize(p + "/" + (name + "/" + UP)) == Normalize(p)
  {
    var k, st := Root(p), Resolve([], Segments(p), true);
    AbsoluteShape(p);
    assert st != [] by {
      assert Slashes(k) + Join([]) == Slashes(k);
    }
    ExtendedShape(p, name + "/" + UP);
    DetourResolves(st, name);
  }

  lemma {:induction false} DetourSegments(name: string)
    requires Plain(name)
    ensures Segments(name + "/" + UP) == [name] + [UP]
  {
    NoBackslashFold(name + "/" + UP);
    SplitConcat(name, UP);
    SplitPlain(name);
    SplitPlain(UP);
  }

  lemma {:induction false} DetourResolves(st: seq<string>, name: string)
    requires Plain(name)
    ensures Resolve(st, Segments(name + "/" + UP), true) == st
  {
    DetourSegments(name);
    ResolveConcat(st, [name], [UP], true);
    ResolvePlain(st, [name], true);
    var down := st + [name];
    assert [UP][..0] == [];
    assert Resolve(down, [UP], true) == Push(down, UP, true) == down[..|down| - 1] == st;
  }

  // ---------------------------------------------------------------- raw paths that are already canonical

  /** `_clean_raw_path` accepts exactly the paths that, less one trailing slash, are their own normal form and do
      not start with two slashes. */
  lemma {:induction false} CleanIsCanonical(raw: string)
    ensures CleanRawPath(raw) ==
      if Normalize(Trim(raw)) == Trim(raw) && !DoubleSlash(Trim(raw)) then Some(Trim(raw)) else None
  {
    var c := Trim(raw);
    if CleanRawPath(raw).Some? {
      CleanIsFixed(raw);
    } else if Normalize(c) == c && !DoubleSlash(c) {
      FixedIsClean(raw);
    }
  }

  lemma {:induction false} CleanIsFixed(raw: string)
    requires CleanRawPath(raw).Some?
    ensures Normalize(Trim(raw)) == Trim(raw) && !DoubleSlash(Trim(raw))
  {
    var c := Trim(raw);
    if c == "/" {
      ShapeIsFixed(1, []);
      assert Slashes(1) + Join([]) == "/";
    } else {
      RootAndSegments(c);
      TrimKeeps(raw);
      var segments := Split(c)[1..];
      forall x | x in segments ensures Plain(x) {
        assert x in Split(c);
        assert '\\' !in x;
      }
      ShapeIsFixed(1, segments);
      JoinOfPlain(segments);
    }
  }

  lemma {:induction false} RootAndSegments(c: string)
    requires Starts(c, "/")
    ensures c == "/" + Join(Split(c)[1..])
  {
    assert c == "/" + c[1..];
    SplitRooted(c[1..]);
    JoinSplit(c[1..]);
  }

  lemma {:induction false} FixedIsClean(raw: string)
    requires Normalize(Trim(raw)) == Trim(raw) && !DoubleSlash(Trim(raw))
    ensures CleanRawPath(raw).Some?
  {
    var c := Trim(raw);
    NormalFormIsAbsolute(c);
    AbsoluteShape(c);
    var st := Resolve([], Segments(c), true);
    OneOrTwo(Root(c), st);
    SplitShape(1, st);
    TrimKeeps(raw);
    assert st != [] ==> Split(c)[1..] == st;
    assert st == [] ==> c == "/";
  }

  lemma {:induction false} TrimKeeps(raw: string)
    ensures '\\' in raw <==> '\\' in Trim(raw)
  {
    if Trim(raw) != raw {
      assert raw == Trim(raw) + "/";
    }
  }

  // ---------------------------------------------------------------- collapsing slashes first

  function Names(cs: seq<string>): seq<string> {
    if cs == [] then []
    else Names(cs[..|cs| - 1]) + if cs[|cs| - 1] == "" then [] else [cs[|cs| - 1]]
  }

  lemma {:induction false} NamesConcat(a: seq<string>, b: seq<string>)
    ensures Names(a + b) == Names(a) + Names(b)
  {
    if b == [] {
      assert a + b == a;
    } else {
      assert (a + b)[..|a + b| - 1] == a + b[..|b| - 1];
      NamesConcat(a, b[..|b| - 1]);
    }
  }

  lemma {:induction false} NamesFirst(cs: seq<string>)
    requires cs != []
    ensures Names(cs) == (if cs[0] == "" then [] else [cs[0]]) + Names(cs[1..])
  {
    assert cs == [cs[0]] + cs[1..];
    NamesConcat([cs[0]], cs[1..]);
    assert [cs[0]][..0] == [];
  }

  /** Empty segments count for nothing. */
  lemma {:induction false} ResolveNames(cs: seq<string>, rooted: bool)
    ensures Resolve([], cs, rooted) == Resolve([], Names(cs), rooted)
  {
    if cs != [] {
      var front, last := cs[..|cs| - 1], cs[|cs| - 1];
      ResolveNames(front, rooted);
      if last == "" {
        assert Names(cs) == Names(front);
      } else {
        assert (Names(front) + [last])[..|Names(front)|] == Names(front);
      }
    }
  }

  ghost predicate SameNames(s: string, t: string) {
    Split(s)[0] == Split(t)[0] && Names(Split(s)) == Names(Split(t))
  }

  lemma {:induction false} NamesAfterSlash(s: string)
    ensures Split("/" + s)[0] == "" && Names(Split("/" + s)) == Names(Split(s))
  {
    SplitRooted(s);
    NamesFirst([""] + Split(s));
    assert ([""] + Split(s))[1..] == Split(s);
  }

  lemma {:induction false} SplitAfterChar(ch: char, s: string)
    requires ch != '/'
    ensures Split([ch] + s) == [[ch] + Split(s)[0]] + Split(s)[1..]
  {
    assert ([ch] + s)[1..] == s;
  }

  lemma {:induction false} SameNamesAfterChar(ch: char, s: string, t: string)
    requires ch != '/' && SameNames(s, t)
    ensures SameNames([ch] + s, [ch] + t)
  {
    var a, b := Split(s), Split(t);
    NamesFirst(a);
    NamesFirst(b);
    var first := if a[0] == "" then [] else [a[0]];
    assert (first + Names(a[1..]))[|first|..] == Names(a[1..]);
    assert (first + Names(b[1..]))[|first|..] == Names(b[1..]);
    SplitAfterChar(ch, s);
    SplitAfterChar(ch, t);
    NamesFirst([[ch] + a[0]] + a[1..]);
    NamesFirst([[ch] + b[0]] + b[1..]);
  }

  lemma {:induction false} CollapseStart(s: string)
    ensures s != "" ==> Collapse(s) != "" && Collapse(s)[0] == s[0]
    ensures LeadingSlashes(Collapse(s)) <= 1
  {
    if |s| >= 2 {
      CollapseStart(s[1..]);
    }
  }

  lemma {:induction false} CollapseKeepsNames(s: string)
    ensures SameNames(Collapse(s), s)
  {
    if |s| >= 2 {
      var t := s[1..];
      assert s == [s[0]] + t;
      CollapseKeepsNames(t);
      if s[0] == '/' {
        NamesAfterSlash(t);
        NamesAfterSlash(Collapse(t));
        assert s[1] == '/' ==> t == "/" + t[1..];
        assert s[1] == '/' ==> Split(t)[0] == "";
      } else {
        SameNamesAfterChar(s[0], Collapse(t), t);
      }
    }
  }

  /** Collapsing leaves no two slashes in a row, the same names in the same order, and alone what has no such pair. */
  lemma {:induction false} CollapseExactly(s: string)
    ensures forall i: nat :: !PairAt(Collapse(s), i)
    ensures (forall i: nat :: !PairAt(s, i)) ==> Collapse(s) == s
    ensures Names(Split(Collapse(s))) == Names(Split(s))
  {
    CollapseKeepsNames(s);
    forall i: nat ensures !PairAt(Collapse(s), i) { NoPairsLeft(s, i); }
    if forall i: nat :: !PairAt(s, i) {
      NothingToCollapse(s);
    }
  }

  lemma {:induction false} NoPairsLeft(s: string, i: nat)
    ensures !PairAt(Collapse(s), i)
  {
    if |s| >= 2 {
      var t := s[1..];
      if s[0] == '/' && s[1] == '/' {
        NoPairsLeft(t, i);
      } else {
        CollapseStart(t);
        if i > 0 {
          NoPairsLeft(t, i - 1);
        }
      }
    }
  }

  lemma {:induction false} NothingToCollapse(s: string)
    requires forall i: nat :: !PairAt(s, i)
    ensures Collapse(s) == s
  {
    if |s| >= 2 {
      assert !PairAt(s, 0);
      forall i: nat ensures !PairAt(s[1..], i) {
        assert !PairAt(s, i + 1);
      }
      NothingToCollapse(s[1..]);
    }
  }

  lemma {:induction false} CollapseStaysFolded(s: string)
    requires '\\' !in s
    ensures '\\' !in Collapse(s)
  {
    if |s| >= 2 {
      assert s[0] in s && forall ch | ch in s[1..] :: ch in s;
      CollapseStaysFolded(s[1..]);
    }
  }

  lemma {:induction false} CollapseResolves(f: string, rooted: bool)
    ensures Resolve([], Split(Collapse(f)), rooted) == Resolve([], Split(f), rooted)
  {
    CollapseKeepsNames(f);
    ResolveNames(Split(f), rooted);
    ResolveNames(Split(Collapse(f)), rooted);
  }

  lemma {:induction false} OneOrTwo(k: nat, cs: seq<string>)
    requires 1 <= k <= 2 && forall c | c in cs :: c != "" && '/' !in c && '\\' !in c
    ensures DoubleSlash(Slashes(k) + Join(cs)) <==> k == 2
    ensures k == 2 ==> (Slashes(k) + Join(cs))[1..] == Slashes(1) + Join(cs)
  {
    JoinOfPlain(cs);
    assert cs == [] ==> Join(cs) == "";
  }

  /** Normalising after collapsing is normalising, with one leading slash. */
  lemma {:induction false} CollapseThenNormalize(path: string)
    ensures Normalize(Collapse(Fold(path))) == OneSlash(Normalize(path))
  {
    var f := Fold(path);
    var g := Collapse(f);
    CollapseStart(f);
    CollapseStaysFolded(f);
    NoBackslashFold(g);
    if Absolute(path) {
      CollapseResolves(f, true);
      AbsoluteShape(path);
      AbsoluteShape(g);
      OneOrTwo(Root(path), Resolve([], Segments(path), true));
    } else if path != "" {
      CollapseResolves(f, false);
      RelativeNormal(path);
      RelativeNormal(g);
      var st := Resolve([], Segments(path), false);
      OneOrTwo(1, if st == [] then [DOT] else st);
    }
  }

  // ---------------------------------------------------------------- the guard

  const ADMIN := ["/v1/admin", "/v1/user-anonymisation"]

  /** `_under_prefix`. */
  predicate UnderPrefix(path: string, prefixes: seq<string>) {
    exists p | p in prefixes :: path == p || Starts(path, p + "/")
  }

  /** `_is_demo_admin_area`. */
  predicate AdminArea(path: string) {
    var collapsed := Collapse(Fold(path));
    UnderPrefix(path, ADMIN) || UnderPrefix(collapsed, ADMIN) || UnderPrefix(Normalize(collapsed), ADMIN)
  }

  const BASE := "/v1/admin/"

  const LISTED := [
    "health", "disk", "trivy/health", "kev/health", "eol/health", "malicious/health", "scans", "teams", "organizations",
    "users", "audit"]

  const LISTED_BY_ID := ["teams/", "users/"]

  predicate HexDigit(c: char) {
    '0' <= c <= '9' || 'a' <= c <= 'f' || 'A' <= c <= 'F'
  }

  predicate Uuid(s: string) {
    && |s| == 36
    && forall i | 0 <= i < 36 :: if i == 8 || i == 13 || i == 18 || i == 23 then s[i] == '-' else HexDigit(s[i])
  }

  predicate ListedName(name: string) {
    name in LISTED || exists p | p in LISTED_BY_ID :: Starts(name, p) && Uuid(name[|p|..])
  }

  /** Whether one of the patterns matches; in each, `$` also matches before a final newline. */
  predicate Listed(path: string) {
    var line := if path != "" && path[|path| - 1] == '\n' then path[..|path| - 1] else path;
    Starts(line, BASE) && ListedName(line[|BASE|..])
  }

  /** `_is_demo_admin_read_allowed`, given the upper-cased method. */
  predicate ReadAllowed(method': string, path: string) {
    if !AdminArea(path) then true
    else if method' != "GET" && method' != "HEAD" then false
    else
      var clean := CleanRawPath(path);
      clean.Some? && Listed(clean.value)
  }

  /** The segments of a path begin like those of a guarded prefix. */
  ghost predicate Guarded(cs: seq<string>) {
    |cs| >= 3 && cs[0] == "" && cs[1] == "v1" && (cs[2] == "admin" || cs[2] == "user-anonymisation")
  }

  lemma {:induction false} SplitPrefix(name: string)
    requires '/' !in name
    ensures Split("/v1/" + name) == ["", "v1", name]
  {
    SplitConcat("v1", name);
    SplitPlain("v1");
    SplitPlain(name);
    SplitRooted("v1" + "/" + name);
    assert "/v1/" + name == "/" + ("v1" + "/" + name);
  }

  lemma {:induction false} JoinConcat(a: seq<string>, b: seq<string>)
    requires a != [] && b != []
    ensures Join(a + b) == Join(a) + "/" + Join(b)
  {
    if |a| == 1 {
      assert (a + b)[1..] == b;
    } else {
      assert (a + b)[1..] == a[1..] + b;
      JoinConcat(a[1..], b);
    }
  }

  /** Being a prefix or lying below it is having its segments first. */
  lemma {:induction false} BelowIff(path: string, p: string)
    ensures path == p || Starts(path, p + "/") <==>
      |Split(path)| >= |Split(p)| && Split(path)[..|Split(p)|] == Split(p)
  {
    var cs, ps := Split(path), Split(p);
    if Starts(path, p + "/") {
      var rest := path[|p| + 1..];
      assert path == p + "/" + rest;
      SplitConcat(p, rest);
    }
    if |cs| >= |ps| && cs[..|ps|] == ps {
      JoinSplit(path);
      JoinSplit(p);
      if |cs| > |ps| {
        JoinConcat(ps, cs[|ps|..]);
        assert cs == ps + cs[|ps|..];
        assert path == p + "/" + Join(cs[|ps|..]);
        assert path[..|p| + 1] == p + "/";
      } else {
        assert cs == ps;
      }
    }
  }

  lemma {:induction false} PrefixIsGuarded(path: string, name: string)
    requires name == "admin" || name == "user-anonymisation"
    ensures var p := "/v1/" + name;
      path == p || Starts(path, p + "/") <==> |Split(path)| >= 3 && Split(path)[..3] == ["", "v1", name]
  {
    SplitPrefix(name);
    BelowIff(path, "/v1/" + name);
  }

  lemma {:induction false} ThreeFirst(cs: seq<string>, name: string)
    ensures |cs| >= 3 && cs[..3] == ["", "v1", name] <==> |cs| >= 3 && cs[0] == "" && cs[1] == "v1" && cs[2] == name
  {
    if |cs| >= 3 {
      assert cs[..3] == [cs[0], cs[1], cs[2]];
    }
  }

  lemma {:induction false} UnderIsGuarded(path: string)
    ensures UnderPrefix(path, ADMIN) <==> Guarded(Split(path))
  {
    PrefixIsGuarded(path, "admin");
    PrefixIsGuarded(path, "user-anonymisation");
    ThreeFirst(Split(path), "admin");
    ThreeFirst(Split(path), "user-anonymisation");
    TwoPrefixes();
    UnderTwo(path, ADMIN, "/v1/" + "admin", "/v1/" + "user-anonymisation");
  }

  lemma {:induction false} UnderTwo(path: string, prefixes: seq<string>, a: string, b: string)
    requires forall p :: p in prefixes <==> p == a || p == b
    ensures UnderPrefix(path, prefixes) <==> path == a || Starts(path, a + "/") || path == b || Starts(path, b + "/")
  {
    assert a in prefixes && b in prefixes;
  }

  lemma {:induction false} TwoPrefixes()
    ensures forall p :: p in ADMIN <==> p == "/v1/" + "admin" || p == "/v1/" + "user-anonymisation"
  {
    assert ADMIN[0] in ADMIN && ADMIN[1] in ADMIN;
    assert ADMIN[0] == "/v1/" + "admin" && ADMIN[1] == "/v1/" + "user-anonymisation";
  }

  lemma {:induction false} PrefixHasOneSlash(path: string)
    requires UnderPrefix(path, ADMIN)
    ensures !DoubleSlash(path)
  {
    var p :| p in ADMIN && (path == p || Starts(path, p + "/"));
    assert p == ADMIN[0] || p == ADMIN[1];
    assert |p| >= 2 && p[1] == 'v';
    assert path[1] == (p + "/")[1] == 'v' || path[1] == p[1];
  }

  /** The area, by every reading and segment by segment: the raw path, the path with its slashes collapsed, and its
      normal form with one leading slash. So no traversal hides from the guard, however many slashes lead it. */
  lemma {:induction false} GuardSeesEveryReading(path: string)
    ensures AdminArea(path) <==>
      || Guarded(Split(path)) || Guarded(Split(Collapse(Fold(path)))) || Guarded(Split(OneSlash(Normalize(path))))
    ensures Guarded(Split(Normalize(path))) ==> AdminArea(path)
  {
    CollapseThenNormalize(path);
    UnderIsGuarded(path);
    UnderIsGuarded(Collapse(Fold(path)));
    UnderIsGuarded(OneSlash(Normalize(path)));
    if Guarded(Split(Normalize(path))) {
      UnderIsGuarded(Normalize(path));
      PrefixHasOneSlash(Normalize(path));
    }
  }

  /** In particular each prefix and everything below it. */
  lemma {:induction false} EverythingBelowIsGuarded(rest: string)
    ensures AdminArea("/v1/" + "admin") && AdminArea("/v1/" + "admin" + "/" + rest)
    ensures AdminArea("/v1/" + "user-anonymisation") && AdminArea("/v1/" + "user-anonymisation" + "/" + rest)
  {
    BelowIsGuarded("admin", rest);
    BelowIsGuarded("user-anonymisation", rest);
  }

  lemma {:induction false} BelowIsGuarded(name: string, rest: string)
    requires name == "admin" || name == "user-anonymisation"
    ensures AdminArea("/v1/" + name) && AdminArea("/v1/" + name + "/" + rest)
  {
    var p := "/v1/" + name;
    SplitPrefix(name);
    SplitConcat(p, rest);
    UnderIsGuarded(p);
    UnderIsGuarded(p + "/" + rest);
  }

  lemma {:induction false} ListedIsLong(path: string)
    requires Listed(path)
    ensures |path| > 1
  {
    assert |BASE| > 1;
  }

  /** A trailing slash makes no difference to the normal form, except at the root. */
  lemma {:induction false} TrailingSlash(c: string)
    requires Absolute(c) && Normalize(c) == c && |c| > 1 && !DoubleSlash(c)
    ensures Normalize(c + "/") == c
  {
    AbsoluteShape(c);
    var st := Resolve([], Segments(c), true);
    OneOrTwo(Root(c), st);
    SplitShape(1, st);
    var d := c + "/";
    SplitConcat(c, "");
    assert d == c + "/" + "";
    NoBackslashFold(c);
    NoBackslashFold(d);
    AbsoluteShape(d);
    ResolveConcat([], Split(c), [""], true);
    EmptyResolves(Resolve([], Split(c), true), 1, true);
    assert st != [];
  }

  lemma {:induction false} NormalFormIsAbsolute(raw: string)
    ensures Starts(Normalize(raw), "/") && Absolute(Normalize(raw))
  {
    var n := Normalize(raw);
    assert n[..1] == "/";
    assert n[0] == n[..1][0] == '/';
  }

  lemma {:induction false} TrimmedNormal(path: string)
    requires Normalize(Trim(path)) == Trim(path) && |Trim(path)| > 1 && !DoubleSlash(Trim(path))
    ensures Normalize(path) == Trim(path)
  {
    var c := Trim(path);
    NormalFormIsAbsolute(c);
    if path != c {
      assert path == c + "/";
      TrailingSlash(c);
    }
  }

  /** `n` hexadecimal digits, of either case. */
  ghost predicate HexDigits(s: string, n: nat) {
    |s| == n && forall ch | ch in s :: ch in "0123456789abcdefABCDEF"
  }

  ghost predicate IsUuid(u: string) {
    exists a, b, c, d, e ::
      && HexDigits(a, 8) && HexDigits(b, 4) && HexDigits(c, 4) && HexDigits(d, 4) && HexDigits(e, 12)
      && u == a + "-" + b + "-" + c + "-" + d + "-" + e
  }

  /** The reads a visitor of the demo may make: eleven pages, and a team or a user by id. A single newline at the end
      goes unnoticed. */
  ghost predicate OnTheList(path: string) {
    var line := if path != "" && path[|path| - 1] == '\n' then path[..|path| - 1] else path;
    || line in [
         "/v1/admin/health", "/v1/admin/disk", "/v1/admin/trivy/health", "/v1/admin/kev/health",
         "/v1/admin/eol/health", "/v1/admin/malicious/health", "/v1/admin/scans", "/v1/admin/teams",
         "/v1/admin/organizations", "/v1/admin/users", "/v1/admin/audit"]
    || exists u | IsUuid(u) :: line == "/v1/admin/teams/" + u || line == "/v1/admin/users/" + u
  }

  lemma {:induction false} HexIsDigit(ch: char)
    ensures HexDigit(ch) <==> ch in "0123456789abcdefABCDEF"
  {
    var all := "0123456789abcdefABCDEF";
    if HexDigit(ch) {
      var k := if ch <= '9' then ch as int - '0' as int
               else if ch >= 'a' then 10 + ch as int - 'a' as int else 16 + ch as int - 'A' as int;
      assert 0 <= k < |all| && all[k] == ch;
    }
  }

  lemma {:induction false} HexRange(s: string, i: nat, j: nat)
    requires i <= j <= |s|
    ensures HexDigits(s[i..j], j - i) <==> forall k | i <= k < j :: HexDigit(s[k])
  {
    forall k | i <= k < j ensures HexDigit(s[k]) <==> s[k] in "0123456789abcdefABCDEF" { HexIsDigit(s[k]); }
    var t := s[i..j];
    if forall k | i <= k < j :: HexDigit(s[k]) {
      forall ch | ch in t ensures ch in "0123456789abcdefABCDEF" {
        var k :| 0 <= k < |t| && t[k] == ch;
        assert HexDigit(s[i + k]);
      }
    }
    if HexDigits(t, j - i) {
      forall k | i <= k < j ensures HexDigit(s[k]) {
        assert t[k - i] in t && t[k - i] == s[k];
      }
    }
  }

  /** The dashes where they belong. */
  ghost predicate Dashed(s: string) {
    |s| == 36 && s[8] == '-' && s[13] == '-' && s[18] == '-' && s[23] == '-'
  }

  lemma {:induction false} DashedIsFive(s: string)
    requires Dashed(s)
    ensures s == s[0..8] + "-" + s[9..13] + "-" + s[14..18] + "-" + s[19..23] + "-" + s[24..36]
  {
  }

  lemma {:induction false} FiveIsDashed(a: string, b: string, c: string, d: string, e: string)
    requires |a| == 8 && |b| == 4 && |c| == 4 && |d| == 4 && |e| == 12
    ensures var s := a + "-" + b + "-" + c + "-" + d + "-" + e;
      && Dashed(s) && s[0..8] == a && s[9..13] == b && s[14..18] == c && s[19..23] == d && s[24..36] == e
  {
  }

  lemma {:induction false} UuidParts(s: string)
    requires |s| == 36
    ensures Uuid(s) <==>
      && Dashed(s) && HexDigits(s[0..8], 8) && HexDigits(s[9..13], 4) && HexDigits(s[14..18], 4)
      && HexDigits(s[19..23], 4) && HexDigits(s[24..36], 12)
  {
    HexRange(s, 0, 8);
    HexRange(s, 9, 13);
    HexRange(s, 14, 18);
    HexRange(s, 19, 23);
    HexRange(s, 24, 36);
  }

  lemma {:induction false} UuidExactly(u: string)
    ensures Uuid(u) <==> IsUuid(u)
  {
    if IsUuid(u) {
      var a, b, c, d, e :|
        && HexDigits(a, 8) && HexDigits(b, 4) && HexDigits(c, 4) && HexDigits(d, 4) && HexDigits(e, 12)
        && u == a + "-" + b + "-" + c + "-" + d + "-" + e;
      FiveIsDashed(a, b, c, d, e);
      UuidParts(u);
    }
    if Uuid(u) {
      UuidParts(u);
      DashedIsFive(u);
    }
  }

  lemma {:induction false} ListedPages(line: string)
    ensures Starts(line, BASE) && line[|BASE|..] in LISTED <==>
      line in [
        "/v1/admin/health", "/v1/admin/disk", "/v1/admin/trivy/health", "/v1/admin/kev/health",
        "/v1/admin/eol/health", "/v1/admin/malicious/health", "/v1/admin/scans", "/v1/admin/teams",
        "/v1/admin/organizations", "/v1/admin/users", "/v1/admin/audit"]
  {
    var full := [
      "/v1/admin/health", "/v1/admin/disk", "/v1/admin/trivy/health", "/v1/admin/kev/health",
      "/v1/admin/eol/health", "/v1/admin/malicious/health", "/v1/admin/scans", "/v1/admin/teams",
      "/v1/admin/organizations", "/v1/admin/users", "/v1/admin/audit"];
    assert |LISTED| == |full| == 11;
    assert BASE + LISTED[0] == full[0] && BASE + LISTED[1] == full[1] && BASE + LISTED[2] == full[2];
    assert BASE + LISTED[3] == full[3] && BASE + LISTED[4] == full[4] && BASE + LISTED[5] == full[5];
    assert BASE + LISTED[6] == full[6] && BASE + LISTED[7] == full[7] && BASE + LISTED[8] == full[8];
    assert BASE + LISTED[9] == full[9] && BASE + LISTED[10] == full[10];
    PairedLists(line, BASE, LISTED, full);
  }

  lemma {:induction false} PairedLists(line: string, base: string, names: seq<string>, full: seq<string>)
    requires |names| == |full| && forall k | 0 <= k < |names| :: base + names[k] == full[k]
    ensures Starts(line, base) && line[|base|..] in names <==> line in full
  {
    if Starts(line, base) && line[|base|..] in names {
      var k :| 0 <= k < |names| && names[k] == line[|base|..];
      assert line == base + names[k];
      assert full[k] in full;
    }
    if line in full {
      var k :| 0 <= k < |full| && full[k] == line;
      assert line == base + names[k];
      assert line[..|base|] == base && line[|base|..] == names[k];
    }
  }

  /** A page named by an id. */
  lemma {:induction false} ById(line: string, base: string, p: string)
    ensures Starts(line, base) && Starts(line[|base|..], p) && Uuid(line[|base|..][|p|..]) <==>
      exists u | IsUuid(u) :: line == base + p + u
  {
    if Starts(line, base) && Starts(line[|base|..], p) && Uuid(line[|base|..][|p|..]) {
      var u := line[|base|..][|p|..];
      UuidExactly(u);
      assert line == base + p + u;
    }
    if u :| IsUuid(u) && line == base + p + u {
      UuidExactly(u);
      assert line[..|base|] == base && line[|base|..] == p + u && (p + u)[..|p|] == p && (p + u)[|p|..] == u;
    }
  }

  lemma {:induction false} ListedLine(line: string)
    ensures Starts(line, BASE) && ListedName(line[|BASE|..]) <==>
      || (Starts(line, BASE) && line[|BASE|..] in LISTED)
      || exists u | IsUuid(u) :: line == BASE + "teams/" + u || line == BASE + "users/" + u
  {
    ById(line, BASE, "teams/");
    ById(line, BASE, "users/");
    assert LISTED_BY_ID[0] in LISTED_BY_ID && LISTED_BY_ID[1] in LISTED_BY_ID;
    assert forall p | p in LISTED_BY_ID :: p == "teams/" || p == "users/";
  }

  /** The patterns match exactly what is on the list. */
  lemma {:induction false} ListedExactly(path: string)
    ensures Listed(path) <==> OnTheList(path)
  {
    var line := if path != "" && path[|path| - 1] == '\n' then path[..|path| - 1] else path;
    ListedPages(line);
    ListedLine(line);
    assert BASE + "teams/" == "/v1/admin/teams/" && BASE + "users/" == "/v1/admin/users/";
  }

  /** One trailing slash goes, except the root's own. */
  lemma {:induction false} TrimExactly(c: string)
    ensures c != "" ==> Trim(c + "/") == c
    ensures c == "" || c == "/" || c[|c| - 1] != '/' ==> Trim(c) == c
  {
    assert (c + "/")[..|c|] == c;
  }

  /** Outside the area the guard has no say. Inside it exactly the reads on the list pass, and only under a raw path
      that less one trailing slash is its own normal form: what the router sees is what the list saw. */
  lemma {:induction false} AdmittedExactly(method': string, path: string)
    ensures ReadAllowed(method', path) <==>
      || !(|| Guarded(Split(path)) || Guarded(Split(Collapse(Fold(path))))
           || Guarded(Split(OneSlash(Normalize(path)))))
      || (&& (method' == "GET" || method' == "HEAD") && OnTheList(Trim(path))
          && Normalize(Trim(path)) == Trim(path) && !DoubleSlash(Trim(path)))
  {
    GuardSeesEveryReading(path);
    CleanIsCanonical(path);
    ListedExactly(Trim(path));
  }

  /** So anything below a guarded prefix that is not on the list is refused, whatever the method. */
  lemma {:induction false} UnlistedIsRefused(method': string, name: string, rest: string)
    requires name == "admin" || name == "user-anonymisation"
    requires !OnTheList(Trim("/v1/" + name + "/" + rest)) || (method' != "GET" && method' != "HEAD")
    ensures !ReadAllowed(method', "/v1/" + name + "/" + rest)
  {
    BelowIsGuarded(name, rest);
    GuardSeesEveryReading("/v1/" + name + "/" + rest);
    AdmittedExactly(method', "/v1/" + name + "/" + rest);
  }

  /** The roster export does not ride the entry for one user. */
  lemma {:induction false} ExportIsRefused(method': string, rest: string)
    requires rest == "users/export"
    ensures !ReadAllowed(method', "/v1/" + "admin" + "/" + rest)
  {
    var path := "/v1/" + "admin" + "/" + rest;
    ExportIsUnlisted(path);
    TrimExactly(path);
    UnlistedIsRefused(method', "admin", rest);
  }

  lemma {:induction false} ExportIsUnlisted(path: string)
    requires path == "/v1/" + "admin" + "/" + "users/export"
    ensures !OnTheList(path) && path[|path| - 1] == 't'
  {
    assert path == "/v1/admin/users/export" && |path| == 22 && path[10] == 'u' && path[21] == 't' && path[15] == '/';
    forall u | IsUuid(u) ensures path != "/v1/admin/teams/" + u && path != "/v1/admin/users/" + u {
      UuidExactly(u);
      assert |"/v1/admin/teams/" + u| == 52 && |"/v1/admin/users/" + u| == 52;
    }
    ListedPages(path);
    ExportIsNoPage(path[|BASE|..]);
  }

  lemma {:induction false} ExportIsNoPage(name: string)
    requires name == "users/export"
    ensures name !in LISTED
  {
    assert |name| == 12 && name[5] == '/' && name[0] == 'u';
    forall k | 0 <= k < |LISTED| ensures LISTED[k] != name {
      assert |LISTED[k]| == 12 ==> LISTED[k][0] != 'u';
    }
  }

  /** A request admitted inside the area has, less one trailing slash, the path it normalises to. */
  lemma {:induction false} AdmittedIsCanonical(method': string, path: string)
    ensures AdminArea(path) && ReadAllowed(method', path) ==> Normalize(path) == Trim(path)
  {
    if AdminArea(path) && ReadAllowed(method', path) {
      GuardSeesEveryReading(path);
      AdmittedExactly(method', path);
      ListedExactly(Trim(path));
      ListedIsLong(Trim(path));
      TrimmedNormal(path);
    }
  }
}
