/** Finding the head of a directory of migrations, and what having exactly one head tells. */
module MigrationHead {
  import opened Prelude

  /** What the two patterns captured in one file: its revision and the revision it follows. */
  datatype File = File(revision: Option<string>, down: Option<string>)

  datatype Outcome = Head(revision: string) | NoRevisions | NotSingle(heads: set<string>)

  function Revisions(files: seq<File>): set<string> {
    set f | f in files && f.revision.Some? :: f.revision.value
  }

  /** A file without a revision is skipped, whatever it follows. */
  function Parents(files: seq<File>): set<string> {
    set f | f in files && f.revision.Some? && f.down.Some? :: f.down.value
  }

  function Heads(files: seq<File>): set<string> {
    Revisions(files) - Parents(files)
  }

  /** The body of `main`. */
  method FindHead(files: seq<File>) returns (o: Outcome)
    ensures match o
      case NoRevisions => Revisions(files) == {}
      case Head(h) => Heads(files) == {h}
      case NotSingle(heads) => Revisions(files) != {} && heads == Heads(files) && |heads| != 1
  {
    var revisions: set<string>, parents: set<string> := {}, {};
    for i := 0 to |files|
      invariant revisions == Revisions(files[..i]) && parents == Parents(files[..i])
    {
      assert files[..i + 1] == files[..i] + [files[i]];
      if files[i].revision.Some? {
        revisions := revisions + {files[i].revision.value};
        if files[i].down.Some? {
          parents := parents + {files[i].down.value};
        }
      }
    }
    assert files[..|files|] == files;
    if revisions == {} {
      return NoRevisions;
    }
    var heads := revisions - parents;
    if |heads| != 1 {
      return NotSingle(heads);
    }
    var head :| head in heads;
    OnlyMember(heads, head);
    return Head(head);
  }

  lemma {:induction false} OnlyMember<T>(s: set<T>, x: T)
    requires x in s
    ensures |s| == 1 <==> s == {x}
  {
    assert s == {x} + (s - {x});
  }

  // ---------------------------------------------------------------- lines of descent

  /** Some file gives `r` the parent `p`. */
  ghost predicate Edge(files: seq<File>, r: string, p: string) {
    File(Some(r), Some(p)) in files
  }

  /** Each follows the next. */
  ghost predicate Descent(files: seq<File>, c: seq<string>) {
    c != [] && forall i | 0 <= i < |c| - 1 :: Edge(files, c[i], c[i + 1])
  }

  /** `a` is `r` or comes before it. */
  ghost predicate Ancestor(files: seq<File>, a: string, r: string) {
    exists c :: Descent(files, c) && c[0] == r && c[|c| - 1] == a
  }

  ghost predicate Acyclic(files: seq<File>) {
    forall c | Descent(files, c) && |c| > 1 :: c[0] != c[|c| - 1]
  }

  /** Every parent is there. */
  ghost predicate Closed(files: seq<File>) {
    Parents(files) <= Revisions(files)
  }

  /** No two files give the same revision different parents. */
  ghost predicate Agree(files: seq<File>) {
    forall f, g | f in files && g in files && f.revision.Some? && f.revision == g.revision :: f.down == g.down
  }

  ghost predicate Comparable(files: seq<File>, a: string, b: string) {
    Ancestor(files, a, b) || Ancestor(files, b, a)
  }

  /** Both are ancestors of one revision. */
  ghost predicate Joined(files: seq<File>, a: string, b: string) {
    exists d | d in Revisions(files) :: Ancestor(files, a, d) && Ancestor(files, b, d)
  }

  lemma {:induction false} EdgeIsKnown(files: seq<File>, r: string, p: string)
    requires Edge(files, r, p)
    ensures r in Revisions(files) && p in Parents(files)
  {
  }

  lemma {:induction false} ItsOwnAncestor(files: seq<File>, r: string)
    ensures Ancestor(files, r, r)
  {
    assert Descent(files, [r]);
  }

  lemma {:induction false} ParentIsAncestor(files: seq<File>, p: string, r: string)
    requires Edge(files, r, p)
    ensures Ancestor(files, p, r)
  {
    assert Descent(files, [r, p]);
  }

  lemma {:induction false} DescentJoins(files: seq<File>, c: seq<string>, d: seq<string>)
    requires Descent(files, c) && Descent(files, d) && c[|c| - 1] == d[0]
    ensures Descent(files, c + d[1..])
  {
    var e := c + d[1..];
    forall i | 0 <= i < |e| - 1 ensures Edge(files, e[i], e[i + 1]) {
      if i < |c| - 1 {
        assert Edge(files, c[i], c[i + 1]);
      } else {
        assert Edge(files, d[i - |c| + 1], d[i - |c| + 1 + 1]);
      }
    }
  }

  lemma {:induction false} AncestorTransitive(files: seq<File>, a: string, b: string, c: string)
    requires Ancestor(files, a, b) && Ancestor(files, b, c)
    ensures Ancestor(files, a, c)
  {
    var p :| Descent(files, p) && p[0] == b && p[|p| - 1] == a;
    var q :| Descent(files, q) && q[0] == c && q[|q| - 1] == b;
    DescentJoins(files, q, p);
    var e := q + p[1..];
    assert e[0] == c && e[|e| - 1] == a;
  }

  /** What follows a revision does not also come before it. */
  lemma {:induction false} ChildIsNotAncestor(files: seq<File>, p: string, r: string)
    requires Acyclic(files) && Edge(files, r, p)
    ensures !Ancestor(files, r, p)
  {
    if Ancestor(files, r, p) {
      var c :| Descent(files, c) && c[0] == p && c[|c| - 1] == r;
      assert Descent(files, [r, p]);
      DescentJoins(files, [r, p], c);
    }
  }

  lemma {:induction false} Smaller<T>(all: set<T>, seen: set<T>, x: T)
    requires x in all && x !in seen
    ensures |all - (seen + {x})| < |all - seen|
  {
    assert all - seen == (all - (seen + {x})) + {x};
  }

  // ---------------------------------------------------------------- one head

  /** Climbing from a revision to one that follows it, and so on, ends at a head. */
  lemma {:induction false} ClimbToHead(files: seq<File>, r: string, seen: set<string>) returns (h: string)
    requires Acyclic(files) && r in Revisions(files) && forall x | x in seen :: Ancestor(files, x, r)
    ensures h in Heads(files) && Ancestor(files, r, h)
    decreases |Revisions(files) - seen|
  {
    if r in Heads(files) {
      ItsOwnAncestor(files, r);
      return r;
    }
    var f :| f in files && f.revision.Some? && f.down == Some(r);
    var c := f.revision.value;
    assert Edge(files, c, r);
    ChildIsNotAncestor(files, r, c);
    ParentIsAncestor(files, r, c);
    ItsOwnAncestor(files, c);
    forall x | x in seen + {c} ensures Ancestor(files, x, c) {
      if x != c {
        AncestorTransitive(files, x, r, c);
      }
    }
    Smaller(Revisions(files), seen, c);
    h := ClimbToHead(files, c, seen + {c});
    AncestorTransitive(files, r, c, h);
  }

  lemma {:induction false} HeadFollowsAll(files: seq<File>, h: string, r: string)
    requires h in Heads(files) && Ancestor(files, h, r)
    ensures r == h
  {
    var c :| Descent(files, c) && c[0] == r && c[|c| - 1] == h;
    if |c| > 1 {
      assert Edge(files, c[|c| - 2], c[|c| - 2 + 1]);
      EdgeIsKnown(files, c[|c| - 2], h);
    }
  }

  /** If `h` is the only head, every revision is one of its ancestors. */
  lemma {:induction false} AllUnderTheHead(files: seq<File>, h: string, r: string)
    requires Acyclic(files) && Heads(files) == {h} && r in Revisions(files)
    ensures Ancestor(files, r, h)
  {
    var top := ClimbToHead(files, r, {});
  }

  lemma {:induction false} JoinedMeansOneHead(files: seq<File>)
    requires Acyclic(files) && Revisions(files) != {}
    requires forall a, b | a in Revisions(files) && b in Revisions(files) :: Joined(files, a, b)
    ensures |Heads(files)| == 1
  {
    var r :| r in Revisions(files);
    var h := ClimbToHead(files, r, {});
    forall k | k in Heads(files) ensures k == h {
      assert Joined(files, h, k);
      var d :| d in Revisions(files) && Ancestor(files, h, d) && Ancestor(files, k, d);
      HeadFollowsAll(files, h, d);
      HeadFollowsAll(files, k, d);
    }
    OnlyMember(Heads(files), h);
  }

  /** With no cycle, the script prints a head exactly when there are revisions and any two of them lead up to a common
      one; and then every revision is an ancestor of what it prints. However many parents a revision is given. */
  lemma {:induction false} SingleHeadIffJoined(files: seq<File>)
    requires Acyclic(files)
    ensures |Heads(files)| == 1 <==>
      Revisions(files) != {} && forall a, b | a in Revisions(files) && b in Revisions(files) :: Joined(files, a, b)
    ensures forall h, r | Heads(files) == {h} && r in Revisions(files) :: Ancestor(files, r, h)
  {
    if |Heads(files)| == 1 {
      var h :| h in Heads(files);
      OnlyMember(Heads(files), h);
      forall r | r in Revisions(files) ensures Ancestor(files, r, h) { AllUnderTheHead(files, h, r); }
    } else if AllJoined(files) {
      JoinedMeansOneHead(files);
    }
  }

  ghost predicate AllJoined(files: seq<File>) {
    Revisions(files) != {} && forall a, b | a in Revisions(files) && b in Revisions(files) :: Joined(files, a, b)
  }

  // ---------------------------------------------------------------- one parent each

  /** With one parent each there is one way down. */
  lemma {:induction false} OneWayDown(files: seq<File>, c: seq<string>, d: seq<string>)
    requires Agree(files) && Descent(files, c) && Descent(files, d) && c[0] == d[0] && |c| <= |d|
    ensures c == d[..|c|]
    decreases |c|
  {
    if |c| > 1 {
      var front := c[..|c| - 1];
      assert forall i | 0 <= i < |front| - 1 :: Edge(files, c[i], c[i + 1]);
      OneWayDown(files, front, d);
      var i := |c| - 2;
      assert Edge(files, c[i], c[i + 1]) && Edge(files, d[i], d[i + 1]) && c[i] == front[i] == d[i];
      assert c == front + [c[i + 1]];
    }
  }

  lemma {:induction false} DescentTail(files: seq<File>, c: seq<string>, i: nat)
    requires Descent(files, c) && i < |c|
    ensures Descent(files, c[i..])
  {
    forall j | 0 <= j < |c[i..]| - 1 ensures Edge(files, c[i..][j], c[i..][j + 1]) {
      assert Edge(files, c[i + j], c[i + j + 1]);
    }
  }

  lemma {:induction false} SharedDescendantCompares(files: seq<File>, c: seq<string>, d: seq<string>)
    requires Agree(files) && Descent(files, c) && Descent(files, d) && c[0] == d[0] && |c| <= |d|
    ensures Ancestor(files, d[|d| - 1], c[|c| - 1])
  {
    OneWayDown(files, c, d);
    DescentTail(files, d, |c| - 1);
    var e := d[|c| - 1..];
    assert e[0] == d[..|c|][|c| - 1] && e[|e| - 1] == d[|d| - 1];
  }

  lemma {:induction false} JoinedCompares(files: seq<File>, a: string, b: string)
    requires Agree(files) && a in Revisions(files) && b in Revisions(files)
    ensures Joined(files, a, b) <==> Comparable(files, a, b)
  {
    if Joined(files, a, b) {
      var r :| r in Revisions(files) && Ancestor(files, a, r) && Ancestor(files, b, r);
      var c :| Descent(files, c) && c[0] == r && c[|c| - 1] == a;
      var d :| Descent(files, d) && d[0] == r && d[|d| - 1] == b;
      if |c| <= |d| {
        SharedDescendantCompares(files, c, d);
      } else {
        SharedDescendantCompares(files, d, c);
      }
    }
    ItsOwnAncestor(files, a);
    ItsOwnAncestor(files, b);
  }

  /** With no cycle and at most one parent each, one head means one line: any two revisions are comparable. */
  lemma {:induction false} SingleHeadIffLinear(files: seq<File>)
    requires Agree(files) && Acyclic(files)
    ensures |Heads(files)| == 1 <==>
      Revisions(files) != {} && forall a, b | a in Revisions(files) && b in Revisions(files) :: Comparable(files, a, b)
  {
    SingleHeadIffJoined(files);
    forall a, b | a in Revisions(files) && b in Revisions(files)
      ensures Joined(files, a, b) <==> Comparable(files, a, b)
    {
      JoinedCompares(files, a, b);
    }
  }

  // ---------------------------------------------------------------- upgrading to the head

  /** Files that each follow the next, back to one that follows nothing, no revision twice. */
  ghost predicate Chain(files: seq<File>, path: seq<File>) {
    && path != [] && (forall i | 0 <= i < |path| :: path[i] in files && path[i].revision.Some?)
    && (forall i | 0 <= i < |path| - 1 :: path[i].down == path[i + 1].revision)
    && path[|path| - 1].down == None
    && (forall i, j | 0 <= i < j < |path| :: path[i].revision != path[j].revision)
  }

  /** Upgrading an empty database to `h` applies `path` from its end, and that is every migration file there is. */
  ghost predicate AppliesAll(files: seq<File>, h: string, path: seq<File>) {
    && Chain(files, path) && path[0].revision == Some(h)
    && forall f | f in files && f.revision.Some? :: f in path
  }

  lemma {:induction false} ChainFrom(files: seq<File>, f: File, path: seq<File>)
    requires Acyclic(files) && Chain(files, path) && f in files && f.revision.Some? && f.down == path[0].revision
    ensures Chain(files, [f] + path)
  {
    var longer := [f] + path;
    forall j | 0 <= j < |path| ensures path[j].revision != f.revision {
      var c := seq(j + 2, i requires 0 <= i < j + 2 => longer[i].revision.value);
      forall i | 0 <= i < |c| - 1 ensures Edge(files, c[i], c[i + 1]) {
        assert longer[i] in files;
        if i > 0 {
          assert path[i - 1].down == path[i - 1 + 1].revision;
        }
        assert longer[i] == File(Some(c[i]), Some(c[i + 1]));
      }
      assert Descent(files, c);
    }
    forall i | 0 <= i < |longer| - 1 ensures longer[i].down == longer[i + 1].revision {
      if i > 0 {
        assert path[i - 1].down == path[i - 1 + 1].revision;
      }
    }
  }

  /** Going back from a revision reaches the start, every parent being there. */
  lemma {:induction false} DescendToBase(files: seq<File>, r: string, seen: set<string>) returns (path: seq<File>)
    requires Acyclic(files) && Closed(files) && r in Revisions(files) && forall x | x in seen :: Ancestor(files, r, x)
    ensures Chain(files, path) && path[0].revision == Some(r)
    decreases |Revisions(files) - seen|
  {
    var f :| f in files && f.revision == Some(r);
    if f.down.None? {
      return [f];
    }
    var p := f.down.value;
    assert f == File(Some(r), Some(p));
    EdgeIsKnown(files, r, p);
    ChildIsNotAncestor(files, p, r);
    ParentIsAncestor(files, p, r);
    ItsOwnAncestor(files, p);
    forall x | x in seen + {p} ensures Ancestor(files, p, x) {
      if x != p {
        AncestorTransitive(files, p, r, x);
      }
    }
    Smaller(Revisions(files), seen, p);
    var rest := DescendToBase(files, p, seen + {p});
    ChainFrom(files, f, rest);
    path := [f] + rest;
  }

  /** A descent that starts on a chain covering everything stays on it, step for step. */
  lemma {:induction false} StaysOnTheChain(files: seq<File>, h: string, path: seq<File>, c: seq<string>, k: nat, n: nat)
    requires AppliesAll(files, h, path) && Descent(files, c) && k < |path| && path[k].revision == Some(c[0]) && n < |c|
    ensures k + n < |path| && path[k + n].revision == Some(c[n])
  {
    if n > 0 {
      StaysOnTheChain(files, h, path, c, k, n - 1);
      assert Edge(files, c[n - 1], c[n - 1 + 1]);
      var f := File(Some(c[n - 1]), Some(c[n]));
      var i :| 0 <= i < |path| && path[i] == f;
      assert i == k + n - 1;
      assert path[i].down == path[i + 1].revision;
    }
  }

  lemma {:induction false} ChainTellsAll(files: seq<File>, h: string, path: seq<File>)
    requires AppliesAll(files, h, path)
    ensures Agree(files) && Acyclic(files) && Closed(files)
  {
    forall f, g | f in files && g in files && f.revision.Some? && f.revision == g.revision ensures f.down == g.down {
      var i :| 0 <= i < |path| && path[i] == f;
      var j :| 0 <= j < |path| && path[j] == g;
      assert i == j;
    }
    forall c | Descent(files, c) && |c| > 1 ensures c[0] != c[|c| - 1] {
      assert Edge(files, c[0], c[0 + 1]);
      var k :| 0 <= k < |path| && path[k] == File(Some(c[0]), Some(c[1]));
      StaysOnTheChain(files, h, path, c, k, |c| - 1);
    }
    forall p | p in Parents(files) ensures p in Revisions(files) {
      var f :| f in files && f.revision.Some? && f.down == Some(p);
      var i :| 0 <= i < |path| && path[i] == f;
      assert path[i].down == path[i + 1].revision && path[i + 1] in files;
    }
  }

  /** A chain from the only head misses no file. */
  lemma {:induction false} ChainMissesNothing(files: seq<File>, h: string, path: seq<File>, f: File)
    requires Agree(files) && Acyclic(files) && Heads(files) == {h} && Chain(files, path) && path[0].revision == Some(h)
    requires f in files && f.revision.Some?
    ensures f in path
  {
    AllUnderTheHead(files, h, f.revision.value);
    var c :| Descent(files, c) && c[0] == h && c[|c| - 1] == f.revision.value;
    DownTheChain(files, path, c, |c| - 1);
    assert path[|c| - 1] in files;
  }

  lemma {:induction false} DownTheChain(files: seq<File>, path: seq<File>, c: seq<string>, n: nat)
    requires Agree(files) && Chain(files, path) && Descent(files, c) && path[0].revision == Some(c[0]) && n < |c|
    ensures n < |path| && path[n].revision == Some(c[n])
  {
    if n > 0 {
      DownTheChain(files, path, c, n - 1);
      assert Edge(files, c[n - 1], c[n - 1 + 1]);
      assert path[n - 1] in files && path[n - 1].down == Some(c[n]);
      assert n - 1 < |path| - 1;
      assert path[n - 1].down == path[n - 1 + 1].revision;
    }
  }

  /** With one head, upgrading to it applies every migration exactly when no two files disagree about a parent, there
      is no cycle and no parent is missing: none of which the script looks for. */
  lemma {:induction false} UpgradeAppliesAllIff(files: seq<File>, h: string)
    requires Heads(files) == {h}
    ensures (exists path :: AppliesAll(files, h, path)) <==> Agree(files) && Acyclic(files) && Closed(files)
  {
    if path :| AppliesAll(files, h, path) {
      ChainTellsAll(files, h, path);
    }
    if Agree(files) && Acyclic(files) && Closed(files) {
      assert h in Heads(files);
      var path := DescendToBase(files, h, {});
      forall f | f in files && f.revision.Some? ensures f in path { ChainMissesNothing(files, h, path, f); }
      assert AppliesAll(files, h, path);
    }
  }

  /** Two migrations that follow each other have no head of their own, so they pass unnoticed beside a real one
      and upgrading to it applies neither. */
  lemma {:induction false} CycleHidesBesideAHead(a: string, b: string, c: string)
    requires a != b && a != c
    ensures var files := [File(Some(a), None), File(Some(b), Some(c)), File(Some(c), Some(b))];
      Heads(files) == {a} && forall path :: !AppliesAll(files, a, path)
  {
    var files := [File(Some(a), None), File(Some(b), Some(c)), File(Some(c), Some(b))];
    assert files[0] in files && files[1] in files && files[2] in files;
    assert Heads(files) == {a};
    assert Edge(files, b, c) && Edge(files, c, b);
    assert Descent(files, [b, c, b]);
    UpgradeAppliesAllIff(files, a);
  }

  /** A migration whose parent is not in the directory is its own head, and cannot be reached from the start. */
  lemma {:induction false} MissingParentPasses(a: string, b: string)
    requires a != b
    ensures var files := [File(Some(a), Some(b))];
      Heads(files) == {a} && forall path :: !AppliesAll(files, a, path)
  {
    var files := [File(Some(a), Some(b))];
    assert files[0] in files;
    assert Heads(files) == {a};
    assert b in Parents(files) && b !in Revisions(files);
    UpgradeAppliesAllIff(files, a);
  }

  /** Two files for one revision: the script prints it, though its two parents are not comparable and an upgrade
      passes through one of them only. */
  lemma {:induction false} TwoParentsPass(a: string, b: string, c: string)
    requires a != b && a != c && b != c
    ensures var files := [File(Some(a), Some(b)), File(Some(a), Some(c)), File(Some(b), None), File(Some(c), None)];
      Heads(files) == {a} && !Comparable(files, b, c) && forall path :: !AppliesAll(files, a, path)
  {
    var files := [File(Some(a), Some(b)), File(Some(a), Some(c)), File(Some(b), None), File(Some(c), None)];
    assert files[0] in files && files[1] in files && files[2] in files && files[3] in files;
    assert Heads(files) == {a};
    UpgradeAppliesAllIff(files, a);
    NothingBefore(files, b, c);
    NothingBefore(files, c, b);
  }

  lemma {:induction false} NothingBefore(files: seq<File>, r: string, a: string)
    requires a != r && forall f | f in files && f.revision == Some(r) :: f.down == None
    ensures !Ancestor(files, a, r)
  {
    if Ancestor(files, a, r) {
      var c :| Descent(files, c) && c[0] == r && c[|c| - 1] == a;
      FirstStep(files, c);
    }
  }

  lemma {:induction false} FirstStep(files: seq<File>, c: seq<string>)
    requires Descent(files, c) && |c| > 1
    ensures Edge(files, c[0], c[1])
  {
    assert Edge(files, c[0], c[0 + 1]);
  }
}
