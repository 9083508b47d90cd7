/** No caller changes what the permission cache answers by editing the principals it holds. */
module CacheIsolation {
  import opened Prelude
  import opened PrincipalCache

  // ---------------------------------------------------------------- what callers can do

  /** Anything that can happen next. `holder` names one of the principals callers hold: those they started with, then
      every copy handed out since, none of which is ever let go of. */
  datatype Step =
    | LookUp(id: UserId, at: int)
    | Store(holder: nat, at: int)
    | Forgo(id: UserId)
    | SetFields(holder: nat, p: Principal)
    | SetTeams(holder: nat, teams: seq<TeamId>)
    | SetRoles(holder: nat, roles: map<TeamId, string>)
    | NewTeams(holder: nat, teams: seq<TeamId>)
    | NewRoles(holder: nat, roles: map<TeamId, string>)
    | ShareTeams(holder: nat, lender: nat)
    | ShareRoles(holder: nat, lender: nat)

  predicate IsEdit(s: Step) {
    !s.LookUp? && !s.Store? && !s.Forgo?
  }

  /** One held principal: which object it is, which list and dict it refers to, and its value. */
  datatype View = View(user: CurrentUser, teams: TeamList, roles: RoleMap, value: Principal)

  /** All objects the callers can reach. */
  ghost function Reach(held: seq<CurrentUser>): set<object>
    reads held
  {
    set u, o | u in held && o in u.Parts() :: o
  }

  ghost function ViewOf(u: CurrentUser): View
    reads u, u.teamIds, u.teamRoles
  {
    View(u, u.teamIds, u.teamRoles, u.Value())
  }

  /** What the callers see. */
  ghost function Views(held: seq<CurrentUser>): (w: seq<View>)
    reads held, Reach(held)
    ensures |w| == |held| && forall k | 0 <= k < |held| :: w[k] == ViewOf(held[k])
  {
    if held == [] then []
    else
      assert forall u | u in held :: u in u.Parts() && u.teamIds in u.Parts() && u.teamRoles in u.Parts();
      assert held[|held| - 1] in held && Reach(held[..|held| - 1]) <= Reach(held);
      Views(held[..|held| - 1]) + [ViewOf(held[|held| - 1])]
  }

  ghost predicate Separate(cache: Cache, held: seq<CurrentUser>)
    reads cache, held
  {
    cache !in Reach(held) && Reach(held) !! cache.repr
  }

  // ---------------------------------------------------------------- what each step does

  /** View `k` after an edit of the view `s.holder`: whoever refers to the same object sees the same change. */
  ghost function Edited(s: Step, w: seq<View>, k: nat, list: TeamList, dict: RoleMap): View
    requires IsEdit(s) && s.holder < |w| && k < |w|
  {
    var v, h := w[k], w[s.holder];
    match s
    case SetFields(_, p) =>
      if v.user == h.user then v.(value := p.(teams := v.value.teams, roles := v.value.roles)) else v
    case SetTeams(_, teams) => if v.teams == h.teams then v.(value := v.value.(teams := teams)) else v
    case SetRoles(_, roles) => if v.roles == h.roles then v.(value := v.value.(roles := roles)) else v
    case NewTeams(_, teams) =>
      if v.user == h.user then v.(teams := list, value := v.value.(teams := teams)) else v
    case NewRoles(_, roles) =>
      if v.user == h.user then v.(roles := dict, value := v.value.(roles := roles)) else v
    case ShareTeams(_, lender) =>
      if v.user == h.user && lender < |w| then
        v.(teams := w[lender].teams, value := v.value.(teams := w[lender].value.teams))
      else v
    case ShareRoles(_, lender) =>
      if v.user == h.user && lender < |w| then
        v.(roles := w[lender].roles, value := v.value.(roles := w[lender].value.roles))
      else v
  }

  ghost predicate IsNewList(w: seq<View>, list: TeamList) {
    forall k | 0 <= k < |w| :: w[k].teams != list
  }

  ghost predicate IsNewDict(w: seq<View>, dict: RoleMap) {
    forall k | 0 <= k < |w| :: w[k].roles != dict
  }

  /** An edit turns the views `w` into `after`. */
  ghost predicate Edits(s: Step, w: seq<View>, after: seq<View>)
    requires IsEdit(s)
  {
    && |after| == |w|
    && if s.holder >= |w| then after == w
       else
         var h := after[s.holder];
         && (forall k | 0 <= k < |w| :: after[k] == Edited(s, w, k, h.teams, h.roles))
         && (s.NewTeams? ==> IsNewList(w, h.teams))
         && (s.NewRoles? ==> IsNewDict(w, h.roles))
  }

  /** A lookup that answers adds a principal of that value which shares nothing with those held. */
  ghost predicate HandsOut(w: seq<View>, a: Option<Principal>, after: seq<View>) {
    if a.None? then after == w
    else
      && |after| == |w| + 1 && after[..|w|] == w && after[|w|].value == a.value
      && IsNewList(w, after[|w|].teams) && IsNewDict(w, after[|w|].roles)
      && forall k | 0 <= k < |w| :: w[k].user != after[|w|].user
  }

  /** One step: `e` is what it asks of the cache, if anything, and `a` what the cache answers. An edit asks nothing, and
      a store asks to keep the value of the principal as its holder sees it at that moment. */
  ghost predicate Happens(
    s: Step, w: seq<View>, lines: seq<Line>, ttl: int, e: Option<Event>, a: Option<Principal>, after: seq<View>)
  {
    match s
    case LookUp(id, at) =>
      e == Some(Ask(id, at)) && a == Lookup(lines, id, ttl, at).1 && HandsOut(w, a, after)
    case Store(h, at) =>
      e == (if h < |w| then Some(Keep(w[h].value, at)) else None) && a == None && after == w
    case Forgo(id) => e == Some(Drop(id, 0)) && a == None && after == w
    case _ => e == None && a == None && Edits(s, w, after)
  }

  // ---------------------------------------------------------------- each kind of step, on the heap

  ghost predicate Shows(w: seq<View>, held: seq<CurrentUser>)
    reads held, Reach(held)
  {
    |w| == |held| && forall k | 0 <= k < |held| :: Shown(w[k], held, k)
  }

  ghost predicate Shown(v: View, held: seq<CurrentUser>, k: nat)
    requires k < |held|
    reads held, Reach(held)
  {
    PartsAreReached(held, k);
    v == ViewOf(held[k])
  }

  lemma {:induction false} PartsAreReached(held: seq<CurrentUser>, k: nat)
    requires k < |held|
    ensures held[k] in Reach(held) && held[k].teamIds in Reach(held) && held[k].teamRoles in Reach(held)
  {
    var u := held[k];
    assert u in held && u in u.Parts() && u.teamIds in u.Parts() && u.teamRoles in u.Parts();
  }

  ghost function EditAll(s: Step, w: seq<View>, list: TeamList, dict: RoleMap): (after: seq<View>)
    requires IsEdit(s) && s.holder < |w|
    ensures |after| == |w| && forall k | 0 <= k < |w| :: after[k] == Edited(s, w, k, list, dict)
  {
    seq(|w|, k requires 0 <= k < |w| => Edited(s, w, k, list, dict))
  }

  method EditFields(held: seq<CurrentUser>, s: Step, ghost w: seq<View>) returns (ghost after: seq<View>)
    requires s.SetFields? && s.holder < |held| && Shows(w, held)
    modifies held[s.holder]
    ensures Reach(held) == old(Reach(held)) && Shows(after, held) && Edits(s, w, after)
  {
    var u := held[s.holder];
    assert forall k | 0 <= k < |held| :: Shown(w[k], held, k);
    u.scalars := s.p;
    assert forall v | v in held :: v.Parts() == old(v.Parts());
    after := EditAll(s, w, u.teamIds, u.teamRoles);
    forall k | 0 <= k < |held| ensures Shown(after[k], held, k) {
      assert old(Shown(w[k], held, k));
    }
  }

  method EditTeams(held: seq<CurrentUser>, s: Step, ghost w: seq<View>) returns (ghost after: seq<View>)
    requires s.SetTeams? && s.holder < |held| && Shows(w, held)
    modifies held[s.holder].teamIds
    ensures Reach(held) == old(Reach(held)) && Shows(after, held) && Edits(s, w, after)
  {
    var u := held[s.holder];
    assert Shown(w[s.holder], held, s.holder);
    u.teamIds.teams := s.teams;
    assert forall v | v in held :: v.Parts() == old(v.Parts());
    after := EditAll(s, w, u.teamIds, u.teamRoles);
    forall k | 0 <= k < |held| ensures Shown(after[k], held, k) {
      assert old(Shown(w[k], held, k));
    }
  }

  method EditRoles(held: seq<CurrentUser>, s: Step, ghost w: seq<View>) returns (ghost after: seq<View>)
    requires s.SetRoles? && s.holder < |held| && Shows(w, held)
    modifies held[s.holder].teamRoles
    ensures Reach(held) == old(Reach(held)) && Shows(after, held) && Edits(s, w, after)
  {
    var u := held[s.holder];
    assert Shown(w[s.holder], held, s.holder);
    u.teamRoles.roles := s.roles;
    assert forall v | v in held :: v.Parts() == old(v.Parts());
    after := EditAll(s, w, u.teamIds, u.teamRoles);
    forall k | 0 <= k < |held| ensures Shown(after[k], held, k) {
      assert old(Shown(w[k], held, k));
    }
  }

  method ReplaceTeams(held: seq<CurrentUser>, s: Step, ghost w: seq<View>) returns (ghost after: seq<View>)
    requires s.NewTeams? && s.holder < |held| && Shows(w, held)
    modifies held[s.holder]
    ensures fresh(Reach(held) - old(Reach(held))) && Shows(after, held) && Edits(s, w, after)
  {
    var u := held[s.holder];
    assert Shown(w[s.holder], held, s.holder);
    var made := new TeamList(s.teams);
    u.teamIds := made;
    assert forall v | v in held :: v.Parts() <= old(v.Parts()) + {made};
    after := EditAll(s, w, u.teamIds, u.teamRoles);
    forall k | 0 <= k < |held| ensures Shown(after[k], held, k) {
      assert old(Shown(w[k], held, k));
    }
    assert after[s.holder] == ViewOf(u);
    forall k | 0 <= k < |held| ensures w[k].teams != made {
      assert old(Shown(w[k], held, k));
    }
  }

  method ReplaceRoles(held: seq<CurrentUser>, s: Step, ghost w: seq<View>) returns (ghost after: seq<View>)
    requires s.NewRoles? && s.holder < |held| && Shows(w, held)
    modifies held[s.holder]
    ensures fresh(Reach(held) - old(Reach(held))) && Shows(after, held) && Edits(s, w, after)
  {
    var u := held[s.holder];
    assert Shown(w[s.holder], held, s.holder);
    var made := new RoleMap(s.roles);
    u.teamRoles := made;
    assert forall v | v in held :: v.Parts() <= old(v.Parts()) + {made};
    after := EditAll(s, w, u.teamIds, u.teamRoles);
    forall k | 0 <= k < |held| ensures Shown(after[k], held, k) {
      assert old(Shown(w[k], held, k));
    }
    assert after[s.holder] == ViewOf(u);
    forall k | 0 <= k < |held| ensures w[k].roles != made {
      assert old(Shown(w[k], held, k));
    }
  }

  method BorrowTeams(held: seq<CurrentUser>, s: Step, ghost w: seq<View>) returns (ghost after: seq<View>)
    requires s.ShareTeams? && s.holder < |held| && s.lender < |held| && Shows(w, held)
    modifies held[s.holder]
    ensures Reach(held) <= old(Reach(held)) && Shows(after, held) && Edits(s, w, after)
  {
    var u, other := held[s.holder], held[s.lender];
    assert Shown(w[s.holder], held, s.holder) && Shown(w[s.lender], held, s.lender);
    PartsAreReached(held, s.lender);
    u.teamIds := other.teamIds;
    assert forall v | v in held :: v.Parts() <= old(v.Parts()) + {u.teamIds};
    after := EditAll(s, w, u.teamIds, u.teamRoles);
    forall k | 0 <= k < |held| ensures Shown(after[k], held, k) {
      assert old(Shown(w[k], held, k));
    }
    assert after[s.holder] == ViewOf(u);
  }

  method BorrowRoles(held: seq<CurrentUser>, s: Step, ghost w: seq<View>) returns (ghost after: seq<View>)
    requires s.ShareRoles? && s.holder < |held| && s.lender < |held| && Shows(w, held)
    modifies held[s.holder]
    ensures Reach(held) <= old(Reach(held)) && Shows(after, held) && Edits(s, w, after)
  {
    var u, other := held[s.holder], held[s.lender];
    assert Shown(w[s.holder], held, s.holder) && Shown(w[s.lender], held, s.lender);
    PartsAreReached(held, s.lender);
    u.teamRoles := other.teamRoles;
    assert forall v | v in held :: v.Parts() <= old(v.Parts()) + {u.teamRoles};
    after := EditAll(s, w, u.teamIds, u.teamRoles);
    forall k | 0 <= k < |held| ensures Shown(after[k], held, k) {
      assert old(Shown(w[k], held, k));
    }
    assert after[s.holder] == ViewOf(u);
  }

  /** Any edit of any held principal. */
  method EditHeld(held: seq<CurrentUser>, s: Step, ghost w: seq<View>) returns (ghost after: seq<View>)
    requires IsEdit(s) && Shows(w, held)
    modifies Reach(held)
    ensures fresh(Reach(held) - old(Reach(held))) && Shows(after, held) && Edits(s, w, after)
  {
    after := w;
    if s.holder >= |held| {
      return;
    }
    PartsAreReached(held, s.holder);
    match s
    case SetFields(_, _) => after := EditFields(held, s, w);
    case SetTeams(_, _) => after := EditTeams(held, s, w);
    case SetRoles(_, _) => after := EditRoles(held, s, w);
    case NewTeams(_, _) => after := ReplaceTeams(held, s, w);
    case NewRoles(_, _) => after := ReplaceRoles(held, s, w);
    case ShareTeams(_, lender) => if lender < |held| { after := BorrowTeams(held, s, w); }
    case ShareRoles(_, lender) => if lender < |held| { after := BorrowRoles(held, s, w); }
  }

  /** A lookup whose result, if any, is kept. */
  method LookAndKeep(cache: Cache, held: seq<CurrentUser>, id: UserId, at: int, ttl: int, ghost w: seq<View>)
      returns (kept: seq<CurrentUser>, ghost a: Option<Principal>, ghost after: seq<View>)
    requires cache.Valid() && Separate(cache, held) && Shows(w, held)
    modifies cache`slots, cache`lines
    ensures cache.Valid() && cache.repr == old(cache.repr) && Separate(cache, kept)
    ensures fresh(Reach(kept) - old(Reach(held))) && Shows(after, kept) && HandsOut(w, a, after)
    ensures cache.lines == Lookup(old(cache.lines), id, ttl, at).0 && a == Lookup(old(cache.lines), id, ttl, at).1
  {
    kept, a, after := held, None, w;
    ghost var reached := Reach(held);
    var r := cache.CachedPrincipal(id, ttl, at);
    assert Reach(held) == reached && Shows(w, held);
    if r != null {
      OneMoreHeld(held, w, r);
      kept, a, after := held + [r], Some(r.Value()), w + [ViewOf(r)];
    }
  }

  lemma {:induction false} OneMoreHeld(held: seq<CurrentUser>, w: seq<View>, r: CurrentUser)
    requires Shows(w, held) && r.Parts() !! Reach(held)
    ensures Reach(held + [r]) == Reach(held) + r.Parts()
    ensures Shows(w + [ViewOf(r)], held + [r]) && HandsOut(w, Some(r.Value()), w + [ViewOf(r)])
  {
    NothingShared(held, w, r);
    var kept, after := held + [r], w + [ViewOf(r)];
    forall k | 0 <= k < |kept| ensures Shown(after[k], kept, k) {
      assert k < |held| ==> Shown(w[k], held, k);
    }
  }

  lemma {:induction false} NothingShared(held: seq<CurrentUser>, w: seq<View>, r: CurrentUser)
    requires Shows(w, held) && r.Parts() !! Reach(held)
    ensures IsNewList(w, r.teamIds) && IsNewDict(w, r.teamRoles) && forall k | 0 <= k < |w| :: w[k].user != r
  {
    forall k | 0 <= k < |w| ensures w[k].teams != r.teamIds && w[k].roles != r.teamRoles && w[k].user != r {
      assert Shown(w[k], held, k);
      PartsAreReached(held, k);
    }
  }

  /** A store of a held principal. */
  method StoreHeld(cache: Cache, held: seq<CurrentUser>, h: nat, at: int, ttl: int, ghost w: seq<View>)
    requires cache.Valid() && Separate(cache, held) && Shows(w, held) && h < |held|
    modifies cache`slots, cache`lines, cache`repr
    ensures cache.Valid() && Separate(cache, held) && Reach(held) == old(Reach(held)) && Shows(w, held)
    ensures fresh(cache.repr - old(cache.repr))
    ensures cache.lines == Remember(old(cache.lines), w[h].value, ttl, at, cache.max)
  {
    assert Shown(w[h], held, h);
    ghost var reached := Reach(held);
    cache.RememberPrincipal(held[h], ttl, at);
    assert Reach(held) == reached && Shows(w, held);
  }

  /** One step. Whatever it is, the callers and the cache go on sharing nothing. */
  method Perform(cache: Cache, held: seq<CurrentUser>, s: Step, ttl: int, ghost w: seq<View>)
      returns (kept: seq<CurrentUser>, ghost e: Option<Event>, ghost a: Option<Principal>, ghost after: seq<View>)
    requires cache.Valid() && Separate(cache, held) && Shows(w, held)
    modifies cache, Reach(held)
    ensures cache.Valid() && Separate(cache, kept) && fresh(Reach(kept) - old(Reach(held)))
    ensures fresh(cache.repr - old(cache.repr)) && Shows(after, kept)
    ensures Happens(s, w, old(cache.lines), ttl, e, a, after)
    ensures cache.lines == (if e.Some? then Apply(old(cache.lines), e.value, ttl, cache.max) else old(cache.lines))
  {
    kept, e, a, after := held, None, None, w;
    if s.LookUp? {
      e := Some(Ask(s.id, s.at));
      kept, a, after := LookAndKeep(cache, held, s.id, s.at, ttl, w);
    } else if s.Store? {
      if s.holder < |held| {
        e := Some(Keep(w[s.holder].value, s.at));
        StoreHeld(cache, held, s.holder, s.at, ttl, w);
      }
    } else if s.Forgo? {
      e := Some(Drop(s.id, 0));
      cache.ForgetPrincipal(s.id);
    } else {
      after := EditHeld(held, s, w);
    }
  }

  // ---------------------------------------------------------------- whole runs

  /** A run as a bystander writes it down: what each step asked of the cache, what the cache answered, and what the
      callers saw before each step and at the end. */
  datatype Account = Account(trace: seq<Option<Event>>, answers: seq<Option<Principal>>, views: seq<seq<View>>)

  /** A cache of values that is asked the same. */
  function Replay(lines: seq<Line>, trace: seq<Option<Event>>, ttl: int, max: nat): seq<Line> {
    if trace == [] then lines
    else
      var before, e := Replay(lines, trace[..|trace| - 1], ttl, max), trace[|trace| - 1];
      if e.Some? then Apply(before, e.value, ttl, max) else before
  }

  ghost predicate Explained(lines: seq<Line>, steps: seq<Step>, n: nat, acc: Account, ttl: int, max: nat) {
    && |acc.trace| == |acc.answers| == n <= |steps| && |acc.views| == n + 1
    && forall i | 0 <= i < n :: StepExplained(lines, steps, i, acc, ttl, max)
  }

  ghost predicate StepExplained(lines: seq<Line>, steps: seq<Step>, i: nat, acc: Account, ttl: int, max: nat)
    requires i < |steps| && i < |acc.trace| && i < |acc.answers| && i + 1 < |acc.views|
  {
    Happens(steps[i], acc.views[i], Replay(lines, acc.trace[..i], ttl, max), ttl,
            acc.trace[i], acc.answers[i], acc.views[i + 1])
  }

  lemma {:induction false} ReplayOneMore(
    lines: seq<Line>, trace: seq<Option<Event>>, e: Option<Event>, ttl: int, max: nat)
    ensures var before := Replay(lines, trace, ttl, max);
      Replay(lines, trace + [e], ttl, max) == if e.Some? then Apply(before, e.value, ttl, max) else before
  {
    assert (trace + [e])[..|trace|] == trace;
  }

  function Extended(acc: Account, e: Option<Event>, a: Option<Principal>, w: seq<View>): Account {
    Account(acc.trace + [e], acc.answers + [a], acc.views + [w])
  }

  lemma {:induction false} ExplainedOneMore(
    lines: seq<Line>, steps: seq<Step>, n: nat, acc: Account, ttl: int, max: nat,
    e: Option<Event>, a: Option<Principal>, w: seq<View>)
    requires Explained(lines, steps, n, acc, ttl, max) && n < |steps|
    requires Happens(steps[n], acc.views[n], Replay(lines, acc.trace, ttl, max), ttl, e, a, w)
    ensures Explained(lines, steps, n + 1, Extended(acc, e, a, w), ttl, max)
  {
    var longer := Extended(acc, e, a, w);
    assert longer.trace[..n] == acc.trace;
    forall i | 0 <= i < n ensures StepExplained(lines, steps, i, longer, ttl, max) {
      assert StepExplained(lines, steps, i, acc, ttl, max);
      assert longer.trace[..i] == acc.trace[..i];
    }
  }

  /** Any number of callers, holding any principals and every copy they were ever handed, editing any of them and
      sharing their lists and dicts between them at any time. The run has an account in which each edit changes what
      the callers see and asks nothing of the cache, each store asks it to keep the value its holder then sees, and
      each lookup is answered as a cache of values asked the same would answer. */
  method AnswersIgnoreEdits(cache: Cache, held: seq<CurrentUser>, steps: seq<Step>, ttl: int)
      returns (kept: seq<CurrentUser>, ghost acc: Account)
    requires cache.Valid() && Separate(cache, held)
    modifies cache, Reach(held)
    ensures cache.Valid() && Separate(cache, kept)
    ensures Explained(old(cache.lines), steps, |steps|, acc, ttl, cache.max)
    ensures acc.views[0] == old(Views(held)) && Shows(acc.views[|steps|], kept)
    ensures cache.lines == Replay(old(cache.lines), acc.trace, ttl, cache.max)
  {
    kept, acc := held, Account([], [], [Views(held)]);
    ghost var lines := cache.lines;
    for n := 0 to |steps|
      invariant cache.Valid() && Separate(cache, kept) && fresh(Reach(kept) - old(Reach(held)))
      invariant Explained(lines, steps, n, acc, ttl, cache.max)
      invariant acc.views[0] == old(Views(held)) && Shows(acc.views[n], kept)
      invariant cache.lines == Replay(lines, acc.trace, ttl, cache.max)
    {
      ghost var e, a, w;
      kept, e, a, w := Perform(cache, kept, steps[n], ttl, acc.views[n]);
      ReplayOneMore(lines, acc.trace, e, ttl, cache.max);
      ExplainedOneMore(lines, steps, n, acc, ttl, cache.max, e, a, w);
      acc := Extended(acc, e, a, w);
    }
  }

  // ---------------------------------------------------------------- a stored principal stays as it was stored

  ghost predicate Held(lines: seq<Line>, line: Line) {
    Distinct(lines) && line in lines
  }

  /** What leaves a line alone: lookups of others, or of it before its deadline; drops of others; stores of others that
      do not make a full map drop it, stores that are refused, and a store of the very same. */
  ghost predicate Spares(e: Event, lines: seq<Line>, ttl: int, max: nat, line: Line) {
    match e
    case Ask(id, at) => id != line.principal.id || at < line.deadline
    case Drop(id, _) => id != line.principal.id
    case Keep(p, at) =>
      || Narrowed(p)
      || (if p.id == line.principal.id then Line(p, at + ttl) == line
          else Find(lines, p.id) >= 0 || |lines| < max || lines == [] || lines[0] != line)
  }

  lemma {:induction false} RemovedIff(lines: seq<Line>, i: nat, line: Line)
    requires Held(lines, line) && i < |lines|
    ensures Distinct(Remove(lines, i)) && (line in Remove(lines, i) <==> lines[i] != line)
  {
    var after := Remove(lines, i);
    forall j, k | 0 <= j < k < |after| ensures after[j].principal.id != after[k].principal.id {
      var a, b := if j < i then j else j + 1, if k < i then k else k + 1;
      assert after[j] == lines[a] && after[k] == lines[b] && a < b;
    }
    var k :| 0 <= k < |lines| && lines[k] == line;
    if lines[i] != line {
      assert after[if k < i then k else k - 1] == line;
    } else {
      forall j | 0 <= j < |after| ensures after[j] != line {
        assert after[j] == lines[if j < i then j else j + 1];
      }
    }
  }

  lemma {:induction false} ReplacedIff(lines: seq<Line>, i: nat, l: Line, line: Line)
    requires Held(lines, line) && i < |lines| && lines[i].principal.id == l.principal.id
    ensures Distinct(lines[i := l])
    ensures line in lines[i := l] <==> lines[i] != line || l == line
  {
    var k :| 0 <= k < |lines| && lines[k] == line;
    var after := lines[i := l];
    if k != i {
      assert after[k] == line;
    } else {
      assert after[i] == l;
      forall j | 0 <= j < |after| && j != i ensures after[j] != line { assert lines[j] == after[j]; }
    }
  }

  lemma {:induction false} AppendedIff(lines: seq<Line>, l: Line, line: Line)
    requires Distinct(lines) && Find(lines, l.principal.id) < 0
    ensures Distinct(lines + [l]) && (line in lines + [l] <==> line in lines || l == line)
  {
  }

  lemma {:induction false} NewcomerIff(lines: seq<Line>, l: Line, max: nat, line: Line)
    requires Held(lines, line) && Find(lines, l.principal.id) < 0
    ensures var rest := if |lines| >= max && lines != [] then lines[1..] else lines;
      Distinct(rest + [l]) && (line in rest + [l] <==> |lines| < max || lines[0] != line)
  {
    assert line in lines && l.principal.id != line.principal.id;
    if |lines| >= max {
      RemovedIff(lines, 0, line);
      assert Remove(lines, 0) == lines[1..];
      forall j | 0 <= j < |lines[1..]| ensures lines[1..][j].principal.id != l.principal.id {
        assert lines[1..][j] == lines[j + 1];
      }
      AppendedIff(lines[1..], l, line);
    } else {
      AppendedIff(lines, l, line);
    }
  }

  lemma {:induction false} AskEffect(lines: seq<Line>, id: UserId, at: int, ttl: int, max: nat)
    requires ttl > 0
    ensures var i := Find(lines, id);
      Apply(lines, Ask(id, at), ttl, max) == if i >= 0 && at >= lines[i].deadline then Remove(lines, i) else lines
  {
  }

  lemma {:induction false} AskSparesIff(lines: seq<Line>, id: UserId, at: int, ttl: int, max: nat, line: Line)
    requires Held(lines, line) && ttl > 0
    ensures Held(Apply(lines, Ask(id, at), ttl, max), line) <==> Spares(Ask(id, at), lines, ttl, max, line)
    ensures Distinct(Apply(lines, Ask(id, at), ttl, max))
  {
    var i := Find(lines, id);
    SomebodyHeld(lines, line, id);
    AskEffect(lines, id, at, ttl, max);
    if i >= 0 && at >= lines[i].deadline {
      RemovedIff(lines, i, line);
    }
  }

  lemma {:induction false} DropSparesIff(lines: seq<Line>, id: UserId, at: int, ttl: int, max: nat, line: Line)
    requires Held(lines, line)
    ensures Held(Apply(lines, Drop(id, at), ttl, max), line) <==> Spares(Drop(id, at), lines, ttl, max, line)
    ensures Distinct(Apply(lines, Drop(id, at), ttl, max))
  {
    var i, after := Find(lines, id), Apply(lines, Drop(id, at), ttl, max);
    SomebodyHeld(lines, line, id);
    if i >= 0 {
      assert after == Remove(lines, i);
      RemovedIff(lines, i, line);
    } else {
      assert after == lines;
    }
  }

  /** One operation: a line stays exactly if it is spared. */
  lemma {:induction false} StaysIffSpared(lines: seq<Line>, e: Event, ttl: int, max: nat, line: Line)
    requires Held(lines, line) && ttl > 0
    ensures Held(Apply(lines, e, ttl, max), line) <==> Spares(e, lines, ttl, max, line)
    ensures Distinct(Apply(lines, e, ttl, max))
  {
    match e
    case Ask(id, at) => AskSparesIff(lines, id, at, ttl, max, line);
    case Drop(id, at) => DropSparesIff(lines, id, at, ttl, max, line);
    case Keep(p, at) =>
      if Narrowed(p) {
        assert Apply(lines, e, ttl, max) == lines;
      } else {
        KeepSparesIff(lines, p, ttl, at, max, line);
      }
  }

  /** A held user is found, with its one line. */
  lemma {:induction false} SomebodyHeld(lines: seq<Line>, line: Line, id: UserId)
    requires Held(lines, line)
    ensures id == line.principal.id ==> Find(lines, id) >= 0 && lines[Find(lines, id)] == line
  {
    if id == line.principal.id {
      var k :| 0 <= k < |lines| && lines[k] == line;
      FindUnique(lines, id, k);
    }
  }

  lemma {:induction false} KeepSparesIff(lines: seq<Line>, p: Principal, ttl: int, at: int, max: nat, line: Line)
    requires Held(lines, line) && ttl > 0 && !Narrowed(p)
    ensures Held(Remember(lines, p, ttl, at, max), line) <==> Spares(Keep(p, at), lines, ttl, max, line)
    ensures Distinct(Remember(lines, p, ttl, at, max))
  {
    var i, l := Find(lines, p.id), Line(p, at + ttl);
    SomebodyHeld(lines, line, p.id);
    if i >= 0 {
      assert Remember(lines, p, ttl, at, max) == lines[i := l];
      ReplacedIff(lines, i, l, line);
    } else {
      NewcomerIff(lines, l, max, line);
    }
  }

  lemma {:induction false} StoredIsHeld(lines: seq<Line>, p: Principal, ttl: int, now: int, max: nat)
    requires Distinct(lines) && ttl > 0 && !Narrowed(p)
    ensures Held(Remember(lines, p, ttl, now, max), Line(p, now + ttl))
  {
    var after, i := Remember(lines, p, ttl, now, max), Find(lines, p.id);
    assert after[if i >= 0 then i else |after| - 1] == Line(p, now + ttl);
  }

  lemma {:induction false} HeldIsFound(lines: seq<Line>, line: Line, ttl: int, now: int)
    requires Held(lines, line) && ttl > 0 && now < line.deadline
    ensures Lookup(lines, line.principal.id, ttl, now).1 == Some(line.principal)
  {
    SomebodyHeld(lines, line, line.principal.id);
  }

  lemma {:induction false} ApplyKeepsDistinct(lines: seq<Line>, e: Event, ttl: int, max: nat)
    requires Distinct(lines)
    ensures Distinct(Apply(lines, e, ttl, max))
  {
    var after := Apply(lines, e, ttl, max);
    if ttl <= 0 && !e.Drop? {
      assert after == lines;
    } else if lines == [] {
      assert |after| <= 1;
    } else if e.Drop? {
      DropSparesIff(lines, e.id, e.at, ttl, max, lines[0]);
    } else {
      StaysIffSpared(lines, e, ttl, max, lines[0]);
    }
  }

  lemma {:induction false} ReplayKeepsDistinct(lines: seq<Line>, trace: seq<Option<Event>>, ttl: int, max: nat)
    requires Distinct(lines)
    ensures Distinct(Replay(lines, trace, ttl, max))
  {
    if trace != [] {
      var front, e := trace[..|trace| - 1], trace[|trace| - 1];
      ReplayKeepsDistinct(lines, front, ttl, max);
      if e.Some? {
        ApplyKeepsDistinct(Replay(lines, front, ttl, max), e.value, ttl, max);
      }
    }
  }

  /** Nothing between the steps `i` and `j` of the account touches the line. */
  ghost predicate SparedBetween(
    lines: seq<Line>, trace: seq<Option<Event>>, i: nat, j: nat, ttl: int, max: nat, line: Line)
    requires j <= |trace|
  {
    forall m | i < m < j && trace[m].Some? ::
      Spares(trace[m].value, Replay(lines, trace[..m], ttl, max), ttl, max, line)
  }

  lemma {:induction false} HeldThroughout(
    lines: seq<Line>, trace: seq<Option<Event>>, i: nat, j: nat, ttl: int, max: nat, line: Line)
    requires i < j <= |trace| && ttl > 0 && Held(Replay(lines, trace[..i + 1], ttl, max), line)
    requires SparedBetween(lines, trace, i, j, ttl, max, line)
    ensures Held(Replay(lines, trace[..j], ttl, max), line)
  {
    if i + 1 < j {
      HeldThroughout(lines, trace, i, j - 1, ttl, max, line);
      assert trace[..j] == trace[..j - 1] + [trace[j - 1]];
      ReplayOneMore(lines, trace[..j - 1], trace[j - 1], ttl, max);
      if trace[j - 1].Some? {
        StaysIffSpared(Replay(lines, trace[..j - 1], ttl, max), trace[j - 1].value, ttl, max, line);
      }
    }
  }

  /** In any run: what a holder sees when it stores its principal is what a later lookup inside the lifetime answers,
      whatever was edited, looked up, dropped and stored between, as long as that line was spared. */
  lemma {:induction false} StoredIsAnswered(
    lines: seq<Line>, steps: seq<Step>, acc: Account, ttl: int, max: nat, i: nat, j: nat)
    requires Distinct(lines) && ttl > 0 && Explained(lines, steps, |steps|, acc, ttl, max) && i < j < |steps|
    requires steps[i].Store? && steps[i].holder < |acc.views[i]| && steps[j].LookUp?
    requires var v := acc.views[i][steps[i].holder].value;
      && !Narrowed(v) && steps[j].id == v.id && steps[j].at < steps[i].at + ttl
      && SparedBetween(lines, acc.trace, i, j, ttl, max, Line(v, steps[i].at + ttl))
    ensures acc.answers[j] == Some(acc.views[i][steps[i].holder].value)
  {
    var v := acc.views[i][steps[i].holder].value;
    var line := Line(v, steps[i].at + ttl);
    assert StepExplained(lines, steps, i, acc, ttl, max) && StepExplained(lines, steps, j, acc, ttl, max);
    ReplayKeepsDistinct(lines, acc.trace[..i], ttl, max);
    StoredIsHeld(Replay(lines, acc.trace[..i], ttl, max), v, ttl, steps[i].at, max);
    assert acc.trace[..i + 1] == acc.trace[..i] + [acc.trace[i]];
    ReplayOneMore(lines, acc.trace[..i], acc.trace[i], ttl, max);
    HeldThroughout(lines, acc.trace, i, j, ttl, max, line);
    HeldIsFound(Replay(lines, acc.trace[..j], ttl, max), line, ttl, steps[j].at);
  }

  /** A step that stores nothing, does not drop the user, and does not look it up past the deadline. */
  ghost predicate LeavesAlone(s: Step, id: UserId, deadline: int) {
    !s.Store? && (s.Forgo? ==> s.id != id) && (s.LookUp? ==> s.id != id || s.at < deadline)
  }

  /** Such steps spare the line, whatever they edit. */
  lemma {:induction false} LeftAloneIsSpared(
    lines: seq<Line>, steps: seq<Step>, acc: Account, ttl: int, max: nat, i: nat, j: nat, line: Line)
    requires j <= |steps| && Explained(lines, steps, |steps|, acc, ttl, max)
    requires forall m | i < m < j :: LeavesAlone(steps[m], line.principal.id, line.deadline)
    ensures SparedBetween(lines, acc.trace, i, j, ttl, max, line)
  {
    forall m | i < m < j && acc.trace[m].Some?
      ensures Spares(acc.trace[m].value, Replay(lines, acc.trace[..m], ttl, max), ttl, max, line)
    {
      assert StepExplained(lines, steps, m, acc, ttl, max) && LeavesAlone(steps[m], line.principal.id, line.deadline);
    }
  }

  /** One principal is stored. After any steps, edits of it and of every copy ever handed out among them, that spare its
      line, a lookup inside the lifetime returns the value as it was when it was stored. */
  method LookupsIgnoreCallers(
    cache: Cache, held: seq<CurrentUser>, h: nat, ttl: int, stored: int, steps: seq<Step>, last: int)
      returns (r: CurrentUser?, ghost acc: Account)
    requires cache.Valid() && Distinct(cache.lines) && Separate(cache, held) && h < |held|
    requires ttl > 0 && !Narrowed(held[h].Value()) && last < stored + ttl
    modifies cache, Reach(held)
    ensures Explained(old(cache.lines), [Store(h, stored)] + steps, |steps| + 1, acc, ttl, cache.max)
    ensures acc.views[0] == old(Views(held))
    ensures SparedBetween(old(cache.lines), acc.trace, 0, |steps| + 1, ttl, cache.max,
                          Line(old(held[h].Value()), stored + ttl)) ==>
      r != null && r.Value() == old(held[h].Value())
  {
    var value := held[h].Value();
    ghost var lines, line := cache.lines, Line(value, stored + ttl);
    var kept;
    kept, acc := AnswersIgnoreEdits(cache, held, [Store(h, stored)] + steps, ttl);
    FirstStoreStays(lines, [Store(h, stored)] + steps, acc, ttl, cache.max, line);
    ghost var after := cache.lines;
    r := cache.CachedPrincipal(value.id, ttl, last);
    if Held(after, line) {
      HeldIsFound(after, line, ttl, last);
    }
  }

  lemma {:induction false} FirstStoreStays(
    lines: seq<Line>, steps: seq<Step>, acc: Account, ttl: int, max: nat, line: Line)
    requires Distinct(lines) && ttl > 0 && steps != [] && Explained(lines, steps, |steps|, acc, ttl, max)
    requires steps[0].Store? && steps[0].holder < |acc.views[0]|
    requires line == Line(acc.views[0][steps[0].holder].value, steps[0].at + ttl) && !Narrowed(line.principal)
    ensures SparedBetween(lines, acc.trace, 0, |steps|, ttl, max, line) ==>
      Held(Replay(lines, acc.trace, ttl, max), line)
  {
    if SparedBetween(lines, acc.trace, 0, |steps|, ttl, max, line) {
      assert StepExplained(lines, steps, 0, acc, ttl, max);
      StoredIsHeld(lines, line.principal, ttl, steps[0].at, max);
      assert acc.trace[..1] == [] + [acc.trace[0]] && acc.trace[..|steps|] == acc.trace;
      ReplayOneMore(lines, [], acc.trace[0], ttl, max);
      HeldThroughout(lines, acc.trace, 0, |steps|, ttl, max, line);
    }
  }
}
