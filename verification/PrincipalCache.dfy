/** The per-process permission cache: its bound, its eviction order, and its isolation from callers. */
module PrincipalCache {
  import opened Prelude

  type UserId = nat
  type TeamId = nat

  /** A principal as a value, every field of `CurrentUser`. */
  datatype Principal = Principal(
    id: UserId, email: string, role: string, teams: seq<TeamId>, roles: map<TeamId, string>,
    active: bool, superuser: bool, keyProject: Option<nat>, keyReadOnly: bool,
    passwordChangedAt: Option<nat>, mfaChangedAt: Option<nat>)

  /** Synthesized from an API key that narrows its owner. */
  predicate Narrowed(p: Principal) {
    p.keyProject.Some? || p.keyReadOnly
  }

  // ---------------------------------------------------------------- the cache as a value

  /** One dictionary entry; the dictionary keeps insertion order. */
  datatype Line = Line(principal: Principal, deadline: int)

  function Find(lines: seq<Line>, id: UserId): (i: int)
    ensures -1 <= i < |lines|
    ensures i >= 0 ==> lines[i].principal.id == id
    ensures i == -1 ==> forall j | 0 <= j < |lines| :: lines[j].principal.id != id
  {
    if lines == [] then -1
    else if lines[|lines| - 1].principal.id == id then |lines| - 1
    else Find(lines[..|lines| - 1], id)
  }

  function Remove(lines: seq<Line>, i: nat): seq<Line>
    requires i < |lines|
  {
    lines[..i] + lines[i + 1..]
  }

  function Forget(lines: seq<Line>, id: UserId): seq<Line> {
    var i := Find(lines, id);
    if i < 0 then lines else Remove(lines, i)
  }

  function Lookup(lines: seq<Line>, id: UserId, ttl: int, now: int): (seq<Line>, Option<Principal>) {
    var i := Find(lines, id);
    if ttl <= 0 || i < 0 then (lines, None)
    else if now >= lines[i].deadline then (Remove(lines, i), None)
    else (lines, Some(lines[i].principal))
  }

  function Remember(lines: seq<Line>, p: Principal, ttl: int, now: int, max: nat): seq<Line> {
    var i := Find(lines, p.id);
    if ttl <= 0 || Narrowed(p) then lines
    else if i >= 0 then lines[i := Line(p, now + ttl)]
    else (if |lines| >= max && lines != [] then lines[1..] else lines) + [Line(p, now + ttl)]
  }

  ghost predicate Distinct(lines: seq<Line>) {
    forall i, j | 0 <= i < j < |lines| :: lines[i].principal.id != lines[j].principal.id
  }

  /** Keys are distinct, no narrowed principal is held, and the map is within its maximum. */
  ghost predicate Tidy(lines: seq<Line>, max: nat) {
    Distinct(lines) && |lines| <= max && forall l | l in lines :: !Narrowed(l.principal)
  }

  // ---------------------------------------------------------------- the cache in the heap

  class TeamList {
    var teams: seq<TeamId>

    constructor (teams: seq<TeamId>)
      ensures this.teams == teams
    {
      this.teams := teams;
    }
  }

  class RoleMap {
    var roles: map<TeamId, string>

    constructor (roles: map<TeamId, string>)
      ensures this.roles == roles
    {
      this.roles := roles;
    }
  }

  /** The mutable dataclass: scalar fields of its own, and a list and a dict that can be shared. */
  class CurrentUser {
    var scalars: Principal
    var teamIds: TeamList
    var teamRoles: RoleMap

    /** `_detached`: the same value, sharing nothing. */
    constructor Detached(p: CurrentUser)
      ensures Value() == p.Value()
      ensures fresh(teamIds) && fresh(teamRoles)
    {
      scalars := p.scalars;
      teamIds := new TeamList(p.teamIds.teams);
      teamRoles := new RoleMap(p.teamRoles.roles);
    }

    function Value(): Principal
      reads this, teamIds, teamRoles
    {
      scalars.(teams := teamIds.teams, roles := teamRoles.roles)
    }

    ghost function Parts(): set<object>
      reads this
    {
      {this, teamIds, teamRoles}
    }
  }

  datatype Slot = Slot(id: UserId, principal: CurrentUser, deadline: int)

  class Cache {
    const max: nat
    var slots: seq<Slot>
    ghost var lines: seq<Line>
    ghost var repr: set<object>

    constructor (max: nat)
      requires max >= 1
      ensures Valid() && fresh(repr) && lines == [] && this.max == max
    {
      this.max := max;
      slots, lines, repr := [], [], {};
    }

    /** The stored object is the cache's own and holds the value the line records. */
    ghost predicate Holds(slot: Slot, line: Line)
      reads this, repr
    {
      && slot.principal in repr && slot.principal.teamIds in repr && slot.principal.teamRoles in repr
      && slot.principal.Value() == line.principal
      && slot.id == line.principal.id && slot.deadline == line.deadline
    }

    ghost predicate Valid()
      reads this, repr
    {
      && max >= 1 && this !in repr && |slots| == |lines|
      && forall i | 0 <= i < |slots| :: Holds(slots[i], lines[i])
    }

    method IndexOf(id: UserId) returns (i: int)
      requires Valid()
      ensures i == Find(lines, id)
    {
      i := |slots| - 1;
      assert lines[..i + 1] == lines;
      while i >= 0 && slots[i].id != id
        invariant -1 <= i < |slots|
        invariant Find(lines, id) == Find(lines[..i + 1], id)
      {
        assert Holds(slots[i], lines[i]);
        assert lines[..i + 1][..i] == lines[..i];
        i := i - 1;
      }
      if i >= 0 {
        assert Holds(slots[i], lines[i]);
      }
    }

    method DeleteAt(i: nat)
      requires Valid() && i < |slots|
      modifies this`slots, this`lines
      ensures Valid() && lines == Remove(old(lines), i)
    {
      slots, lines := slots[..i] + slots[i + 1..], Remove(lines, i);
      assert forall j | 0 <= j < |slots| ::
        Holds(slots[j], lines[j])
        <== Holds(old(slots)[if j < i then j else j + 1], old(lines)[if j < i then j else j + 1]);
    }

    /** `_cached_principal`: a copy of the stored principal while it is inside its lifetime. */
    method CachedPrincipal(id: UserId, ttl: int, now: int) returns (r: CurrentUser?)
      requires Valid()
      modifies this`slots, this`lines
      ensures Valid() && lines == Lookup(old(lines), id, ttl, now).0
      ensures r == null <==> Lookup(old(lines), id, ttl, now).1.None?
      ensures r != null ==> fresh(r.Parts()) && Some(r.Value()) == Lookup(old(lines), id, ttl, now).1
    {
      r := null;
      if ttl <= 0 {
        return;
      }
      var i := IndexOf(id);
      if i < 0 {
        return;
      }
      assert Holds(slots[i], lines[i]);
      if now >= slots[i].deadline {
        DeleteAt(i);
        return;
      }
      r := new CurrentUser.Detached(slots[i].principal);
    }

    /** A key that is not held goes last; a full map first loses its first key. */
    method Append(id: UserId, copy: CurrentUser, ghost v: Principal, deadline: int)
      requires Valid() && this !in copy.Parts() && copy.Value() == v && v.id == id
      modifies this`slots, this`lines, this`repr
      ensures Valid() && repr == old(repr) + copy.Parts()
      ensures lines == (if |old(lines)| >= max then old(lines)[1..] else old(lines)) + [Line(v, deadline)]
    {
      if |slots| >= max {
        DeleteAt(0);
      }
      slots, lines := slots + [Slot(id, copy, deadline)], lines + [Line(v, deadline)];
      repr := repr + copy.Parts();
    }

    method Replace(i: nat, id: UserId, copy: CurrentUser, ghost v: Principal, deadline: int)
      requires Valid() && i < |slots| && this !in copy.Parts() && copy.Value() == v && v.id == id
      modifies this`slots, this`lines, this`repr
      ensures Valid() && repr == old(repr) + copy.Parts() && lines == old(lines)[i := Line(v, deadline)]
    {
      slots, lines := slots[i := Slot(id, copy, deadline)], lines[i := Line(v, deadline)];
      repr := repr + copy.Parts();
    }

    method Put(copy: CurrentUser, ttl: int, now: int)
      requires Valid() && this !in copy.Parts() && ttl > 0 && !Narrowed(copy.Value())
      modifies this`slots, this`lines, this`repr
      ensures Valid() && repr == old(repr) + copy.Parts()
      ensures lines == Remember(old(lines), old(copy.Value()), ttl, now, max)
    {
      var v := copy.Value();
      var i := IndexOf(v.id);
      if i < 0 {
        Append(v.id, copy, v, now + ttl);
      } else {
        Replace(i, v.id, copy, v, now + ttl);
      }
    }

    /** `_remember_principal`: stores a copy, and drops the first entry of a full map. */
    method RememberPrincipal(p: CurrentUser, ttl: int, now: int)
      requires Valid()
      modifies this`slots, this`lines, this`repr
      ensures Valid() && fresh(repr - old(repr))
      ensures lines == Remember(old(lines), old(p.Value()), ttl, now, max)
    {
      var v := p.Value();
      if ttl <= 0 || v.keyProject.Some? || v.keyReadOnly {
        return;
      }
      var copy := new CurrentUser.Detached(p);
      Put(copy, ttl, now);
    }

    /** `forget_principal`. */
    method ForgetPrincipal(id: UserId)
      requires Valid()
      modifies this`slots, this`lines
      ensures Valid() && lines == Forget(old(lines), id)
    {
      var i := IndexOf(id);
      if i >= 0 {
        DeleteAt(i);
      }
    }

    /** `set_password`: the row's stamp moves, and this process forgets the user. */
    method SetPassword(user: UserRow, hash: string, now: nat)
      requires Valid() && user !in repr
      modifies this`slots, this`lines, user
      ensures Valid() && lines == Forget(old(lines), old(user.id))
      ensures user.id == old(user.id) && user.hashedPassword == hash && user.passwordChangedAt == Some(now)
    {
      user.hashedPassword := hash;
      user.passwordChangedAt := Some(now);
      ForgetPrincipal(user.id);
    }
  }

  class UserRow {
    var id: UserId
    var hashedPassword: string
    var passwordChangedAt: Option<nat>
  }

  // ---------------------------------------------------------------- what a lookup finds

  /** A principal just stored is the one a lookup finds, until its lifetime is over. */
  lemma {:induction false} Stored(lines: seq<Line>, p: Principal, ttl: int, stored: int, max: nat)
    requires ttl > 0 && !Narrowed(p) && Distinct(lines)
    ensures var after := Remember(lines, p, ttl, stored, max);
      forall now | now < stored + ttl :: Lookup(after, p.id, ttl, now) == (after, Some(p))
    ensures var after := Remember(lines, p, ttl, stored, max);
      forall now | now >= stored + ttl :: Lookup(after, p.id, ttl, now).1 == None
  {
    var after := Remember(lines, p, ttl, stored, max);
    var i := Find(lines, p.id);
    if i >= 0 {
      FindUnique(after, p.id, i);
    } else {
      assert after[|after| - 1] == Line(p, stored + ttl);
    }
  }

  /** With the cache off nothing is looked at and nothing is stored; dropping still drops. */
  lemma {:induction false} OffMeansOff(lines: seq<Line>, id: UserId, p: Principal, ttl: int, now: int, max: nat)
    requires ttl <= 0
    ensures Lookup(lines, id, ttl, now) == (lines, None) && Remember(lines, p, ttl, now, max) == lines
  {
  }

  /** A refused principal leaves the cache as it was. */
  lemma {:induction false} KeyPrincipalsAreRefused(lines: seq<Line>, p: Principal, ttl: int, now: int, max: nat)
    requires p.keyProject.Some? || p.keyReadOnly
    ensures Remember(lines, p, ttl, now, max) == lines
  {
  }

  lemma {:induction false} FindUnique(lines: seq<Line>, id: UserId, i: nat)
    requires i < |lines| && lines[i].principal.id == id
    requires forall j | 0 <= j < |lines| && j != i :: lines[j].principal.id != id
    ensures Find(lines, id) == i
  {
  }

  lemma {:induction false} RemoveKeepsTidy(lines: seq<Line>, i: nat, max: nat)
    requires Tidy(lines, max) && i < |lines|
    ensures Tidy(Remove(lines, i), max)
  {
  }

  lemma {:induction false} RememberKeepsTidy(lines: seq<Line>, p: Principal, ttl: int, now: int, max: nat)
    requires Tidy(lines, max) && max >= 1
    ensures Tidy(Remember(lines, p, ttl, now, max), max)
  {
    var after := Remember(lines, p, ttl, now, max);
    forall l | l in after ensures !Narrowed(l.principal) {
      assert l == Line(p, now + ttl) || l in lines;
    }
  }

  // ---------------------------------------------------------------- what a full map drops

  ghost predicate ByDeadline(lines: seq<Line>) {
    forall i, j | 0 <= i <= j < |lines| :: lines[i].deadline <= lines[j].deadline
  }

  ghost predicate NoneAfter(lines: seq<Line>, latest: int) {
    forall l | l in lines :: l.deadline <= latest
  }

  /** Storing keeps insertion order equal to expiry order exactly when the user was not already held in front of
      an entry that expires sooner: replacing a value keeps its old place in the dictionary. */
  lemma {:induction false} StoreKeepsOrderIff(lines: seq<Line>, p: Principal, ttl: int, now: int, max: nat)
    requires ttl > 0 && !Narrowed(p) && ByDeadline(lines) && NoneAfter(lines, now + ttl)
    ensures var i := Find(lines, p.id);
      ByDeadline(Remember(lines, p, ttl, now, max))
      <==> i < 0 || forall j | i < j < |lines| :: lines[j].deadline == now + ttl
  {
    var i, after := Find(lines, p.id), Remember(lines, p, ttl, now, max);
    if i >= 0 {
      assert after[i].deadline == now + ttl;
      forall j | i < j < |lines| ensures lines[j].deadline <= now + ttl && after[j] == lines[j] {
        assert lines[j] in lines;
      }
    } else {
      forall j | 0 <= j < |lines| ensures lines[j].deadline <= now + ttl { assert lines[j] in lines; }
    }
  }

  datatype Event = Ask(id: UserId, at: int) | Keep(p: Principal, at: int) | Drop(id: UserId, at: int)

  function Apply(lines: seq<Line>, e: Event, ttl: int, max: nat): seq<Line> {
    match e
    case Ask(id, at) => Lookup(lines, id, ttl, at).0
    case Keep(p, at) => Remember(lines, p, ttl, at, max)
    case Drop(id, _) => Forget(lines, id)
  }

  function After(events: seq<Event>, ttl: int, max: nat): seq<Line> {
    if events == [] then [] else Apply(After(events[..|events| - 1], ttl, max), events[|events| - 1], ttl, max)
  }

  function User(id: UserId): Principal {
    Principal(id, "", "developer", [], map[], true, false, None, false, None, None)
  }

  /** Users 0, 1, .. are stored one after the other. */
  function Arrivals(n: nat): seq<Event> {
    if n == 0 then [] else Arrivals(n - 1) + [Keep(User(n - 1), n - 1)]
  }

  lemma {:induction false} AfterOneMore(events: seq<Event>, e: Event, ttl: int, max: nat)
    ensures After(events + [e], ttl, max) == Apply(After(events, ttl, max), e, ttl, max)
  {
    assert (events + [e])[..|events|] == events;
  }

  function Filled(n: nat, ttl: int): (lines: seq<Line>)
    ensures |lines| == n && forall i | 0 <= i < n :: lines[i] == Line(User(i), i + ttl)
  {
    if n == 0 then [] else Filled(n - 1, ttl) + [Line(User(n - 1), n - 1 + ttl)]
  }

  lemma {:induction false} ArrivalsFill(n: nat, ttl: int, max: nat)
    requires ttl > 0 && n <= max
    ensures After(Arrivals(n), ttl, max) == Filled(n, ttl)
  {
    if n > 0 {
      ArrivalsFill(n - 1, ttl, max);
      AfterOneMore(Arrivals(n - 1), Keep(User(n - 1), n - 1), ttl, max);
      StoreNewcomer(Filled(n - 1, ttl), n - 1, ttl, n - 1, max);
    }
  }

  lemma {:induction false} StoreNewcomer(lines: seq<Line>, id: UserId, ttl: int, now: int, max: nat)
    requires ttl > 0 && forall i | 0 <= i < |lines| :: lines[i].principal.id != id
    ensures Remember(lines, User(id), ttl, now, max)
         == (if |lines| >= max && lines != [] then lines[1..] else lines) + [Line(User(id), now + ttl)]
  {
    assert Find(lines, id) < 0;
  }

  /** Whatever the maximum, from two up: user 0 misses twice together, is stored, and is stored again when the map has
      filled. The next newcomer then drops user 0, which expires after everyone else. */
  lemma {:induction false} ConcurrentMissesDropTheWrongEntry(ttl: int, max: nat)
    requires ttl > 0 && max >= 2
    ensures var events := Arrivals(max) + [Keep(User(0), max)];
      var full := After(events, ttl, max);
      && |full| == max && full[0] == Line(User(0), max + ttl)
      && (forall i | 0 < i < max :: full[i].deadline < full[0].deadline)
      && After(events + [Keep(User(max), max + 1)], ttl, max) == full[1..] + [Line(User(max), max + 1 + ttl)]
  {
    var events, again, next := Arrivals(max), Keep(User(0), max), Keep(User(max), max + 1);
    ArrivalsFill(max, ttl, max);
    AfterOneMore(events, again, ttl, max);
    AfterOneMore(events + [again], next, ttl, max);
    var lines := After(events, ttl, max);
    FindUnique(lines, 0, 0);
    var full := After(events + [again], ttl, max);
    assert full == lines[0 := Line(User(0), max + ttl)];
    assert forall i | 0 <= i < max :: full[i].principal.id == i;
    StoreNewcomer(full, max, ttl, max + 1, max);
  }

  ghost predicate Ordered(events: seq<Event>) {
    forall i, j | 0 <= i <= j < |events| :: events[i].at <= events[j].at
  }

  /** Every store follows a miss in the same step: the user is not held when it is stored. */
  ghost predicate StoresFollowMisses(events: seq<Event>, ttl: int, max: nat) {
    forall i | 0 <= i < |events| && events[i].Keep? :: Find(After(events[..i], ttl, max), events[i].p.id) < 0
  }

  lemma {:induction false} ApplyKeepsOrder(lines: seq<Line>, e: Event, ttl: int, max: nat)
    requires ttl > 0 && ByDeadline(lines) && NoneAfter(lines, e.at + ttl)
    requires e.Keep? ==> Find(lines, e.p.id) < 0
    ensures ByDeadline(Apply(lines, e, ttl, max)) && NoneAfter(Apply(lines, e, ttl, max), e.at + ttl)
  {
    var after := Apply(lines, e, ttl, max);
    if e.Keep? {
      if !Narrowed(e.p) {
        StoreKeepsOrderIff(lines, e.p, ttl, e.at, max);
        assert forall l | l in after :: l in lines || l == Line(e.p, e.at + ttl);
      }
    } else if Find(lines, e.id) >= 0 {
      RemoveKeepsOrder(lines, Find(lines, e.id), e.at + ttl);
    }
  }

  lemma {:induction false} RemoveKeepsOrder(lines: seq<Line>, i: nat, latest: int)
    requires ByDeadline(lines) && NoneAfter(lines, latest) && i < |lines|
    ensures ByDeadline(Remove(lines, i)) && NoneAfter(Remove(lines, i), latest)
  {
    var after := Remove(lines, i);
    forall l | l in after ensures l in lines { }
  }

  lemma {:induction false} RunKeepsOrder(events: seq<Event>, ttl: int, max: nat, now: int)
    requires ttl > 0 && Ordered(events) && StoresFollowMisses(events, ttl, max)
    requires |events| > 0 ==> events[|events| - 1].at <= now
    ensures ByDeadline(After(events, ttl, max)) && NoneAfter(After(events, ttl, max), now + ttl)
    decreases |events|
  {
    if events != [] {
      var front, e := events[..|events| - 1], events[|events| - 1];
      forall i | 0 <= i < |front| && front[i].Keep? ensures Find(After(front[..i], ttl, max), front[i].p.id) < 0 {
        assert front[..i] == events[..i];
      }
      RunKeepsOrder(front, ttl, max, e.at);
      ApplyKeepsOrder(After(front, ttl, max), e, ttl, max);
    }
  }

  /** In such runs the entry a full map drops is one that expires first. */
  lemma {:induction false} DropsTheEarliest(events: seq<Event>, ttl: int, max: nat, l: Line)
    requires ttl > 0 && Ordered(events) && StoresFollowMisses(events, ttl, max)
    requires l in After(events, ttl, max)
    ensures After(events, ttl, max)[0].deadline <= l.deadline
  {
    if events != [] {
      RunKeepsOrder(events, ttl, max, events[|events| - 1].at);
    }
  }

  /** No run of lookups, stores and drops leaves more than the maximum, a narrowed principal or a duplicate. */
  lemma {:induction false} RunStaysTidy(events: seq<Event>, ttl: int, max: nat)
    requires max >= 1
    ensures Tidy(After(events, ttl, max), max)
    ensures forall l | l in After(events, ttl, max) :: l.principal.keyProject.None? && !l.principal.keyReadOnly
  {
    if events != [] {
      var front, e := After(events[..|events| - 1], ttl, max), events[|events| - 1];
      RunStaysTidy(events[..|events| - 1], ttl, max);
      match e
      case Ask(id, at) => if Find(front, id) >= 0 { RemoveKeepsTidy(front, Find(front, id), max); }
      case Keep(p, at) => RememberKeepsTidy(front, p, ttl, at, max);
      case Drop(id, at) => if Find(front, id) >= 0 { RemoveKeepsTidy(front, Find(front, id), max); }
    }
  }
}
