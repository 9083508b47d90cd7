/** The shared connection registry, with each call run as one atomic step. */
module WsRegistry {
  import opened Prelude

  /** Ids are 32 hexadecimal digits, so Redis's order on members is the order of the numbers. */
  type ConnId = nat
  type UserId = nat

  /** A sorted set: each member with its connect-time score. */
  type ZSet = map<ConnId, int>

  /** The two kinds of sorted set, and the expiry of every liveness key. */
  datatype Redis = Redis(all: ZSet, users: map<UserId, ZSet>, alive: map<ConnId, int>)

  const EMPTY := Redis(map[], map[], map[])

  datatype Key = Everyone | OfUser(user: UserId)

  datatype Caps = Caps(perUser: int, everyone: int, ttl: int)

  datatype Request = Request(user: UserId, conn: ConnId, score: int, now: int)

  datatype Answer = Answer(accepted: bool, evicted: Option<ConnId>)

  // ---------------------------------------------------------------- commands

  function UserSet(r: Redis, u: UserId): ZSet {
    if u in r.users then r.users[u] else map[]
  }

  function Members(r: Redis, key: Key): ZSet {
    if key.Everyone? then r.all else UserSet(r, key.user)
  }

  function Put(r: Redis, key: Key, z: ZSet): Redis {
    if key.Everyone? then r.(all := z) else r.(users := r.users[key.user := z])
  }

  function ZAdd(r: Redis, key: Key, c: ConnId, score: int): Redis {
    Put(r, key, Members(r, key)[c := score])
  }

  function ZRem(r: Redis, key: Key, gone: set<ConnId>): Redis {
    if Members(r, key).Keys !! gone then r else Put(r, key, Members(r, key) - gone)
  }

  function SetAlive(r: Redis, c: ConnId, now: int, ttl: int): Redis {
    r.(alive := r.alive[c := now + Ms(ttl)])
  }

  predicate IsAlive(r: Redis, c: ConnId, now: int) {
    c in r.alive && now < r.alive[c]
  }

  function Dead(r: Redis, members: set<ConnId>, now: int): set<ConnId> {
    set c | c in members && !IsAlive(r, c, now)
  }

  /** Sorted-set order: score first, member second. */
  predicate Precedes(z: ZSet, c: ConnId, d: ConnId)
    requires c in z && d in z
  {
    z[c] < z[d] || (z[c] == z[d] && c <= d)
  }

  predicate IsOldest(z: ZSet, c: ConnId) {
    c in z && forall d | d in z :: Precedes(z, c, d)
  }

  lemma {:induction false} OldestExists(z: ZSet)
    requires |z| > 0
    ensures exists c :: IsOldest(z, c)
    decreases |z|
  {
    var x :| x in z;
    var rest := z - {x};
    if |rest| == 0 {
      assert z.Keys == {x} + rest.Keys;
      assert IsOldest(z, x);
    } else {
      OldestExists(rest);
      var y :| IsOldest(rest, y);
      assert z.Keys == {x} + rest.Keys;
      assert IsOldest(z, if Precedes(z, x, y) then x else y);
    }
  }

  /** ZRANGE key 0 0. */
  ghost function Oldest(z: ZSet): (c: ConnId)
    requires |z| > 0
    ensures IsOldest(z, c)
  {
    OldestExists(z);
    var c :| IsOldest(z, c);
    c
  }

  lemma {:induction false} OldestIsUnique(z: ZSet, c: ConnId, d: ConnId)
    requires IsOldest(z, c) && IsOldest(z, d)
    ensures c == d
  {
    assert Precedes(z, c, d) && Precedes(z, d, c);
  }

  // ---------------------------------------------------------------- the calls

  function Prune(r: Redis, key: Key, now: int): Redis {
    ZRem(r, key, Dead(r, Members(r, key).Keys, now))
  }

  function Pruned(r: Redis, q: Request): Redis {
    Prune(Prune(r, Everyone, q.now), OfUser(q.user), q.now)
  }

  function Admitted(r: Redis, q: Request, ttl: int): Redis {
    SetAlive(ZAdd(ZAdd(r, Everyone, q.conn, q.score), OfUser(q.user), q.conn, q.score), q.conn, q.now, ttl)
  }

  /** Whom an over-full user set gives up: its oldest member, unless that is the newcomer itself. */
  ghost function Evictee(mine: ZSet, newcomer: ConnId, cap: int): Option<ConnId>
    requires newcomer in mine
  {
    if |mine| > cap && Oldest(mine) != newcomer then Some(Oldest(mine)) else None
  }

  function Evict(r: Redis, u: UserId, c: Option<ConnId>): Redis {
    match c
    case None => r
    case Some(c) => ZRem(ZRem(r, OfUser(u), {c}), Everyone, {c})
  }

  ghost function Register(r: Redis, q: Request, caps: Caps): (Redis, Answer) {
    var pruned := Pruned(r, q);
    if |pruned.all| >= caps.everyone then (pruned, Answer(false, None))
    else
      var admitted := Admitted(pruned, q, caps.ttl);
      var evictee := Evictee(UserSet(admitted, q.user), q.conn, caps.perUser);
      (Evict(admitted, q.user, evictee), Answer(true, evictee))
  }

  function Unregister(r: Redis, u: UserId, c: ConnId): Redis {
    var out := ZRem(ZRem(r, OfUser(u), {c}), Everyone, {c});
    out.(alive := out.alive - {c})
  }

  /** The registry as one process drives it, a Redis command at a time. */
  class Store {
    var redis: Redis

    constructor ()
      ensures redis == EMPTY
    {
      redis := EMPTY;
    }

    /** `_prune_dead`: read the members, read their flags, remove the dead ones. */
    method PruneDead(key: Key, now: int)
      modifies this
      ensures redis == Prune(old(redis), key, now)
    {
      var members := Members(redis, key).Keys;
      if members == {} {
        return;
      }
      var dead, todo: set<ConnId> := {}, members;
      while todo != {}
        invariant todo <= members
        invariant dead == set c | c in members - todo && !IsAlive(redis, c, now)
        invariant redis == old(redis)
      {
        var member :| member in todo;
        if !(member in redis.alive && now < redis.alive[member]) {
          dead := dead + {member};
        }
        todo := todo - {member};
      }
      assert dead == Dead(redis, members, now);
      if dead != {} {
        redis := ZRem(redis, key, dead);
      }
    }

    /** ZRANGE key 0 0 on a set that is not empty. */
    method First(key: Key) returns (c: ConnId)
      requires |Members(redis, key)| > 0
      ensures c == Oldest(Members(redis, key))
    {
      var z := Members(redis, key);
      c :| c in z;
      var todo := z.Keys;
      while todo != {}
        invariant todo <= z.Keys && c in z
        invariant forall d | d in z && d !in todo :: Precedes(z, c, d)
      {
        var d :| d in todo;
        if Precedes(z, d, c) {
          c := d;
        }
        todo := todo - {d};
      }
      OldestIsUnique(z, c, Oldest(z));
    }

    /** `register_connection`. An unreachable Redis admits the connection and records nothing. */
    method RegisterConnection(q: Request, caps: Caps, reachable: bool) returns (a: Answer)
      modifies this
      ensures !reachable ==> redis == old(redis) && a == Answer(true, None)
      ensures reachable ==> (redis, a) == Register(old(redis), q, caps)
    {
      if !reachable {
        return Answer(true, None);
      }
      PruneDead(Everyone, q.now);
      PruneDead(OfUser(q.user), q.now);
      if |redis.all| >= caps.everyone {
        return Answer(false, None);
      }
      redis := ZAdd(redis, Everyone, q.conn, q.score);
      redis := ZAdd(redis, OfUser(q.user), q.conn, q.score);
      redis := SetAlive(redis, q.conn, q.now, caps.ttl);
      a := Answer(true, None);
      if |UserSet(redis, q.user)| > caps.perUser {
        assert q.conn in UserSet(redis, q.user);
        var candidate := First(OfUser(q.user));
        if candidate != q.conn {
          redis := ZRem(redis, OfUser(q.user), {candidate});
          redis := ZRem(redis, Everyone, {candidate});
          a := Answer(true, Some(candidate));
        }
      }
    }

    method TouchConnection(c: ConnId, now: int, ttl: int, reachable: bool)
      modifies this
      ensures redis == if reachable then SetAlive(old(redis), c, now, ttl) else old(redis)
    {
      if reachable {
        redis := SetAlive(redis, c, now, ttl);
      }
    }

    method UnregisterConnection(u: UserId, c: ConnId, reachable: bool)
      modifies this
      ensures redis == if reachable then Unregister(old(redis), u, c) else old(redis)
    {
      if reachable {
        redis := ZRem(redis, OfUser(u), {c});
        redis := ZRem(redis, Everyone, {c});
        redis := redis.(alive := redis.alive - {c});
      }
    }
  }

  // ---------------------------------------------------------------- one registration

  lemma {:induction false} MembersAfterRem(r: Redis, key: Key, gone: set<ConnId>, other: Key)
    ensures Members(ZRem(r, key, gone), other)
         == if other == key then Members(r, key) - gone else Members(r, other)
    ensures ZRem(r, key, gone).alive == r.alive
  {
    if Members(r, key).Keys !! gone {
      assert Members(r, key) - gone == Members(r, key);
    }
  }

  /** The connections that survive pruning at `now`. */
  function Survivors(r: Redis, key: Key, now: int): ZSet {
    Members(r, key) - Dead(r, Members(r, key).Keys, now)
  }

  lemma {:induction false} MembersAfterPruning(r: Redis, q: Request, u: UserId)
    ensures Pruned(r, q).all == Survivors(r, Everyone, q.now)
    ensures UserSet(Pruned(r, q), u) == if u == q.user then Survivors(r, OfUser(u), q.now) else UserSet(r, u)
    ensures Pruned(r, q).alive == r.alive
  {
    var one := Prune(r, Everyone, q.now);
    var dead := Dead(r, r.all.Keys, q.now);
    MembersAfterRem(r, Everyone, dead, Everyone);
    MembersAfterRem(r, Everyone, dead, OfUser(u));
    MembersAfterRem(r, Everyone, dead, OfUser(q.user));
    var dead' := Dead(one, UserSet(one, q.user).Keys, q.now);
    assert dead' == Dead(r, UserSet(r, q.user).Keys, q.now);
    MembersAfterRem(one, OfUser(q.user), dead', Everyone);
    MembersAfterRem(one, OfUser(q.user), dead', OfUser(u));
  }

  function Without(z: ZSet, c: Option<ConnId>): ZSet {
    if c.Some? then z - {c.value} else z
  }

  lemma {:induction false} MembersAfterEviction(r: Redis, u: UserId, c: Option<ConnId>, key: Key)
    ensures Members(Evict(r, u, c), key)
         == if key == Everyone || key == OfUser(u) then Without(Members(r, key), c) else Members(r, key)
    ensures Evict(r, u, c).alive == r.alive
  {
    if c.Some? {
      MembersAfterRem(r, OfUser(u), {c.value}, key);
      MembersAfterRem(r, OfUser(u), {c.value}, Everyone);
      MembersAfterRem(ZRem(r, OfUser(u), {c.value}), Everyone, {c.value}, key);
    }
  }

  /** The user's set once the newcomer is in it. */
  function Joined(r: Redis, q: Request): ZSet {
    Survivors(r, OfUser(q.user), q.now)[q.conn := q.score]
  }

  /** What a registration did, set by set: prune, and if there is room add the newcomer and
      give up at most one connection of the same user. */
  ghost predicate Effect(r: Redis, q: Request, caps: Caps, after: Redis, a: Answer) {
    var everyone, mine := Survivors(r, Everyone, q.now), Survivors(r, OfUser(q.user), q.now);
    && (forall u | u != q.user :: UserSet(after, u) == UserSet(r, u))
    && if |everyone| >= caps.everyone then
         a == Answer(false, None) && after.all == everyone && UserSet(after, q.user) == mine && after.alive == r.alive
       else
         && a == Answer(true, Evictee(Joined(r, q), q.conn, caps.perUser))
         && after.all == Without(everyone[q.conn := q.score], a.evicted)
         && UserSet(after, q.user) == Without(Joined(r, q), a.evicted)
         && after.alive == r.alive[q.conn := q.now + Ms(caps.ttl)]
  }

  lemma {:induction false} MembersAfterAdmission(r: Redis, q: Request, ttl: int, u: UserId)
    ensures Admitted(r, q, ttl).all == r.all[q.conn := q.score]
    ensures UserSet(Admitted(r, q, ttl), u) == if u == q.user then UserSet(r, u)[q.conn := q.score] else UserSet(r, u)
    ensures Admitted(r, q, ttl).alive == r.alive[q.conn := q.now + Ms(ttl)]
  {
  }

  lemma {:induction false} AdmissionEffect(r: Redis, q: Request, caps: Caps, u: UserId)
    requires |Survivors(r, Everyone, q.now)| < caps.everyone
    ensures var (after, a) := Register(r, q, caps);
      && a == Answer(true, Evictee(Joined(r, q), q.conn, caps.perUser))
      && after.all == Without(Survivors(r, Everyone, q.now)[q.conn := q.score], a.evicted)
      && UserSet(after, u) == (if u == q.user then Without(Joined(r, q), a.evicted) else UserSet(r, u))
      && after.alive == r.alive[q.conn := q.now + Ms(caps.ttl)]
  {
    MembersAfterPruning(r, q, u);
    MembersAfterPruning(r, q, q.user);
    MembersAfterAdmission(Pruned(r, q), q, caps.ttl, u);
    MembersAfterAdmission(Pruned(r, q), q, caps.ttl, q.user);
    var admitted := Admitted(Pruned(r, q), q, caps.ttl);
    var c := Evictee(UserSet(admitted, q.user), q.conn, caps.perUser);
    assert Register(r, q, caps) == (Evict(admitted, q.user, c), Answer(true, c));
    MembersAfterEviction(admitted, q.user, c, Everyone);
    MembersAfterEviction(admitted, q.user, c, OfUser(u));
  }

  lemma {:induction false} RegisterEffect(r: Redis, q: Request, caps: Caps)
    ensures Effect(r, q, caps, Register(r, q, caps).0, Register(r, q, caps).1)
  {
    var (after, a) := Register(r, q, caps);
    MembersAfterPruning(r, q, q.user);
    if |Survivors(r, Everyone, q.now)| >= caps.everyone {
      forall u | u != q.user ensures UserSet(after, u) == UserSet(r, u) { MembersAfterPruning(r, q, u); }
    } else {
      forall u | u != q.user ensures UserSet(after, u) == UserSet(r, u) { AdmissionEffect(r, q, caps, u); }
      AdmissionEffect(r, q, caps, q.user);
    }
  }

  /** Adding one member and giving up one keeps a full set full; the guard that spares the
      newcomer is the only way past the cap. */
  lemma {:induction false} CapAfterJoin(mine: ZSet, c: ConnId, score: int, cap: int)
    requires c !in mine
    ensures var joined := mine[c := score];
      |Without(joined, Evictee(joined, c, cap))| > cap <==> |mine| > cap || (|mine| == cap && Oldest(joined) == c)
  {
    var joined := mine[c := score];
    assert joined.Keys == mine.Keys + {c};
    var e := Evictee(joined, c, cap);
    if e.Some? {
      assert (joined - {e.value}).Keys == joined.Keys - {e.value};
    }
  }

  ghost predicate SortsFirst(z: ZSet, c: ConnId, score: int) {
    forall d | d in z :: score < z[d] || (score == z[d] && c < d)
  }

  lemma {:induction false} OldestIsNewcomer(mine: ZSet, c: ConnId, score: int)
    requires c !in mine
    ensures Oldest(mine[c := score]) == c <==> SortsFirst(mine, c, score)
  {
    var joined := mine[c := score];
    if SortsFirst(mine, c, score) {
      assert IsOldest(joined, c);
      OldestIsUnique(joined, c, Oldest(joined));
    } else {
      var d :| d in mine && !(score < mine[d] || (score == mine[d] && c < d));
      assert !Precedes(joined, c, d);
    }
  }

  /** What an admitted newcomer joins. */
  function Others(r: Redis, q: Request): ZSet {
    Survivors(r, OfUser(q.user), q.now) - {q.conn}
  }

  /** When an admission leaves the user over the cap: exactly if the other live connections already were, or were as
      many as the cap and the newcomer sorts before every one of them, which a connect time that went backwards can
      cause. A refusal leaves the live ones as they were. */
  lemma {:induction false} CapHoldsUnlessNewcomerIsOldest(r: Redis, q: Request, caps: Caps)
    ensures var (after, a) := Register(r, q, caps);
      var others := Others(r, q);
      if a.accepted then
        |UserSet(after, q.user)| > caps.perUser <==>
          |others| > caps.perUser || (|others| == caps.perUser && SortsFirst(others, q.conn, q.score))
      else UserSet(after, q.user) == Survivors(r, OfUser(q.user), q.now)
  {
    RegisterEffect(r, q, caps);
    JoinedIsOthersAndOne(r, q);
    CapAfterJoin(Others(r, q), q.conn, q.score, caps.perUser);
    OldestIsNewcomer(Others(r, q), q.conn, q.score);
  }

  lemma {:induction false} JoinedIsOthersAndOne(r: Redis, q: Request)
    ensures Joined(r, q) == Others(r, q)[q.conn := q.score]
  {
  }

  /** And no registration ever brings a user back: it gives up at most the one connection it added. */
  lemma {:induction false} RegistrationNeverShrinks(r: Redis, q: Request, caps: Caps)
    ensures |UserSet(Register(r, q, caps).0, q.user)| >= |Others(r, q)|
  {
    RegisterEffect(r, q, caps);
    JoinedIsOthersAndOne(r, q);
    SubmapSize(Survivors(r, OfUser(q.user), q.now), {q.conn});
    OneInOneOut(Others(r, q), q.conn, q.score, Register(r, q, caps).1.evicted);
  }

  lemma {:induction false} OneInOneOut(others: ZSet, c: ConnId, score: int, gone: Option<ConnId>)
    requires c !in others
    ensures |Without(others[c := score], gone)| >= |others|
  {
    var joined := others[c := score];
    assert joined.Keys == others.Keys + {c};
    if gone.Some? {
      assert (joined - {gone.value}).Keys == joined.Keys - {gone.value};
    }
  }

  /** The failing family is real: one live tab, a cap of one, and a clock that stepped back a second. */
  lemma {:induction false} ClockStepBackBreaksTheCap()
    ensures var r := Redis(map[7 := 1000], map[1 := map[7 := 1000]], map[7 := 90000]);
      var (after, a) := Register(r, Request(1, 8, 999, 0), Caps(1, 500, 90));
      a == Answer(true, None) && |UserSet(after, 1)| == 2
  {
    var r := Redis(map[7 := 1000], map[1 := map[7 := 1000]], map[7 := 90000]);
    var q, caps := Request(1, 8, 999, 0), Caps(1, 500, 90);
    assert Survivors(r, Everyone, 0) == map[7 := 1000];
    assert Survivors(r, OfUser(1), 0) == map[7 := 1000];
    AdmissionEffect(r, q, caps, 1);
    OldestIsNewcomer(map[7 := 1000], 8, 999);
    assert Joined(r, q).Keys == {7, 8};
  }

  // ---------------------------------------------------------------- runs

  datatype Event = Connect(q: Request) | Touch(conn: ConnId, now: int) | Leave(user: UserId, conn: ConnId)

  /** The registry plus what was asked of it: who opened each id, the latest connect time, every answer. */
  datatype History = History(
    redis: Redis, owner: map<ConnId, UserId>, newest: Option<int>, answers: seq<Option<Answer>>)

  const START := History(EMPTY, map[], None, [])

  ghost function Advance(h: History, e: Event, caps: Caps): History {
    match e
    case Connect(q) =>
      var (redis, a) := Register(h.redis, q, caps);
      History(redis, h.owner[q.conn := q.user], Some(q.score), h.answers + [Some(a)])
    case Touch(c, now) => h.(redis := SetAlive(h.redis, c, now, caps.ttl), answers := h.answers + [None])
    case Leave(u, c) => h.(redis := Unregister(h.redis, u, c), answers := h.answers + [None])
  }

  ghost function Run(h: History, events: seq<Event>, caps: Caps): (after: History)
    ensures |after.answers| == |h.answers| + |events|
  {
    if events == [] then h
    else Advance(Run(h, events[..|events| - 1], caps), events[|events| - 1], caps)
  }

  /** What the callers promise: fresh ids, strictly increasing connect times, and a connection
      unregisters under the user that opened it. */
  ghost predicate Legal(h: History, e: Event) {
    match e
    case Connect(q) => q.conn !in h.owner && (h.newest.Some? ==> h.newest.value < q.score)
    case Touch(_, _) => true
    case Leave(u, c) => c in h.owner ==> h.owner[c] == u
  }

  ghost predicate LegalRun(events: seq<Event>, caps: Caps) {
    forall i | 0 <= i < |events| :: Legal(Run(START, events[..i], caps), events[i])
  }

  ghost predicate Owned(h: History, u: UserId, c: ConnId)
    requires c in UserSet(h.redis, u)
  {
    c in h.owner && h.owner[c] == u && h.newest.Some? && UserSet(h.redis, u)[c] <= h.newest.value
  }

  ghost predicate WithinCaps(r: Redis, caps: Caps) {
    |r.all| <= caps.everyone && forall u :: |UserSet(r, u)| <= caps.perUser
  }

  ghost predicate AllOwned(h: History) {
    forall u, c | c in UserSet(h.redis, u) :: Owned(h, u, c)
  }

  ghost predicate AllMirrored(h: History) {
    forall c | c in h.redis.all :: Mirrored(h, c)
  }

  ghost predicate Mirrored(h: History, c: ConnId)
    requires c in h.redis.all
  {
    c in h.owner && c in UserSet(h.redis, h.owner[c]) && UserSet(h.redis, h.owner[c])[c] == h.redis.all[c]
  }

  lemma {:induction false} SubmapSize(a: ZSet, gone: set<ConnId>)
    ensures |a - gone| <= |a|
  {
    assert (a - gone).Keys <= a.Keys;
    SubsetSize((a - gone).Keys, a.Keys);
  }

  lemma {:induction false} SubsetSize(a: set<ConnId>, b: set<ConnId>)
    requires a <= b
    ensures |a| <= |b|
  {
    assert b == a + (b - a);
  }

  lemma {:induction false} LeaveEffect(r: Redis, u: UserId, c: ConnId)
    ensures Unregister(r, u, c).all == r.all - {c}
    ensures Unregister(r, u, c).alive == r.alive - {c}
    ensures forall v :: UserSet(Unregister(r, u, c), v) == if v == u then UserSet(r, u) - {c} else UserSet(r, v)
  {
    var one := ZRem(r, OfUser(u), {c});
    MembersAfterRem(r, OfUser(u), {c}, Everyone);
    MembersAfterRem(one, Everyone, {c}, Everyone);
    forall v ensures UserSet(Unregister(r, u, c), v) == if v == u then UserSet(r, u) - {c} else UserSet(r, v) {
      MembersAfterRem(r, OfUser(u), {c}, OfUser(v));
      MembersAfterRem(one, Everyone, {c}, OfUser(v));
    }
  }

  lemma {:induction false} LeaveKeepsCaps(r: Redis, u: UserId, c: ConnId, caps: Caps)
    requires WithinCaps(r, caps)
    ensures WithinCaps(Unregister(r, u, c), caps)
  {
    LeaveEffect(r, u, c);
    SubmapSize(r.all, {c});
    SubmapSize(UserSet(r, u), {c});
  }

  lemma {:induction false} LeaveKeepsOwners(h: History, u: UserId, c: ConnId, after: History)
    requires AllOwned(h) && AllMirrored(h) && Legal(h, Leave(u, c))
    requires after.owner == h.owner && after.newest == h.newest && after.redis.all == h.redis.all - {c}
    requires forall v :: UserSet(after.redis, v) == if v == u then UserSet(h.redis, u) - {c} else UserSet(h.redis, v)
    ensures AllOwned(after) && AllMirrored(after)
  {
    forall v, d | d in UserSet(after.redis, v) ensures Owned(after, v, d) {
      assert d in UserSet(h.redis, v) && Owned(h, v, d);
    }
    forall d | d in after.redis.all ensures Mirrored(after, d) {
      assert d in h.redis.all && Mirrored(h, d);
    }
  }

  lemma {:induction false} FreshIsNew(h: History, q: Request)
    requires AllOwned(h) && AllMirrored(h) && Legal(h, Connect(q))
    ensures q.conn !in UserSet(h.redis, q.user) && q.conn !in h.redis.all
    ensures forall d | d in UserSet(h.redis, q.user) :: UserSet(h.redis, q.user)[d] < q.score
  {
    forall d | d in UserSet(h.redis, q.user)
      ensures UserSet(h.redis, q.user)[d] < q.score && d != q.conn
    {
      assert Owned(h, q.user, d);
    }
    assert q.conn in h.redis.all ==> Mirrored(h, q.conn);
  }

  /** Newcomers sort last, so a full set gives up its earliest member and only a full set does. */
  lemma {:induction false} EvicteeIsEarliest(mine: ZSet, c: ConnId, score: int, cap: int)
    requires 1 <= cap && |mine| <= cap && c !in mine && forall d | d in mine :: mine[d] < score
    ensures var e := Evictee(mine[c := score], c, cap);
      && (e.Some? <==> |mine| == cap)
      && (e.Some? ==> e.value in mine && e.value != c && forall d | d in mine :: mine[e.value] <= mine[d])
      && |Without(mine[c := score], e)| <= cap
  {
    var joined := mine[c := score];
    assert joined.Keys == mine.Keys + {c};
    OldestIsNewcomer(mine, c, score);
    CapAfterJoin(mine, c, score, cap);
    if |mine| == cap {
      var d :| d in mine;
      assert !SortsFirst(mine, c, score);
      forall d | d in mine ensures mine[Oldest(joined)] <= mine[d] { assert Precedes(joined, Oldest(joined), d); }
    }
  }

  /** The evicted id is the user's earliest-connected live connection, and never the newcomer;
      someone is evicted exactly when the user already held a full set of live connections. */
  lemma {:induction false} EvictionPicksEarliest(h: History, q: Request, caps: Caps)
    requires WithinCaps(h.redis, caps) && AllOwned(h) && AllMirrored(h) && Legal(h, Connect(q)) && caps.perUser >= 1
    ensures var a := Register(h.redis, q, caps).1;
      var mine := Survivors(h.redis, OfUser(q.user), q.now);
      && (a.evicted.Some? <==> a.accepted && |mine| == caps.perUser)
      && (a.evicted.Some? ==> a.evicted.value in mine && a.evicted.value != q.conn)
      && (a.evicted.Some? ==> forall d | d in mine :: mine[a.evicted.value] <= mine[d])
  {
    RegisterEffect(h.redis, q, caps);
    FreshIsNew(h, q);
    var mine := Survivors(h.redis, OfUser(q.user), q.now);
    SubmapSize(UserSet(h.redis, q.user), Dead(h.redis, UserSet(h.redis, q.user).Keys, q.now));
    EvicteeIsEarliest(mine, q.conn, q.score, caps.perUser);
  }

  lemma {:induction false} ConnectKeepsCaps(r: Redis, q: Request, caps: Caps, after: Redis, a: Answer)
    requires WithinCaps(r, caps) && caps.perUser >= 1 && Effect(r, q, caps, after, a)
    requires q.conn !in UserSet(r, q.user) && forall d | d in UserSet(r, q.user) :: UserSet(r, q.user)[d] < q.score
    ensures WithinCaps(after, caps)
  {
    var everyone, mine := Survivors(r, Everyone, q.now), Survivors(r, OfUser(q.user), q.now);
    SubmapSize(r.all, Dead(r, r.all.Keys, q.now));
    SubmapSize(UserSet(r, q.user), Dead(r, UserSet(r, q.user).Keys, q.now));
    EvicteeIsEarliest(mine, q.conn, q.score, caps.perUser);
    AddOne(everyone, q.conn, q.score, a.evicted);
    forall u ensures |UserSet(after, u)| <= caps.perUser { }
  }

  lemma {:induction false} AddOne(z: ZSet, c: ConnId, score: int, gone: Option<ConnId>)
    ensures |Without(z[c := score], gone)| <= |z| + 1
  {
    assert z[c := score].Keys == z.Keys + {c};
    if gone.Some? {
      SubmapSize(z[c := score], {gone.value});
    }
  }

  lemma {:induction false} ConnectKeepsOwners(h: History, q: Request, caps: Caps, after: History, a: Answer)
    requires AllOwned(h) && Legal(h, Connect(q)) && Effect(h.redis, q, caps, after.redis, a)
    requires after.owner == h.owner[q.conn := q.user] && after.newest == Some(q.score)
    ensures AllOwned(after)
  {
    forall u, c | c in UserSet(after.redis, u) ensures Owned(after, u, c) {
      if c != q.conn || u != q.user {
        assert c in UserSet(h.redis, u);
        assert Owned(h, u, c);
      }
    }
  }

  lemma {:induction false} ConnectKeepsMirrors(h: History, q: Request, caps: Caps, after: History, a: Answer)
    requires AllOwned(h) && AllMirrored(h) && Legal(h, Connect(q)) && Effect(h.redis, q, caps, after.redis, a)
    requires after.owner == h.owner[q.conn := q.user]
    ensures AllMirrored(after)
  {
    FreshIsNew(h, q);
    forall c | c in after.redis.all ensures Mirrored(after, c) {
      if c != q.conn {
        assert c in h.redis.all && Mirrored(h, c);
        MirrorStays(h.redis, q, caps, after.redis, a, c, h.owner[c]);
      } else {
        assert a.accepted;
      }
    }
  }

  /** Another connection still in the global set is still in its user's, with the same score. */
  lemma {:induction false} MirrorStays(r: Redis, q: Request, caps: Caps, after: Redis, a: Answer, c: ConnId, u: UserId)
    requires Effect(r, q, caps, after, a) && c != q.conn && c in after.all
    requires c in r.all && c in UserSet(r, u) && UserSet(r, u)[c] == r.all[c]
    ensures c in UserSet(after, u) && UserSet(after, u)[c] == after.all[c] == r.all[c]
  {
    assert IsAlive(r, c, q.now);
    if u == q.user {
      assert c in Survivors(r, OfUser(u), q.now);
    }
  }

  ghost predicate Sound(h: History, caps: Caps) {
    WithinCaps(h.redis, caps) && AllOwned(h) && AllMirrored(h)
  }

  lemma {:induction false} TouchIsSound(h: History, after: History, caps: Caps)
    requires Sound(h, caps) && after.owner == h.owner && after.newest == h.newest
    requires after.redis.all == h.redis.all && after.redis.users == h.redis.users
    ensures Sound(after, caps)
  {
    forall u ensures UserSet(after.redis, u) == UserSet(h.redis, u) { }
    forall u, c | c in UserSet(after.redis, u) ensures Owned(after, u, c) {
      assert Owned(h, u, c);
    }
    forall c | c in after.redis.all ensures Mirrored(after, c) {
      assert Mirrored(h, c);
    }
  }

  lemma {:induction false} StepIsSound(h: History, e: Event, caps: Caps)
    requires caps.perUser >= 1 && Sound(h, caps) && Legal(h, e)
    ensures Sound(Advance(h, e, caps), caps)
  {
    var after := Advance(h, e, caps);
    match e
    case Connect(q) =>
      var (redis, a) := Register(h.redis, q, caps);
      RegisterEffect(h.redis, q, caps);
      FreshIsNew(h, q);
      ConnectKeepsCaps(h.redis, q, caps, redis, a);
      ConnectKeepsOwners(h, q, caps, after, a);
      ConnectKeepsMirrors(h, q, caps, after, a);
    case Touch(_, _) => TouchIsSound(h, after, caps);
    case Leave(u, c) =>
      LeaveEffect(h.redis, u, c);
      LeaveKeepsCaps(h.redis, u, c, caps);
      LeaveKeepsOwners(h, u, c, after);
  }

  /** Every legal run keeps each user within the per-user cap, everyone within the global cap, and
      every global member in its own user's set under the same connect time. */
  lemma {:induction false} RunIsSound(events: seq<Event>, caps: Caps)
    requires caps.perUser >= 1 && caps.everyone >= 0 && LegalRun(events, caps)
    ensures Sound(Run(START, events, caps), caps)
  {
    if events != [] {
      var front := events[..|events| - 1];
      forall i | 0 <= i < |front| ensures Legal(Run(START, front[..i], caps), front[i]) {
        assert front[..i] == events[..i];
      }
      RunIsSound(front, caps);
      StepIsSound(Run(START, front, caps), events[|events| - 1], caps);
    }
  }

  // ---------------------------------------------------------------- liveness

  /** Ways out of the sets: dead at a registration, own unregister, or named as evicted. */
  ghost predicate Removes(h: History, e: Event, caps: Caps, c: ConnId) {
    match e
    case Connect(q) => !IsAlive(h.redis, c, q.now) || Register(h.redis, q, caps).1.evicted == Some(c)
    case Touch(_, _) => false
    case Leave(_, d) => c == d
  }

  lemma {:induction false} LiveConnectionStays(h: History, e: Event, caps: Caps, c: ConnId, u: UserId)
    requires !Removes(h, e, caps, c)
    ensures var after := Advance(h, e, caps).redis;
      && (c in h.redis.all ==> c in after.all)
      && (c in UserSet(h.redis, u) ==> c in UserSet(after, u))
  {
    match e
    case Connect(q) => RegisterEffect(h.redis, q, caps);
    case Touch(_, _) =>
    case Leave(v, d) => LeaveEffect(h.redis, v, d);
  }

  /** A connection whose liveness key never lapses leaves the sets only through its own
      unregister or by being returned as an evicted id. */
  lemma {:induction false} LiveConnectionSurvivesRun(h: History, events: seq<Event>, caps: Caps, c: ConnId, u: UserId)
    requires forall i | 0 <= i < |events| :: !Removes(Run(h, events[..i], caps), events[i], caps, c)
    ensures var after := Run(h, events, caps).redis;
      && (c in h.redis.all ==> c in after.all)
      && (c in UserSet(h.redis, u) ==> c in UserSet(after, u))
  {
    if events != [] {
      var front := events[..|events| - 1];
      forall i | 0 <= i < |front| ensures !Removes(Run(h, front[..i], caps), front[i], caps, c) {
        assert front[..i] == events[..i];
      }
      LiveConnectionSurvivesRun(h, front, caps, c, u);
      LiveConnectionStays(Run(h, front, caps), events[|events| - 1], caps, c, u);
    }
  }

  ghost predicate Revives(e: Event, c: ConnId) {
    (e.Touch? && e.conn == c) || (e.Connect? && e.q.conn == c)
  }

  ghost predicate LapsesBy(r: Redis, c: ConnId, deadline: int) {
    c in r.alive ==> r.alive[c] <= deadline
  }

  /** A registration attempt at or past the deadline is the end of the entry in the sets it prunes. */
  ghost predicate Reaps(e: Event, deadline: int) {
    e.Connect? && e.q.now >= deadline
  }

  lemma {:induction false} DeadAtConnect(r: Redis, q: Request, caps: Caps, c: ConnId, deadline: int, u: UserId)
    requires LapsesBy(r, c, deadline) && q.conn != c
    ensures var after := Register(r, q, caps).0;
      && LapsesBy(after, c, deadline)
      && (c !in r.all || q.now >= deadline ==> c !in after.all)
      && (c !in UserSet(r, u) || (q.now >= deadline && q.user == u) ==> c !in UserSet(after, u))
  {
    var (after, a) := Register(r, q, caps);
    RegisterEffect(r, q, caps);
    assert c !in r.all || q.now >= deadline ==> c !in Survivors(r, Everyone, q.now);
    assert c !in UserSet(r, q.user) || q.now >= deadline ==> c !in Survivors(r, OfUser(q.user), q.now);
    assert u != q.user ==> UserSet(after, u) == UserSet(r, u);
  }

  lemma {:induction false} DeadConnectionStep(h: History, e: Event, caps: Caps, c: ConnId, deadline: int, u: UserId)
    requires LapsesBy(h.redis, c, deadline) && !Revives(e, c)
    ensures var after := Advance(h, e, caps).redis;
      && LapsesBy(after, c, deadline)
      && (c !in h.redis.all || Reaps(e, deadline) ==> c !in after.all)
      && (c !in UserSet(h.redis, u) || (Reaps(e, deadline) && e.q.user == u) ==> c !in UserSet(after, u))
  {
    match e
    case Connect(q) => DeadAtConnect(h.redis, q, caps, c, deadline, u);
    case Touch(_, _) =>
    case Leave(v, d) => LeaveEffect(h.redis, v, d);
  }

  /** One attempt by anyone past the deadline clears the global set for good; one by the same user
      clears that user's set, whether the attempt was accepted or refused. */
  lemma {:induction false} DeadConnectionIsReaped(
      h: History, events: seq<Event>, caps: Caps, c: ConnId, deadline: int, u: UserId, k: nat)
    requires LapsesBy(h.redis, c, deadline) && k < |events| && Reaps(events[k], deadline)
    requires forall e | e in events :: !Revives(e, c)
    ensures var after := Run(h, events, caps).redis;
      c !in after.all && (events[k].q.user == u ==> c !in UserSet(after, u))
  {
    var front, e := events[..|events| - 1], events[|events| - 1];
    StillLapses(h, front, caps, c, deadline);
    assert e in events;
    if k < |front| {
      DeadConnectionIsReaped(h, front, caps, c, deadline, u, k);
    }
    DeadConnectionStep(Run(h, front, caps), e, caps, c, deadline, u);
  }

  lemma {:induction false} StillLapses(h: History, events: seq<Event>, caps: Caps, c: ConnId, deadline: int)
    requires LapsesBy(h.redis, c, deadline) && forall e | e in events :: !Revives(e, c)
    ensures LapsesBy(Run(h, events, caps).redis, c, deadline)
  {
    if events != [] {
      assert events[|events| - 1] in events;
      StillLapses(h, events[..|events| - 1], caps, c, deadline);
      DeadConnectionStep(Run(h, events[..|events| - 1], caps), events[|events| - 1], caps, c, deadline, 0);
    }
  }

  /** The deadline a heartbeat or an accepted registration sets is one TTL away. */
  lemma {:induction false} HeartbeatSetsDeadline(h: History, e: Event, caps: Caps, c: ConnId)
    requires Revives(e, c) && (e.Connect? ==> Register(h.redis, e.q, caps).1.accepted)
    ensures LapsesBy(Advance(h, e, caps).redis, c, (if e.Touch? then e.now else e.q.now) + Ms(caps.ttl))
    ensures IsAlive(Advance(h, e, caps).redis, c, (if e.Touch? then e.now else e.q.now) + Ms(caps.ttl) - 1)
  {
    if e.Connect? {
      RegisterEffect(h.redis, e.q, caps);
    }
  }
}
