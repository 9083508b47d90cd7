/** How far concurrent registrations really take the registry past its caps. */
module WsOvershoot {
  import opened Prelude
  import opened WsRegistry
  import opened WsInterleaving

  // ---------------------------------------------------------------- runs the code itself makes

  /** Registrations and nothing else: none dies, nothing is touched or removed from outside, every connection id and
      connect time is new and later than those before, and all of it happens at one instant of the liveness clock. */
  ghost predicate Genuine(actions: seq<Action>, used: nat) {
    && (forall a | a in actions :: Registers(a, used))
    && (forall i, j | 0 <= i < j < |actions| && actions[i].Begin? && actions[j].Begin? ::
          actions[i].conn < actions[j].conn)
  }

  ghost predicate Registers(a: Action, used: nat) {
    (a.Begin? && a.conn < used && a.score == a.conn) || (a.Command? && a.now == 0)
  }

  /** Such a run, with `used` connections begun and at most `k` in flight at any moment, reaches `s`. */
  ghost predicate Reachable(s: System, caps: Caps, k: nat, used: nat) {
    exists actions :: Genuine(actions, used) && AtMost(actions, caps, k) && Reach(IDLE, actions, caps) == s
  }

  /** The same run told by its states. */
  ghost predicate Trace(run: seq<System>, actions: seq<Action>, s: System, caps: Caps, k: nat, used: nat) {
    && |run| == |actions| + 1 && run[0] == IDLE && run[|run| - 1] == s && Genuine(actions, used)
    && (forall i {:trigger actions[i]} | 0 <= i < |actions| :: run[i + 1] == Next(run[i], actions[i], caps))
    && (forall i | 0 <= i < |run| :: |run[i].flights| <= k)
  }

  ghost predicate Traced(s: System, caps: Caps, k: nat, used: nat) {
    exists run, actions :: Trace(run, actions, s, caps, k, used)
  }

  lemma {:induction false} TraceReaches(
    run: seq<System>, actions: seq<Action>, s: System, caps: Caps, k: nat, used: nat, i: nat)
    requires Trace(run, actions, s, caps, k, used) && i <= |actions|
    ensures Reach(IDLE, actions[..i], caps) == run[i]
  {
    if i > 0 {
      TraceReaches(run, actions, s, caps, k, used, i - 1);
      assert actions[..i][..i - 1] == actions[..i - 1];
      assert run[i - 1 + 1] == Next(run[i - 1], actions[i - 1], caps);
    }
  }

  lemma {:induction false} TracedIsReachable(s: System, caps: Caps, k: nat, used: nat)
    requires Traced(s, caps, k, used)
    ensures Reachable(s, caps, k, used)
  {
    var run, actions :| Trace(run, actions, s, caps, k, used);
    forall i | 0 <= i <= |actions| ensures |Reach(IDLE, actions[..i], caps).flights| <= k {
      TraceReaches(run, actions, s, caps, k, used, i);
    }
    TraceReaches(run, actions, s, caps, k, used, |actions|);
    assert actions[..|actions|] == actions;
  }

  ghost predicate Follows(a: Action, used: nat, after: nat) {
    (a.Command? && a.now == 0 && after == used) || (a.Begin? && a.conn == a.score == used && after == used + 1)
  }

  lemma {:induction false} GenuineOneMore(actions: seq<Action>, a: Action, used: nat, after: nat)
    requires Genuine(actions, used) && Follows(a, used, after)
    ensures Genuine(actions + [a], after)
  {
    var more := actions + [a];
    forall x | x in more ensures Registers(x, after) {
      if x in actions {
        assert Registers(x, used);
      }
    }
    forall i, j | 0 <= i < j < |more| && more[i].Begin? && more[j].Begin? ensures more[i].conn < more[j].conn {
      assert actions[i] in actions && Registers(actions[i], used);
    }
  }

  lemma {:induction false} TraceStep(s: System, a: Action, caps: Caps, k: nat, used: nat, after: nat)
    requires Traced(s, caps, k, used) && |Next(s, a, caps).flights| <= k && Follows(a, used, after)
    ensures Traced(Next(s, a, caps), caps, k, after)
  {
    var run, actions :| Trace(run, actions, s, caps, k, used);
    GenuineOneMore(actions, a, used, after);
    TraceGrows(run, actions, s, caps, k, used, a, after, Next(s, a, caps));
  }

  lemma {:induction false} TraceGrows(
    run: seq<System>, actions: seq<Action>, s: System, caps: Caps, k: nat, used: nat, a: Action, after: nat, t: System)
    requires Trace(run, actions, s, caps, k, used) && Genuine(actions + [a], after)
    requires t == Next(s, a, caps) && |t.flights| <= k
    ensures Trace(run + [t], actions + [a], t, caps, k, after)
  {
    var more, longer := actions + [a], run + [t];
    forall i {:trigger more[i]} | 0 <= i < |more| ensures longer[i + 1] == Next(longer[i], more[i], caps) {
      if i < |actions| {
        assert more[i] == actions[i] && run[i + 1] == Next(run[i], actions[i], caps);
        assert longer[i] == run[i] && longer[i + 1] == run[i + 1];
      } else {
        assert more[i] == a && longer[i] == s && longer[i + 1] == t;
      }
    }
    assert forall i | 0 <= i < |longer| :: longer[i] == (if i < |run| then run[i] else t);
  }

  lemma {:induction false} NothingYet(caps: Caps, k: nat)
    ensures Traced(IDLE, caps, k, 0)
  {
    assert Trace([IDLE], [], IDLE, caps, k, 0);
  }

  lemma {:induction false} BeginStep(s: System, id: nat, u: UserId, caps: Caps, k: nat, used: nat) returns (t: System)
    requires Traced(s, caps, k, used) && id !in s.flights && |s.flights.Keys| + 1 <= k
    ensures Traced(t, caps, k, used + 1) && |t.flights.Keys| <= k
    ensures t == s.(flights := s.flights[id := Flight(u, used, used, ReadAll)])
  {
    t := Next(s, Begin(id, u, used, used), caps);
    assert t.flights.Keys == s.flights.Keys + {id};
    TraceStep(s, Begin(id, u, used, used), caps, k, used, used + 1);
  }

  /** One command of one flight, and nothing else. */
  lemma {:induction false} CommandStep(
    s: System, id: nat, caps: Caps, k: nat, used: nat, redis: Redis, o: Outcome) returns (t: System)
    requires Traced(s, caps, k, used) && id in s.flights && |s.flights.Keys| <= k
    requires Execute(s.redis, s.flights[id], 0, caps) == (redis, o)
    ensures Traced(t, caps, k, used) && t == Moved(s, redis, id, o) && |t.flights.Keys| <= k
  {
    t := Next(s, Command(id, 0), caps);
    assert t == Moved(s, redis, id, o);
    assert t.flights.Keys <= s.flights.Keys;
    SubsetSize(t.flights.Keys, s.flights.Keys);
    TraceStep(s, Command(id, 0), caps, k, used, used);
  }

  /** A command that moves the flight on: the state with that flight at `pc`. */
  function Placed(s: System, redis: Redis, id: nat, u: UserId, c: ConnId, pc: Pc): System {
    System(redis, s.flights[id := Flight(u, c, c, pc)], s.answers)
  }

  lemma {:induction false} PlacedAgain(
    s: System, r: Redis, redis: Redis, id: nat, u: UserId, c: ConnId, pc: Pc, next: Pc)
    ensures Moved(Placed(s, r, id, u, c, pc), redis, id, Goto(next)) == Placed(s, redis, id, u, c, next)
  {
  }

  lemma {:induction false} PlaceStep(
    s: System, r: Redis, id: nat, u: UserId, c: ConnId, pc: Pc, caps: Caps, k: nat, used: nat, redis: Redis, next: Pc)
    requires Traced(Placed(s, r, id, u, c, pc), caps, k, used) && |Placed(s, r, id, u, c, pc).flights.Keys| <= k
    requires Execute(r, Flight(u, c, c, pc), 0, caps) == (redis, Goto(next))
    ensures Traced(Placed(s, redis, id, u, c, next), caps, k, used)
    ensures |Placed(s, redis, id, u, c, next).flights.Keys| <= k
  {
    var t := CommandStep(Placed(s, r, id, u, c, pc), id, caps, k, used, redis, Goto(next));
    PlacedAgain(s, r, redis, id, u, c, pc, next);
  }

  // ---------------------------------------------------------------- one registration

  /** Every connection recorded anywhere is alive. */
  ghost predicate Healthy(r: Redis) {
    && (forall c | c in r.all :: IsAlive(r, c, 0))
    && (forall u, c | c in UserSet(r, u) :: IsAlive(r, c, 0))
  }

  lemma {:induction false} NobodyIsDead(r: Redis, key: Key)
    requires Healthy(r)
    ensures Dead(r, Members(r, key).Keys, 0) == {} && Survivors(r, key, 0) == Members(r, key)
  {
    if key.OfUser? {
      assert forall c | c in UserSet(r, key.user) :: IsAlive(r, c, 0);
    }
    assert Members(r, key) - {} == Members(r, key);
  }

  /** A registration begins and reads its way past the global check. */
  lemma {:induction false} PassCheck(s: System, id: nat, u: UserId, caps: Caps, k: nat, used: nat)
    requires Traced(s, caps, k, used) && Healthy(s.redis) && |s.redis.all| < caps.everyone
    requires id !in s.flights && |s.flights.Keys| + 1 <= k
    ensures Traced(Placed(s, s.redis, id, u, used, JoinAll), caps, k, used + 1)
    ensures |Placed(s, s.redis, id, u, used, JoinAll).flights.Keys| <= k
  {
    var r := s.redis;
    var t := BeginStep(s, id, u, caps, k, used);
    assert t == Placed(s, r, id, u, used, ReadAll);
    PassGlobalPrune(s, id, u, used, caps, k, used + 1);
    PassOwnPrune(s, id, u, used, caps, k, used + 1);
    CheckPasses(r, Flight(u, used, used, CountAll), caps);
    PlaceStep(s, r, id, u, used, CountAll, caps, k, used + 1, r, JoinAll);
  }

  lemma {:induction false} CheckPasses(r: Redis, f: Flight, caps: Caps)
    requires f.pc == CountAll && |r.all| < caps.everyone
    ensures Execute(r, f, 0, caps) == (r, Goto(JoinAll))
  {
  }

  lemma {:induction false} JoinAdds(r: Redis, f: Flight, caps: Caps)
    requires f.pc == JoinAll
    ensures Execute(r, f, 0, caps) == (r.(all := r.all[f.conn := f.score]), Goto(JoinMine))
  {
  }

  lemma {:induction false} ReadsPastAll(r: Redis, u: UserId, c: ConnId, caps: Caps)
    requires Healthy(r)
    ensures Execute(r, Flight(u, c, c, ReadAll), 0, caps)
         == (r, Goto(if r.all == map[] then ReadMine else FlagAll(r.all.Keys)))
    ensures Execute(r, Flight(u, c, c, FlagAll(r.all.Keys)), 0, caps) == (r, Goto(ReadMine))
  {
    NobodyIsDead(r, Everyone);
  }

  lemma {:induction false} ReadsPastOwn(r: Redis, u: UserId, c: ConnId, caps: Caps)
    requires Healthy(r)
    ensures Execute(r, Flight(u, c, c, ReadMine), 0, caps)
         == (r, Goto(if UserSet(r, u) == map[] then CountAll else FlagMine(UserSet(r, u).Keys)))
    ensures Execute(r, Flight(u, c, c, FlagMine(UserSet(r, u).Keys)), 0, caps) == (r, Goto(CountAll))
  {
    NobodyIsDead(r, OfUser(u));
  }

  lemma {:induction false} PassGlobalPrune(s: System, id: nat, u: UserId, c: ConnId, caps: Caps, k: nat, used: nat)
    requires Healthy(s.redis) && Traced(Placed(s, s.redis, id, u, c, ReadAll), caps, k, used)
    requires |Placed(s, s.redis, id, u, c, ReadAll).flights.Keys| <= k
    ensures Traced(Placed(s, s.redis, id, u, c, ReadMine), caps, k, used)
    ensures |Placed(s, s.redis, id, u, c, ReadMine).flights.Keys| <= k
  {
    var r := s.redis;
    ReadsPastAll(r, u, c, caps);
    if r.all == map[] {
      PlaceStep(s, r, id, u, c, ReadAll, caps, k, used, r, ReadMine);
    } else {
      PlaceStep(s, r, id, u, c, ReadAll, caps, k, used, r, FlagAll(r.all.Keys));
      PlaceStep(s, r, id, u, c, FlagAll(r.all.Keys), caps, k, used, r, ReadMine);
    }
  }

  lemma {:induction false} PassOwnPrune(s: System, id: nat, u: UserId, c: ConnId, caps: Caps, k: nat, used: nat)
    requires Healthy(s.redis) && Traced(Placed(s, s.redis, id, u, c, ReadMine), caps, k, used)
    requires |Placed(s, s.redis, id, u, c, ReadMine).flights.Keys| <= k
    ensures Traced(Placed(s, s.redis, id, u, c, CountAll), caps, k, used)
    ensures |Placed(s, s.redis, id, u, c, CountAll).flights.Keys| <= k
  {
    var r, mine := s.redis, UserSet(s.redis, u);
    ReadsPastOwn(r, u, c, caps);
    if mine == map[] {
      PlaceStep(s, r, id, u, c, ReadMine, caps, k, used, r, CountAll);
    } else {
      PlaceStep(s, r, id, u, c, ReadMine, caps, k, used, r, FlagMine(mine.Keys));
      PlaceStep(s, r, id, u, c, FlagMine(mine.Keys), caps, k, used, r, CountAll);
    }
  }

  /** `n` commands of flight `id` lead from `s` to `end`. */
  ghost predicate LeadsAlone(s: System, id: nat, caps: Caps, n: nat, end: System)
    decreases n
  {
    if n == 0 then s == end else LeadsAlone(Next(s, Command(id, 0), caps), id, caps, n - 1, end)
  }

  lemma {:induction false} AloneLeads(s: System, id: nat, caps: Caps, n: nat)
    ensures LeadsAlone(s, id, caps, n, Alone(s, id, 0, caps, n))
    decreases n
  {
    if n > 0 {
      AloneLeads(Next(s, Command(id, 0), caps), id, caps, n - 1);
    }
  }

  lemma {:induction false} AloneIsTraced(
    s: System, id: nat, caps: Caps, k: nat, used: nat, n: nat, end: System)
    requires Traced(s, caps, k, used) && s.flights.Keys <= {id} && k >= 1 && LeadsAlone(s, id, caps, n, end)
    ensures Traced(end, caps, k, used)
    decreases n
  {
    if n > 0 {
      var t := OneAloneStep(s, id, caps, k, used, n, end);
      AloneIsTraced(t, id, caps, k, used, n - 1, end);
    }
  }

  lemma {:induction false} OneAloneStep(
    s: System, id: nat, caps: Caps, k: nat, used: nat, n: nat, end: System) returns (t: System)
    requires Traced(s, caps, k, used) && s.flights.Keys <= {id} && k >= 1 && n > 0 && LeadsAlone(s, id, caps, n, end)
    ensures Traced(t, caps, k, used) && t.flights.Keys <= {id} && LeadsAlone(t, id, caps, n - 1, end)
  {
    t := Next(s, Command(id, 0), caps);
    OnlyOneFlies(s, id, caps);
    TraceStep(s, Command(id, 0), caps, k, used, used);
  }

  lemma {:induction false} OnlyOneFlies(s: System, id: nat, caps: Caps)
    requires s.flights.Keys <= {id}
    ensures var t := Next(s, Command(id, 0), caps); t.flights.Keys <= {id} && |t.flights| <= 1
  {
    var t := Next(s, Command(id, 0), caps);
    if id in s.flights {
      var (redis, o) := Execute(s.redis, s.flights[id], 0, caps);
      assert t == Moved(s, redis, id, o);
    }
    assert t.flights.Keys <= {id};
    SubsetSize(t.flights.Keys, {id});
  }

  /** With nothing else in flight a registration can run to completion. */
  lemma {:induction false} RegisterAlone(s: System, u: UserId, caps: Caps, k: nat, used: nat) returns (t: System)
    requires Traced(s, caps, k, used) && s.flights == map[] && k >= 1
    ensures Traced(t, caps, k, used + 1) && t.flights == map[]
    ensures t.redis == Register(s.redis, Request(u, used, used, 0), caps).0
  {
    var q := Request(u, used, used, 0);
    var (end, a) := Register(s.redis, q, caps);
    var begun := BeginStep(s, 0, u, caps, k, used);
    assert begun == At(s.redis, q, 0, ReadAll, s.answers);
    AloneRefinesRegister(s.redis, q, 0, caps);
    assert EndsAfter(s.redis, q, 0, caps, ReadAll, end, a, s.answers);
    var n: nat :| Alone(begun, 0, 0, caps, n) == System(end, map[], s.answers + [a]);
    t := System(end, map[], s.answers + [a]);
    AloneLeads(begun, 0, caps, n);
    AloneIsTraced(begun, 0, caps, k, used + 1, n, t);
  }

  /** What a completed registration adds when it has nobody to evict. */
  lemma {:induction false} JoinsWithoutEviction(r: Redis, u: UserId, c: ConnId, caps: Caps)
    requires Healthy(r) && |r.all| < caps.everyone && caps.ttl >= 1 && c !in UserSet(r, u)
    requires |UserSet(r, u)| == 0 || |UserSet(r, u)| < caps.perUser
    ensures var after := Register(r, Request(u, c, c, 0), caps).0;
      && after.all == r.all[c := c] && UserSet(after, u) == UserSet(r, u)[c := c] && Healthy(after)
      && forall v | v != u :: UserSet(after, v) == UserSet(r, v)
  {
    var q := Request(u, c, c, 0);
    var after := Register(r, q, caps).0;
    NobodyIsDead(r, Everyone);
    NobodyIsDead(r, OfUser(u));
    NobodyToEvict(UserSet(r, u), c, caps.perUser);
    assert Joined(r, q) == UserSet(r, u)[c := c];
    forall v ensures UserSet(after, v) == if v == u then UserSet(r, u)[c := c] else UserSet(r, v) {
      AdmissionEffect(r, q, caps, v);
    }
    AdmissionEffect(r, q, caps, u);
    StillHealthy(r, after, c, caps);
  }

  lemma {:induction false} NobodyToEvict(mine: ZSet, c: ConnId, cap: int)
    requires c !in mine && (|mine| == 0 || |mine| < cap)
    ensures Evictee(mine[c := c], c, cap) == None
  {
    var joined := mine[c := c];
    assert joined.Keys == mine.Keys + {c};
    if |mine| == 0 {
      assert mine.Keys == {};
      assert Oldest(joined) in joined;
    }
  }

  lemma {:induction false} StillHealthy(r: Redis, after: Redis, c: ConnId, caps: Caps)
    requires Healthy(r) && caps.ttl >= 1 && after.alive == r.alive[c := Ms(caps.ttl)]
    requires after.all.Keys <= r.all.Keys + {c}
    requires forall v :: UserSet(after, v).Keys <= UserSet(r, v).Keys + {c}
    ensures Healthy(after)
  {
    forall d | d in after.all ensures IsAlive(after, d, 0) {
      assert d == c || d in r.all;
    }
    forall v, d | d in UserSet(after, v) ensures IsAlive(after, d, 0) {
      assert d in UserSet(r, v).Keys + {c};
      if d != c {
        assert d in UserSet(r, v) && IsAlive(r, d, 0);
      }
    }
  }

  // ---------------------------------------------------------------- the global cap

  /** Users 0 .. n-1 hold one live connection each and nothing is in flight. */
  ghost predicate Filled(s: System, n: nat) {
    && s.flights == map[] && Healthy(s.redis)
    && |s.redis.all.Keys| == n && (forall c | c in s.redis.all :: c < n)
    && (forall u | u >= n :: |UserSet(s.redis, u)| == 0)
  }

  /** Completed registrations of distinct users bring the registry to any number of members within the cap. */
  lemma {:induction false} Fill(n: nat, caps: Caps, k: nat) returns (s: System)
    requires k >= 1 && caps.ttl >= 1 && n <= caps.everyone
    ensures Traced(s, caps, k, n) && Filled(s, n)
  {
    if n == 0 {
      s := IDLE;
      NothingYet(caps, k);
    } else {
      var fewer := Fill(n - 1, caps, k);
      s := FillOne(fewer, n - 1, caps, k);
    }
  }

  lemma {:induction false} FillOne(s: System, n: nat, caps: Caps, k: nat) returns (t: System)
    requires k >= 1 && caps.ttl >= 1 && n < caps.everyone && Traced(s, caps, k, n) && Filled(s, n)
    ensures Traced(t, caps, k, n + 1) && Filled(t, n + 1)
  {
    t := RegisterAlone(s, n, caps, k, n);
    OneMoreFilled(s, n, caps, t);
  }

  lemma {:induction false} OneMoreFilled(s: System, n: nat, caps: Caps, t: System)
    requires Filled(s, n) && n < caps.everyone && caps.ttl >= 1 && t.flights == map[]
    requires t.redis == Register(s.redis, Request(n, n, n, 0), caps).0
    ensures Filled(t, n + 1)
  {
    assert |UserSet(s.redis, n)| == 0;
    assert n !in UserSet(s.redis, n) by {
      assert UserSet(s.redis, n).Keys == {};
    }
    JoinsWithoutEviction(s.redis, n, n, caps);
    assert t.redis.all.Keys == s.redis.all.Keys + {n};
  }

  /** Flights n .. n+m-1 stand between the check and the join. */
  ghost predicate Parked(flights: map<nat, Flight>, n: nat, m: nat) {
    && (forall id | id in flights :: id < n + m && flights[id].pc == JoinAll && flights[id].conn == id)
    && (forall id | n <= id < n + m :: id in flights)
  }

  /** Any number of registrations can stand there together. */
  lemma {:induction false} ParkMany(s: System, n: nat, m: nat, caps: Caps, k: nat) returns (t: System)
    requires Traced(s, caps, k, n) && s.flights == map[] && Healthy(s.redis) && |s.redis.all| < caps.everyone && m <= k
    ensures Traced(t, caps, k, n + m) && t.redis == s.redis && Parked(t.flights, n, m) && |t.flights.Keys| == m
    decreases m
  {
    if m == 0 {
      t := s;
    } else {
      var fewer := ParkMany(s, n, m - 1, caps, k);
      OneMoreParked(fewer.flights, n, m);
      t := ParkOne(fewer, n + m - 1, caps, k);
    }
  }

  lemma {:induction false} ParkOne(s: System, id: nat, caps: Caps, k: nat) returns (t: System)
    requires Traced(s, caps, k, id) && Healthy(s.redis) && |s.redis.all| < caps.everyone
    requires id !in s.flights && |s.flights.Keys| + 1 <= k
    ensures Traced(t, caps, k, id + 1) && t == Placed(s, s.redis, id, id, id, JoinAll)
    ensures |t.flights.Keys| == |s.flights.Keys| + 1
  {
    PassCheck(s, id, id, caps, k, id);
    t := Placed(s, s.redis, id, id, id, JoinAll);
    assert t.flights.Keys == s.flights.Keys + {id};
  }

  lemma {:induction false} OneMoreParked(flights: map<nat, Flight>, n: nat, m: nat)
    requires m >= 1 && Parked(flights, n, m - 1)
    ensures var id := n + m - 1; id !in flights && Parked(flights[id := Flight(id, id, id, JoinAll)], n, m)
  {
    var last := n + m - 1;
    assert last in flights ==> last < n + (m - 1);
    var more := flights[last := Flight(last, last, last, JoinAll)];
    forall id | id in more ensures id < n + m && more[id].pc == JoinAll && more[id].conn == id {
      if id != last {
        assert id in flights && more[id] == flights[id];
      }
    }
    forall id | n <= id < n + m ensures id in more {
      if id != last {
        assert id in flights;
      }
    }
  }

  /** Each of them then joins, whatever the others have added meanwhile. */
  lemma {:induction false} JoinMany(s: System, n: nat, m: nat, caps: Caps, k: nat, used: nat) returns (t: System)
    requires Traced(s, caps, k, used) && |s.flights.Keys| <= k
    requires forall id | n <= id < n + m ::
      id !in s.redis.all && id in s.flights && s.flights[id].pc == JoinAll && s.flights[id].conn == id
    ensures Traced(t, caps, k, used) && |t.redis.all.Keys| == |s.redis.all.Keys| + m
    decreases m
  {
    if m == 0 {
      t := s;
    } else {
      var redis := s.redis.(all := s.redis.all[n := s.flights[n].score]);
      JoinAdds(s.redis, s.flights[n], caps);
      var one := CommandStep(s, n, caps, k, used, redis, Goto(JoinMine));
      assert one.redis.all.Keys == s.redis.all.Keys + {n};
      t := JoinMany(one, n + 1, m - 1, caps, k, used);
    }
  }

  /** The bound is tight: with at most k registrations in flight some run of registrations alone reaches the global
      cap plus k - 1. */
  lemma {:induction false} GlobalBoundIsMet(caps: Caps, k: nat) returns (s: System)
    requires k >= 1 && caps.everyone >= 1 && caps.ttl >= 1
    ensures Reachable(s, caps, k, caps.everyone + k - 1) && |s.redis.all| == caps.everyone + k - 1
  {
    var n := caps.everyone - 1;
    var filled := Fill(n, caps, k);
    var parked := ParkMany(filled, n, k, caps, k);
    s := JoinMany(parked, n, k, caps, k, n + k);
    assert |s.redis.all.Keys| == n + k;
    TracedIsReachable(s, caps, k, n + k);
  }

  // ---------------------------------------------------------------- the per-user cap

  /** User 0 holds `j` live connections, nobody else holds any, and nothing is in flight. */
  ghost predicate Crowd(s: System, j: nat, used: nat) {
    var mine := UserSet(s.redis, 0);
    && s.flights == map[] && Healthy(s.redis) && s.redis.all.Keys == mine.Keys && |mine| == j
    && forall c | c in mine :: mine[c] < used && c < used
  }

  /** Two registrations of user 0 in flight together. */
  function Pair(r: Redis, a: ConnId, b: ConnId, pa: Pc, pb: Pc, log: seq<Answer>): System {
    System(r, map[0 := Flight(0, a, a, pa), 1 := Flight(0, b, b, pb)], log)
  }

  lemma {:induction false} FirstMoves(
    r: Redis, a: ConnId, b: ConnId, pa: Pc, pb: Pc, log: seq<Answer>, caps: Caps, used: nat, redis: Redis, next: Pc)
    requires Traced(Pair(r, a, b, pa, pb, log), caps, 2, used)
    requires Execute(r, Flight(0, a, a, pa), 0, caps) == (redis, Goto(next))
    ensures Traced(Pair(redis, a, b, next, pb, log), caps, 2, used)
  {
    var s := Pair(r, a, b, pa, pb, log);
    assert s.flights.Keys == {0, 1};
    var t := CommandStep(s, 0, caps, 2, used, redis, Goto(next));
    assert t == Pair(redis, a, b, next, pb, log);
  }

  lemma {:induction false} SecondMoves(
    r: Redis, a: ConnId, b: ConnId, pa: Pc, pb: Pc, log: seq<Answer>, caps: Caps, used: nat, redis: Redis, next: Pc)
    requires Traced(Pair(r, a, b, pa, pb, log), caps, 2, used)
    requires Execute(r, Flight(0, b, b, pb), 0, caps) == (redis, Goto(next))
    ensures Traced(Pair(redis, a, b, pa, next, log), caps, 2, used)
  {
    var s := Pair(r, a, b, pa, pb, log);
    assert s.flights.Keys == {0, 1};
    var t := CommandStep(s, 1, caps, 2, used, redis, Goto(next));
    assert t == Pair(redis, a, b, pa, next, log);
  }

  /** Both finish, the first one first. */
  lemma {:induction false} BothFinish(
    r: Redis, a: ConnId, b: ConnId, c: ConnId, log: seq<Answer>, caps: Caps, used: nat) returns (t: System)
    requires Traced(Pair(r, a, b, DropFromAll(c), DropFromAll(c), log), caps, 2, used)
    ensures Traced(t, caps, 2, used) && t.flights == map[] && t.redis == ZRem(ZRem(r, Everyone, {c}), Everyone, {c})
  {
    var s := Pair(r, a, b, DropFromAll(c), DropFromAll(c), log);
    var one, done := ZRem(r, Everyone, {c}), Done(Answer(true, Some(c)));
    assert s.flights.Keys == {0, 1};
    var u := CommandStep(s, 0, caps, 2, used, one, done);
    assert u.flights == map[1 := Flight(0, b, b, DropFromAll(c))];
    t := CommandStep(u, 1, caps, 2, used, ZRem(one, Everyone, {c}), done);
    assert t.flights == map[];
  }

  /** Both pass the global check. */
  lemma {:induction false} BothPass(s: System, caps: Caps, used: nat)
    requires Traced(s, caps, 2, used) && s.flights == map[] && Healthy(s.redis) && |s.redis.all| < caps.everyone
    ensures Traced(Pair(s.redis, used, used + 1, JoinAll, JoinAll, s.answers), caps, 2, used + 2)
  {
    PassCheck(s, 0, 0, caps, 2, used);
    var one := Placed(s, s.redis, 0, 0, used, JoinAll);
    assert one.flights == map[0 := Flight(0, used, used, JoinAll)];
    assert one.flights.Keys == {0};
    PassCheck(one, 1, 0, caps, 2, used + 1);
    assert Placed(one, s.redis, 1, 0, used + 1, JoinAll)
        == Pair(s.redis, used, used + 1, JoinAll, JoinAll, s.answers);
  }

  function Entered(r: Redis, c: ConnId, caps: Caps): Redis {
    Admitted(r, Request(0, c, c, 0), caps.ttl)
  }

  /** Both join, one after the other. */
  lemma {:induction false} BothJoin(r: Redis, a: ConnId, b: ConnId, log: seq<Answer>, caps: Caps, used: nat)
    requires Traced(Pair(r, a, b, JoinAll, JoinAll, log), caps, 2, used)
    ensures Traced(Pair(Entered(Entered(r, a, caps), b, caps), a, b, CountMine, CountMine, log), caps, 2, used)
  {
    var r1 := ZAdd(r, Everyone, a, a);
    var r2 := ZAdd(r1, OfUser(0), a, a);
    var r3 := Entered(r, a, caps);
    FirstMoves(r, a, b, JoinAll, JoinAll, log, caps, used, r1, JoinMine);
    FirstMoves(r1, a, b, JoinMine, JoinAll, log, caps, used, r2, MarkAlive);
    FirstMoves(r2, a, b, MarkAlive, JoinAll, log, caps, used, r3, CountMine);
    var r4 := ZAdd(r3, Everyone, b, b);
    var r5 := ZAdd(r4, OfUser(0), b, b);
    SecondMoves(r3, a, b, CountMine, JoinAll, log, caps, used, r4, JoinMine);
    SecondMoves(r4, a, b, CountMine, JoinMine, log, caps, used, r5, MarkAlive);
    SecondMoves(r5, a, b, CountMine, MarkAlive, log, caps, used, Entered(r3, b, caps), CountMine);
  }

  /** Both find the set over its cap and both read the same oldest connection. */
  lemma {:induction false} BothRead(
    r: Redis, a: ConnId, b: ConnId, c: ConnId, log: seq<Answer>, caps: Caps, used: nat)
    requires Traced(Pair(r, a, b, CountMine, CountMine, log), caps, 2, used)
    requires |UserSet(r, 0)| > caps.perUser && |UserSet(r, 0)| > 0 && c == Oldest(UserSet(r, 0)) && c != a && c != b
    ensures Traced(Pair(r, a, b, DropMyOldest(c), DropMyOldest(c), log), caps, 2, used)
  {
    FirstMoves(r, a, b, CountMine, CountMine, log, caps, used, r, ReadOldest);
    SecondMoves(r, a, b, ReadOldest, CountMine, log, caps, used, r, ReadOldest);
    FirstMoves(r, a, b, ReadOldest, ReadOldest, log, caps, used, r, DropMyOldest(c));
    SecondMoves(r, a, b, DropMyOldest(c), ReadOldest, log, caps, used, r, DropMyOldest(c));
  }

  /** Both remove it, and one of them for nothing. */
  lemma {:induction false} BothDrop(r: Redis, a: ConnId, b: ConnId, c: ConnId, log: seq<Answer>, caps: Caps, used: nat)
    returns (t: System)
    requires Traced(Pair(r, a, b, DropMyOldest(c), DropMyOldest(c), log), caps, 2, used)
    ensures Traced(t, caps, 2, used) && t.flights == map[]
    ensures t.redis.all == r.all - {c} && UserSet(t.redis, 0) == UserSet(r, 0) - {c} && t.redis.alive == r.alive
    ensures forall u | u != 0 :: UserSet(t.redis, u) == UserSet(r, u)
  {
    var r1 := ZRem(r, OfUser(0), {c});
    var r2 := ZRem(r1, OfUser(0), {c});
    FirstMoves(r, a, b, DropMyOldest(c), DropMyOldest(c), log, caps, used, r1, DropFromAll(c));
    SecondMoves(r1, a, b, DropFromAll(c), DropMyOldest(c), log, caps, used, r2, DropFromAll(c));
    t := BothFinish(r2, a, b, c, log, caps, used);
    SecondDropIsVain(r, c);
  }

  lemma {:induction false} SecondDropIsVain(r: Redis, c: ConnId)
    ensures var r1 := ZRem(r, OfUser(0), {c});
      var r2 := ZRem(r1, OfUser(0), {c});
      var end := ZRem(ZRem(r2, Everyone, {c}), Everyone, {c});
      && end.all == r.all - {c} && UserSet(end, 0) == UserSet(r, 0) - {c} && end.alive == r.alive
      && forall u | u != 0 :: UserSet(end, u) == UserSet(r, u)
  {
    var r1 := ZRem(r, OfUser(0), {c});
    MembersAfterRem(r, OfUser(0), {c}, OfUser(0));
    assert ZRem(r1, OfUser(0), {c}) == r1;
    var r3 := ZRem(r1, Everyone, {c});
    MembersAfterRem(r1, Everyone, {c}, Everyone);
    assert ZRem(r3, Everyone, {c}) == r3;
  }

  /** The two newcomers sort last, so the oldest is someone who was there before. */
  lemma {:induction false} OldestIsNeither(mine: ZSet, a: ConnId, b: ConnId)
    requires |mine| > 0 && a < b && forall c | c in mine :: c < a && mine[c] < a
    ensures var joined := mine[a := a][b := b];
      |joined| == |mine| + 2 && Oldest(joined) in mine && Oldest(joined) != a && Oldest(joined) != b
  {
    var joined := mine[a := a][b := b];
    assert joined.Keys == mine.Keys + {a, b};
    var d :| d in mine;
    assert Precedes(joined, Oldest(joined), d);
  }

  lemma {:induction false} BothEntered(r: Redis, a: ConnId, b: ConnId, caps: Caps)
    requires Healthy(r) && caps.ttl >= 1
    ensures var after := Entered(Entered(r, a, caps), b, caps);
      && after.all == r.all[a := a][b := b] && UserSet(after, 0) == UserSet(r, 0)[a := a][b := b] && Healthy(after)
  {
    var one, q, p := Entered(r, a, caps), Request(0, a, a, 0), Request(0, b, b, 0);
    forall v ensures UserSet(one, v).Keys <= UserSet(r, v).Keys + {a} { MembersAfterAdmission(r, q, caps.ttl, v); }
    StillHealthy(r, one, a, caps);
    var two := Entered(one, b, caps);
    forall v ensures UserSet(two, v).Keys <= UserSet(one, v).Keys + {b} { MembersAfterAdmission(one, p, caps.ttl, v); }
    StillHealthy(one, two, b, caps);
  }

  /** Two registrations at once leave a user who was at or over the cap one further over. */
  lemma {:induction false} PairGrowsTheCrowd(s: System, j: nat, caps: Caps, used: nat) returns (t: System)
    requires Traced(s, caps, 2, used) && Crowd(s, j, used) && caps.ttl >= 1
    requires 1 <= j < caps.everyone && caps.perUser <= j
    ensures Traced(t, caps, 2, used + 2) && Crowd(t, j + 1, used + 2)
  {
    var r, a, b := s.redis, used, used + 1;
    assert |r.all.Keys| == j;
    BothPass(s, caps, used);
    BothJoin(r, a, b, s.answers, caps, used + 2);
    var full := Entered(Entered(r, a, caps), b, caps);
    BothEntered(r, a, b, caps);
    OldestIsNeither(UserSet(r, 0), a, b);
    var c := Oldest(UserSet(full, 0));
    BothRead(full, a, b, c, s.answers, caps, used + 2);
    t := BothDrop(full, a, b, c, s.answers, caps, used + 2);
    CrowdAfterPair(s, j, used, full, c, t);
  }

  lemma {:induction false} CrowdAfterPair(s: System, j: nat, used: nat, full: Redis, c: ConnId, t: System)
    requires Crowd(s, j, used) && Healthy(full) && c in UserSet(s.redis, 0)
    requires full.all == s.redis.all[used := used][used + 1 := used + 1]
    requires UserSet(full, 0) == UserSet(s.redis, 0)[used := used][used + 1 := used + 1]
    requires t.flights == map[] && t.redis.all == full.all - {c} && t.redis.alive == full.alive
    requires UserSet(t.redis, 0) == UserSet(full, 0) - {c}
    requires forall u | u != 0 :: UserSet(t.redis, u) == UserSet(full, u)
    ensures Crowd(t, j + 1, used + 2)
  {
    var mine := UserSet(s.redis, 0);
    MineAfterPair(mine, s.redis.all, used, c);
    forall u ensures UserSet(t.redis, u).Keys <= UserSet(full, u).Keys {
      if u == 0 {
        assert (UserSet(full, 0) - {c}).Keys <= UserSet(full, 0).Keys;
      }
    }
    HealthyLess(full, t.redis);
  }

  lemma {:induction false} MineAfterPair(mine: ZSet, all: ZSet, used: nat, c: ConnId)
    requires c in mine && all.Keys == mine.Keys && forall d | d in mine :: mine[d] < used && d < used
    ensures var after := mine[used := used][used + 1 := used + 1] - {c};
      && |after| == |mine| + 1 && (all[used := used][used + 1 := used + 1] - {c}).Keys == after.Keys
      && forall d | d in after :: after[d] < used + 2 && d < used + 2
  {
    var after := mine[used := used][used + 1 := used + 1] - {c};
    assert after.Keys == mine.Keys + {used, used + 1} - {c};
    TwoInOneOut(mine.Keys, used, c);
  }

  lemma {:induction false} TwoInOneOut(mine: set<ConnId>, a: ConnId, c: ConnId)
    requires c in mine && forall d | d in mine :: d < a
    ensures |mine + {a, a + 1} - {c}| == |mine| + 1
  {
    assert mine + {a, a + 1} - {c} == (mine - {c}) + {a, a + 1};
  }

  lemma {:induction false} HealthyLess(r: Redis, t: Redis)
    requires Healthy(r) && t.alive == r.alive && t.all.Keys <= r.all.Keys
    requires forall u :: UserSet(t, u).Keys <= UserSet(r, u).Keys
    ensures Healthy(t)
  {
    forall u, d | d in UserSet(t, u) ensures IsAlive(t, d, 0) {
      assert d in UserSet(r, u).Keys;
      assert d in UserSet(r, u) && IsAlive(r, d, 0);
    }
    forall d | d in t.all ensures IsAlive(t, d, 0) {
      assert d in r.all;
    }
  }

  lemma {:induction false} OneGrowsTheCrowd(s: System, j: nat, caps: Caps, used: nat) returns (t: System)
    requires Traced(s, caps, 2, used) && Crowd(s, j, used) && caps.ttl >= 1
    requires j < caps.everyone && (j == 0 || j < caps.perUser)
    ensures Traced(t, caps, 2, used + 1) && Crowd(t, j + 1, used + 1)
  {
    assert |s.redis.all.Keys| == j;
    t := RegisterAlone(s, 0, caps, 2, used);
    CrowdAfterOne(s, j, caps, used, t);
  }

  lemma {:induction false} CrowdAfterOne(s: System, j: nat, caps: Caps, used: nat, t: System)
    requires Crowd(s, j, used) && |s.redis.all| < caps.everyone && caps.ttl >= 1 && (j == 0 || j < caps.perUser)
    requires t.flights == map[] && t.redis == Register(s.redis, Request(0, used, used, 0), caps).0
    ensures Crowd(t, j + 1, used + 1)
  {
    JoinsWithoutEviction(s.redis, 0, used, caps);
    assert UserSet(t.redis, 0).Keys == UserSet(s.redis, 0).Keys + {used};
  }

  lemma {:induction false} GatherCrowd(m: nat, caps: Caps) returns (s: System, used: nat)
    requires caps.ttl >= 1 && m <= caps.everyone
    ensures Traced(s, caps, 2, used) && Crowd(s, m, used)
  {
    if m == 0 {
      s, used := IDLE, 0;
      NothingYet(caps, 2);
    } else {
      var fewer, before := GatherCrowd(m - 1, caps);
      if m == 1 || m - 1 < caps.perUser {
        s := OneGrowsTheCrowd(fewer, m - 1, caps, before);
        used := before + 1;
      } else {
        s := PairGrowsTheCrowd(fewer, m - 1, caps, before);
        used := before + 2;
      }
    }
  }

  /** The per-user cap is not exceeded by one but without limit: whatever it is set to, two registrations at a time
      bring one user to any number of live connections the global cap admits, with nothing left in flight. */
  lemma {:induction false} UserCapIsLost(m: nat, caps: Caps) returns (s: System, used: nat)
    requires caps.ttl >= 1 && m <= caps.everyone
    ensures Reachable(s, caps, 2, used) && s.flights == map[]
    ensures |UserSet(s.redis, 0)| == m && forall c | c in UserSet(s.redis, 0) :: IsAlive(s.redis, c, 0)
  {
    s, used := GatherCrowd(m, caps);
    TracedIsReachable(s, caps, 2, used);
  }
}
