/** The same registry with every Redis command a separate step and many registrations in flight. */
module WsInterleaving {
  import opened Prelude
  import opened WsRegistry

  /** The next command a registration will issue, with what it has read so far. */
  datatype Pc =
    | ReadAll | FlagAll(members: set<ConnId>) | DropAll(dead: set<ConnId>)
    | ReadMine | FlagMine(members: set<ConnId>) | DropMine(dead: set<ConnId>)
    | CountAll
    | JoinAll | JoinMine | MarkAlive
    | CountMine | ReadOldest | DropMyOldest(oldest: ConnId) | DropFromAll(oldest: ConnId)

  datatype Flight = Flight(user: UserId, conn: ConnId, score: int, pc: Pc)

  /** Where a command leaves its registration: at another command, or finished with an answer. */
  datatype Outcome = Goto(pc: Pc) | Done(answer: Answer)

  /** Redis, the registrations in flight, and the answers given so far. */
  datatype System = System(redis: Redis, flights: map<nat, Flight>, answers: seq<Answer>)

  const IDLE := System(EMPTY, map[], [])

  /** Anything that can happen next. The three Remove actions cover every command an unregister
      issues, for any connection at any moment; Abort is a registration that dies or meets a
      Redis error between two commands. */
  datatype Action =
    | Begin(id: nat, user: UserId, conn: ConnId, score: int)
    | Command(id: nat, now: int)
    | Abort(id: nat)
    | Heartbeat(conn: ConnId, now: int)
    | RemoveMine(user: UserId, conn: ConnId)
    | RemoveAll(conn: ConnId)
    | RemoveAlive(conn: ConnId)

  const ADMITTED := Done(Answer(true, None))

  /** One command of `register_connection`. */
  ghost function Execute(r: Redis, f: Flight, now: int, caps: Caps): (Redis, Outcome) {
    match f.pc
    case ReadAll => (r, Goto(if r.all == map[] then ReadMine else FlagAll(r.all.Keys)))
    case FlagAll(members) =>
      (r, Goto(if Dead(r, members, now) == {} then ReadMine else DropAll(Dead(r, members, now))))
    case DropAll(dead) => (ZRem(r, Everyone, dead), Goto(ReadMine))
    case ReadMine =>
      (r, Goto(if UserSet(r, f.user) == map[] then CountAll else FlagMine(UserSet(r, f.user).Keys)))
    case FlagMine(members) =>
      (r, Goto(if Dead(r, members, now) == {} then CountAll else DropMine(Dead(r, members, now))))
    case DropMine(dead) => (ZRem(r, OfUser(f.user), dead), Goto(CountAll))
    case CountAll => (r, if |r.all| >= caps.everyone then Done(Answer(false, None)) else Goto(JoinAll))
    case JoinAll => (ZAdd(r, Everyone, f.conn, f.score), Goto(JoinMine))
    case JoinMine => (ZAdd(r, OfUser(f.user), f.conn, f.score), Goto(MarkAlive))
    case MarkAlive => (SetAlive(r, f.conn, now, caps.ttl), Goto(CountMine))
    case CountMine => (r, if |UserSet(r, f.user)| > caps.perUser then Goto(ReadOldest) else ADMITTED)
    case ReadOldest =>
      (r, if |UserSet(r, f.user)| == 0 || Oldest(UserSet(r, f.user)) == f.conn then ADMITTED
          else Goto(DropMyOldest(Oldest(UserSet(r, f.user)))))
    case DropMyOldest(c) => (ZRem(r, OfUser(f.user), {c}), Goto(DropFromAll(c)))
    case DropFromAll(c) => (ZRem(r, Everyone, {c}), Done(Answer(true, Some(c))))
  }

  function Moved(s: System, redis: Redis, id: nat, o: Outcome): System
    requires id in s.flights
  {
    match o
    case Goto(pc) => System(redis, s.flights[id := s.flights[id].(pc := pc)], s.answers)
    case Done(answer) => System(redis, s.flights - {id}, s.answers + [answer])
  }

  ghost function Next(s: System, a: Action, caps: Caps): System {
    match a
    case Begin(id, u, c, score) =>
      if id in s.flights then s else s.(flights := s.flights[id := Flight(u, c, score, ReadAll)])
    case Command(id, now) =>
      if id !in s.flights then s
      else
        var (redis, o) := Execute(s.redis, s.flights[id], now, caps);
        Moved(s, redis, id, o)
    case Abort(id) => s.(flights := s.flights - {id})
    case Heartbeat(c, now) => s.(redis := SetAlive(s.redis, c, now, caps.ttl))
    case RemoveMine(u, c) => s.(redis := ZRem(s.redis, OfUser(u), {c}))
    case RemoveAll(c) => s.(redis := ZRem(s.redis, Everyone, {c}))
    case RemoveAlive(c) => s.(redis := s.redis.(alive := s.redis.alive - {c}))
  }

  ghost function Reach(s: System, actions: seq<Action>, caps: Caps): System {
    if actions == [] then s else Next(Reach(s, actions[..|actions| - 1], caps), actions[|actions| - 1], caps)
  }

  /** At no moment of the run are more than `k` registrations in flight. */
  ghost predicate AtMost(actions: seq<Action>, caps: Caps, k: nat) {
    forall i | 0 <= i <= |actions| :: |Reach(IDLE, actions[..i], caps).flights| <= k
  }

  // ---------------------------------------------------------------- the global bound

  /** Registrations that passed the global check and have not joined yet. */
  ghost function Waiting(s: System): set<nat> {
    set id | id in s.flights && s.flights[id].pc.JoinAll?
  }

  ghost predicate Bounded(s: System, caps: Caps, k: nat) {
    |s.redis.all| + |Waiting(s)| <= Max(0, caps.everyone + k - 1)
  }

  lemma {:induction false} NoLarger(s: System, t: System)
    requires t.redis.all.Keys <= s.redis.all.Keys && Waiting(t) <= Waiting(s)
    ensures |t.redis.all| + |Waiting(t)| <= |s.redis.all| + |Waiting(s)|
  {
    SubsetSize(t.redis.all.Keys, s.redis.all.Keys);
    SubsetSize(Waiting(t), Waiting(s));
  }

  /** Only the check lets a registration wait to join, only the join adds a member, and the check
      lets it through only below the cap. */
  lemma {:induction false} OneCommandAtATime(r: Redis, f: Flight, now: int, caps: Caps)
    ensures var (redis, next) := Execute(r, f, now, caps);
      && (next == Goto(JoinAll) ==> redis == r && |r.all| < caps.everyone)
      && redis.all.Keys <= r.all.Keys + (if f.pc.JoinAll? then {f.conn} else {})
  {
    match f.pc
    case DropAll(dead) => RemovalOnlyShrinks(r, Everyone, dead);
    case DropMine(dead) => RemovalOnlyShrinks(r, OfUser(f.user), dead);
    case DropMyOldest(c) => RemovalOnlyShrinks(r, OfUser(f.user), {c});
    case DropFromAll(c) => RemovalOnlyShrinks(r, Everyone, {c});
    case _ =>
  }

  lemma {:induction false} RemovalOnlyShrinks(r: Redis, key: Key, gone: set<ConnId>)
    ensures ZRem(r, key, gone).all.Keys <= r.all.Keys
  {
  }

  lemma {:induction false} MoveIsBounded(s: System, t: System, id: nat, o: Outcome, caps: Caps, k: nat)
    requires Bounded(s, caps, k) && id in s.flights && |t.flights.Keys| <= k && t == Moved(s, t.redis, id, o)
    requires o == Goto(JoinAll) ==> t.redis == s.redis && |s.redis.all| < caps.everyone
    requires t.redis.all.Keys <= s.redis.all.Keys + (if s.flights[id].pc.JoinAll? then {s.flights[id].conn} else {})
    ensures Bounded(t, caps, k)
  {
    if o == Goto(JoinAll) {
      SubsetSize(Waiting(t), t.flights.Keys);
    } else {
      WaitingAfterMove(s, t, id, o);
      SubsetSize(t.redis.all.Keys, s.redis.all.Keys + (if s.flights[id].pc.JoinAll? then {s.flights[id].conn} else {}));
    }
  }

  lemma {:induction false} WaitingAfterMove(s: System, t: System, id: nat, o: Outcome)
    requires id in s.flights && o != Goto(JoinAll) && t == Moved(s, t.redis, id, o)
    ensures |Waiting(t)| <= |Waiting(s)| - if s.flights[id].pc.JoinAll? then 1 else 0
  {
    SubsetSize(Waiting(t), Waiting(s) - {id});
    assert id in Waiting(s) <==> s.flights[id].pc.JoinAll?;
  }

  lemma {:induction false} CommandIsBounded(s: System, id: nat, now: int, caps: Caps, k: nat)
    requires Bounded(s, caps, k) && id in s.flights && |Next(s, Command(id, now), caps).flights.Keys| <= k
    ensures Bounded(Next(s, Command(id, now), caps), caps, k)
  {
    OneCommandAtATime(s.redis, s.flights[id], now, caps);
    MoveIsBounded(s, Next(s, Command(id, now), caps), id, Execute(s.redis, s.flights[id], now, caps).1, caps, k);
  }

  lemma {:induction false} StepIsBounded(s: System, a: Action, caps: Caps, k: nat)
    requires Bounded(s, caps, k) && |Next(s, a, caps).flights| <= k
    ensures Bounded(Next(s, a, caps), caps, k)
  {
    if a.Command? && a.id in s.flights {
      CommandIsBounded(s, a.id, a.now, caps, k);
    } else {
      NoLarger(s, Next(s, a, caps));
    }
  }

  /** However the commands of registrations, evictions, prunes, heartbeats and unregisters interleave,
      at most k registrations in flight overshoot the global cap by at most k - 1. */
  lemma {:induction false} GlobalBound(actions: seq<Action>, caps: Caps, k: nat)
    requires AtMost(actions, caps, k)
    ensures Bounded(Reach(IDLE, actions, caps), caps, k)
    ensures |Reach(IDLE, actions, caps).redis.all| <= Max(0, caps.everyone + k - 1)
  {
    if actions == [] {
      assert Waiting(IDLE) == {};
    } else {
      var front := actions[..|actions| - 1];
      forall i | 0 <= i <= |front| ensures |Reach(IDLE, front[..i], caps).flights| <= k {
        assert front[..i] == actions[..i];
      }
      GlobalBound(front, caps, k);
      assert actions[..|actions|] == actions;
      StepIsBounded(Reach(IDLE, front, caps), actions[|actions| - 1], caps, k);
    }
  }

  // ---------------------------------------------------------------- run alone, it is the atomic call

  /** `n` commands in a row of one registration, nothing else moving. */
  ghost function Alone(s: System, id: nat, now: int, caps: Caps, n: nat): System
    decreases n
  {
    if n == 0 then s else Alone(Next(s, Command(id, now), caps), id, now, caps, n - 1)
  }

  function FlightOf(q: Request, pc: Pc): Flight {
    Flight(q.user, q.conn, q.score, pc)
  }

  function At(r: Redis, q: Request, id: nat, pc: Pc, log: seq<Answer>): System {
    System(r, map[id := FlightOf(q, pc)], log)
  }

  /** A registration at `pc`, left alone, finishes with the answer `a` and leaves Redis as `end`. */
  ghost predicate Ends(r: Redis, q: Request, id: nat, caps: Caps, pc: Pc, end: Redis, a: Answer) {
    forall log :: EndsAfter(r, q, id, caps, pc, end, a, log)
  }

  ghost predicate EndsAfter(
    r: Redis, q: Request, id: nat, caps: Caps, pc: Pc, end: Redis, a: Answer, log: seq<Answer>)
  {
    exists n: nat :: Alone(At(r, q, id, pc, log), id, q.now, caps, n) == System(end, map[], log + [a])
  }

  lemma {:induction false} OneCommand(r: Redis, q: Request, id: nat, caps: Caps, pc: Pc, log: seq<Answer>)
    ensures var (redis, o) := Execute(r, FlightOf(q, pc), q.now, caps);
      Next(At(r, q, id, pc, log), Command(id, q.now), caps)
        == if o.Done? then System(redis, map[], log + [o.answer]) else At(redis, q, id, o.pc, log)
  {
    var f := FlightOf(q, pc);
    var (redis, o) := Execute(r, f, q.now, caps);
    var flights := map[id := f];
    if o.Done? {
      assert flights - {id} == map[];
    } else {
      assert flights[id := f.(pc := o.pc)] == map[id := f.(pc := o.pc)];
    }
  }

  lemma {:induction false} EndsNow(r: Redis, q: Request, id: nat, caps: Caps, pc: Pc, end: Redis, a: Answer)
    requires Execute(r, FlightOf(q, pc), q.now, caps) == (end, Done(a))
    ensures Ends(r, q, id, caps, pc, end, a)
  {
    forall log ensures EndsAfter(r, q, id, caps, pc, end, a, log) {
      OneCommand(r, q, id, caps, pc, log);
      var t := Next(At(r, q, id, pc, log), Command(id, q.now), caps);
      assert Alone(t, id, q.now, caps, 0) == t;
      assert Alone(At(r, q, id, pc, log), id, q.now, caps, 1) == t;
    }
  }

  lemma {:induction false} EndsLater(
    r: Redis, q: Request, id: nat, caps: Caps, pc: Pc, redis: Redis, next: Pc, end: Redis, a: Answer)
    requires Execute(r, FlightOf(q, pc), q.now, caps) == (redis, Goto(next)) && Ends(redis, q, id, caps, next, end, a)
    ensures Ends(r, q, id, caps, pc, end, a)
  {
    forall log ensures EndsAfter(r, q, id, caps, pc, end, a, log) {
      OneCommand(r, q, id, caps, pc, log);
      assert EndsAfter(redis, q, id, caps, next, end, a, log);
      var n: nat :| Alone(At(redis, q, id, next, log), id, q.now, caps, n) == System(end, map[], log + [a]);
      assert Alone(At(r, q, id, pc, log), id, q.now, caps, n + 1) == System(end, map[], log + [a]);
    }
  }

  lemma {:induction false} DropAlone(r: Redis, q: Request, id: nat, caps: Caps, c: ConnId)
    ensures Ends(r, q, id, caps, DropMyOldest(c), Evict(r, q.user, Some(c)), Answer(true, Some(c)))
  {
    var end, a, mine := Evict(r, q.user, Some(c)), Answer(true, Some(c)), ZRem(r, OfUser(q.user), {c});
    EndsNow(mine, q, id, caps, DropFromAll(c), end, a);
    EndsLater(r, q, id, caps, DropMyOldest(c), mine, DropFromAll(c), end, a);
  }

  lemma {:induction false} EvictionAlone(r: Redis, q: Request, id: nat, caps: Caps, e: Option<ConnId>)
    requires q.conn in UserSet(r, q.user) && e == Evictee(UserSet(r, q.user), q.conn, caps.perUser)
    ensures Ends(r, q, id, caps, CountMine, Evict(r, q.user, e), Answer(true, e))
  {
    var end, a := Evict(r, q.user, e), Answer(true, e);
    if |UserSet(r, q.user)| <= caps.perUser {
      EndsNow(r, q, id, caps, CountMine, end, a);
    } else {
      if e.None? {
        EndsNow(r, q, id, caps, ReadOldest, end, a);
      } else {
        DropAlone(r, q, id, caps, e.value);
        EndsLater(r, q, id, caps, ReadOldest, r, DropMyOldest(e.value), end, a);
      }
      EndsLater(r, q, id, caps, CountMine, r, ReadOldest, end, a);
    }
  }

  /** What the call does once both sets are pruned. */
  ghost function AfterCheck(r: Redis, q: Request, caps: Caps): (Redis, Answer) {
    if |r.all| >= caps.everyone then (r, Answer(false, None))
    else
      var admitted := Admitted(r, q, caps.ttl);
      var e := Evictee(UserSet(admitted, q.user), q.conn, caps.perUser);
      (Evict(admitted, q.user, e), Answer(true, e))
  }

  lemma {:induction false} MarkAlone(r: Redis, q: Request, id: nat, caps: Caps, e: Option<ConnId>)
    requires q.conn in UserSet(r, q.user) && e == Evictee(UserSet(r, q.user), q.conn, caps.perUser)
    ensures Ends(r, q, id, caps, MarkAlive, Evict(SetAlive(r, q.conn, q.now, caps.ttl), q.user, e), Answer(true, e))
  {
    var marked := SetAlive(r, q.conn, q.now, caps.ttl);
    assert UserSet(marked, q.user) == UserSet(r, q.user);
    EvictionAlone(marked, q, id, caps, e);
    EndsLater(r, q, id, caps, MarkAlive, marked, CountMine, Evict(marked, q.user, e), Answer(true, e));
  }

  function Recorded(r: Redis, q: Request): Redis {
    ZAdd(ZAdd(r, Everyone, q.conn, q.score), OfUser(q.user), q.conn, q.score)
  }

  lemma {:induction false} JoinAlone(r: Redis, q: Request, id: nat, caps: Caps, end: Redis, a: Answer)
    requires Ends(Recorded(r, q), q, id, caps, MarkAlive, end, a)
    ensures Ends(r, q, id, caps, JoinAll, end, a)
  {
    var one := ZAdd(r, Everyone, q.conn, q.score);
    EndsLater(one, q, id, caps, JoinMine, Recorded(r, q), MarkAlive, end, a);
    EndsLater(r, q, id, caps, JoinAll, one, JoinMine, end, a);
  }

  lemma {:induction false} AdmissionAlone(r: Redis, q: Request, id: nat, caps: Caps)
    ensures Ends(r, q, id, caps, CountAll, AfterCheck(r, q, caps).0, AfterCheck(r, q, caps).1)
  {
    var (end, a) := AfterCheck(r, q, caps);
    if |r.all| >= caps.everyone {
      EndsNow(r, q, id, caps, CountAll, end, a);
    } else {
      var two := Recorded(r, q);
      assert SetAlive(two, q.conn, q.now, caps.ttl) == Admitted(r, q, caps.ttl);
      assert UserSet(two, q.user) == UserSet(Admitted(r, q, caps.ttl), q.user);
      MarkAlone(two, q, id, caps, a.evicted);
      JoinAlone(r, q, id, caps, end, a);
      EndsLater(r, q, id, caps, CountAll, r, JoinAll, end, a);
    }
  }

  lemma {:induction false} PruneMineAlone(r: Redis, q: Request, id: nat, caps: Caps, end: Redis, a: Answer)
    requires Ends(Prune(r, OfUser(q.user), q.now), q, id, caps, CountAll, end, a)
    ensures Ends(r, q, id, caps, ReadMine, end, a)
  {
    var members := UserSet(r, q.user).Keys;
    var dead := Dead(r, members, q.now);
    if members == {} {
      EndsLater(r, q, id, caps, ReadMine, r, CountAll, end, a);
    } else {
      if dead == {} {
        EndsLater(r, q, id, caps, FlagMine(members), r, CountAll, end, a);
      } else {
        EndsLater(r, q, id, caps, DropMine(dead), ZRem(r, OfUser(q.user), dead), CountAll, end, a);
        EndsLater(r, q, id, caps, FlagMine(members), r, DropMine(dead), end, a);
      }
      EndsLater(r, q, id, caps, ReadMine, r, FlagMine(members), end, a);
    }
  }

  lemma {:induction false} PruneAllAlone(r: Redis, q: Request, id: nat, caps: Caps, end: Redis, a: Answer)
    requires Ends(Prune(r, Everyone, q.now), q, id, caps, ReadMine, end, a)
    ensures Ends(r, q, id, caps, ReadAll, end, a)
  {
    var members := r.all.Keys;
    var dead := Dead(r, members, q.now);
    if members == {} {
      EndsLater(r, q, id, caps, ReadAll, r, ReadMine, end, a);
    } else {
      if dead == {} {
        EndsLater(r, q, id, caps, FlagAll(members), r, ReadMine, end, a);
      } else {
        EndsLater(r, q, id, caps, DropAll(dead), ZRem(r, Everyone, dead), ReadMine, end, a);
        EndsLater(r, q, id, caps, FlagAll(members), r, DropAll(dead), end, a);
      }
      EndsLater(r, q, id, caps, ReadAll, r, FlagAll(members), end, a);
    }
  }

  /** A registration that nothing interrupts has exactly the effect and the answer of the atomic call. */
  lemma {:induction false} AloneRefinesRegister(r: Redis, q: Request, id: nat, caps: Caps)
    ensures Ends(r, q, id, caps, ReadAll, Register(r, q, caps).0, Register(r, q, caps).1)
  {
    var (end, a) := Register(r, q, caps);
    AdmissionAlone(Pruned(r, q), q, id, caps);
    PruneMineAlone(Prune(r, Everyone, q.now), q, id, caps, end, a);
    PruneAllAlone(r, q, id, caps, end, a);
  }
}
