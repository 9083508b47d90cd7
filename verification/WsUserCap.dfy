/** When the per-user cap does hold, command by command. */
module WsUserCap {
  import opened Prelude
  import opened WsRegistry
  import opened WsInterleaving

  ghost predicate Flying(s: System, u: UserId, id: nat) {
    id in s.flights && s.flights[id].user == u
  }

  /** What is asked of one user's registrations, and of nothing else: one at a time, none dies on the way, and each
      begins with a new id and a connect time later than those recorded. */
  ghost predicate Orderly(s: System, a: Action, u: UserId) {
    match a
    case Begin(id, v, c, score) =>
      v == u && id !in s.flights ==>
        && (forall other :: !Flying(s, u, other))
        && c !in UserSet(s.redis, u) && forall d | d in UserSet(s.redis, u) :: UserSet(s.redis, u)[d] < score
    case Abort(id) => !Flying(s, u, id)
    case _ => true
  }

  ghost predicate OrderlyRun(actions: seq<Action>, caps: Caps, u: UserId) {
    forall i | 0 <= i < |actions| :: Orderly(Reach(IDLE, actions[..i], caps), actions[i], u)
  }

  // ---------------------------------------------------------------- where a registration stands

  /** The newcomer sorts last. */
  ghost predicate Newest(mine: ZSet, f: Flight) {
    forall d | d in mine :: if d == f.conn then mine[d] == f.score else mine[d] < f.score
  }

  /** How large the set may be while the registration stands at its next command. */
  ghost predicate Room(mine: ZSet, pc: Pc, cap: int) {
    match pc
    case MarkAlive => |mine| <= cap + 1
    case CountMine => |mine| <= cap + 1
    case ReadOldest => |mine| <= cap + 1
    case DropMyOldest(c) => |mine| <= cap + 1 && |mine - {c}| <= cap
    case _ => |mine| <= cap
  }

  ghost predicate InHand(s: System, u: UserId, caps: Caps) {
    var mine := UserSet(s.redis, u);
    && (forall i, j | Flying(s, u, i) && Flying(s, u, j) :: i == j)
    && (forall id | Flying(s, u, id) :: Newest(mine, s.flights[id]) && Room(mine, s.flights[id].pc, caps.perUser))
    && ((forall id :: !Flying(s, u, id)) ==> |mine| <= caps.perUser)
    && |mine| <= caps.perUser + 1
  }

  // ---------------------------------------------------------------- its own commands

  ghost predicate LeavesRoom(f: Flight, after: (Redis, Outcome), caps: Caps) {
    var mine, o := UserSet(after.0, f.user), after.1;
    Newest(mine, f) && if o.Done? then |mine| <= caps.perUser else Room(mine, o.pc, caps.perUser)
  }

  lemma {:induction false} OneMoreAtMost(mine: ZSet, c: ConnId, score: int)
    ensures |mine[c := score]| <= |mine| + 1
  {
    assert mine[c := score].Keys == mine.Keys + {c};
    SubsetSize(mine[c := score].Keys, mine.Keys + {c});
  }

  /** If the oldest is the newcomer, it is alone. */
  lemma {:induction false} OldestNewestIsAlone(mine: ZSet, f: Flight)
    requires |mine| > 0 && Newest(mine, f) && Oldest(mine) == f.conn
    ensures |mine| == 1
  {
    forall d | d in mine ensures d == f.conn { assert Precedes(mine, f.conn, d); }
    assert mine.Keys == {f.conn};
  }

  lemma {:induction false} DropOldest(mine: ZSet, c: ConnId, cap: int)
    requires c in mine && |mine| <= cap + 1
    ensures |mine - {c}| <= cap
  {
    assert (mine - {c}).Keys == mine.Keys - {c};
  }

  /** The command at which the registration may find itself done without evicting. */
  lemma {:induction false} ReadOldestIsInHand(r: Redis, f: Flight, now: int, caps: Caps)
    requires f.pc == ReadOldest && caps.perUser >= 1
    requires var mine := UserSet(r, f.user); Newest(mine, f) && |mine| <= caps.perUser + 1
    ensures LeavesRoom(f, Execute(r, f, now, caps), caps)
  {
    var mine := UserSet(r, f.user);
    if |mine| > 0 {
      if Oldest(mine) == f.conn {
        OldestNewestIsAlone(mine, f);
      } else {
        DropOldest(mine, Oldest(mine), caps.perUser);
      }
    }
  }

  lemma {:induction false} OwnCommandIsInHand(r: Redis, f: Flight, now: int, caps: Caps)
    requires caps.perUser >= 1
    requires var mine := UserSet(r, f.user); Newest(mine, f) && Room(mine, f.pc, caps.perUser)
    ensures LeavesRoom(f, Execute(r, f, now, caps), caps)
  {
    match f.pc
    case DropAll(_) => RemovalIsInHand(r, f, now, caps);
    case DropMine(_) => RemovalIsInHand(r, f, now, caps);
    case DropMyOldest(_) => RemovalIsInHand(r, f, now, caps);
    case DropFromAll(_) => RemovalIsInHand(r, f, now, caps);
    case JoinAll => WritingIsInHand(r, f, now, caps);
    case JoinMine => WritingIsInHand(r, f, now, caps);
    case MarkAlive => WritingIsInHand(r, f, now, caps);
    case ReadOldest => ReadOldestIsInHand(r, f, now, caps);
    case _ => ReadingIsInHand(r, f, now, caps);
  }

  lemma {:induction false} ReadingIsInHand(r: Redis, f: Flight, now: int, caps: Caps)
    requires f.pc.ReadAll? || f.pc.FlagAll? || f.pc.ReadMine? || f.pc.FlagMine? || f.pc.CountAll? || f.pc.CountMine?
    requires var mine := UserSet(r, f.user); Newest(mine, f) && Room(mine, f.pc, caps.perUser)
    ensures LeavesRoom(f, Execute(r, f, now, caps), caps)
  {
    assert Execute(r, f, now, caps).0 == r;
  }

  lemma {:induction false} WritingIsInHand(r: Redis, f: Flight, now: int, caps: Caps)
    requires f.pc.JoinAll? || f.pc.JoinMine? || f.pc.MarkAlive?
    requires var mine := UserSet(r, f.user); Newest(mine, f) && Room(mine, f.pc, caps.perUser)
    ensures LeavesRoom(f, Execute(r, f, now, caps), caps)
  {
    OneMoreAtMost(UserSet(r, f.user), f.conn, f.score);
  }

  lemma {:induction false} RemovalIsInHand(r: Redis, f: Flight, now: int, caps: Caps)
    requires f.pc.DropAll? || f.pc.DropMine? || f.pc.DropMyOldest? || f.pc.DropFromAll?
    requires var mine := UserSet(r, f.user); Newest(mine, f) && Room(mine, f.pc, caps.perUser)
    ensures LeavesRoom(f, Execute(r, f, now, caps), caps)
  {
    var mine := UserSet(r, f.user);
    match f.pc
    case DropAll(dead) => MembersAfterRem(r, Everyone, dead, OfUser(f.user));
    case DropMine(dead) =>
      MembersAfterRem(r, OfUser(f.user), dead, OfUser(f.user));
      SubmapSize(mine, dead);
    case DropMyOldest(c) => MembersAfterRem(r, OfUser(f.user), {c}, OfUser(f.user));
    case DropFromAll(c) => MembersAfterRem(r, Everyone, {c}, OfUser(f.user));
  }

  // ---------------------------------------------------------------- everything else

  /** Commands of other users' registrations leave the set alone. */
  lemma {:induction false} StrangersLeaveItAlone(r: Redis, f: Flight, now: int, caps: Caps, u: UserId)
    requires f.user != u
    ensures UserSet(Execute(r, f, now, caps).0, u) == UserSet(r, u)
  {
    match f.pc
    case DropAll(dead) => MembersAfterRem(r, Everyone, dead, OfUser(u));
    case DropMine(dead) => MembersAfterRem(r, OfUser(f.user), dead, OfUser(u));
    case DropMyOldest(c) => MembersAfterRem(r, OfUser(f.user), {c}, OfUser(u));
    case DropFromAll(c) => MembersAfterRem(r, Everyone, {c}, OfUser(u));
    case _ =>
  }

  lemma {:induction false} RoomGrows(mine: ZSet, gone: set<ConnId>, pc: Pc, cap: int)
    requires Room(mine, pc, cap)
    ensures Room(mine - gone, pc, cap)
  {
    SubmapSize(mine, gone);
    if pc.DropMyOldest? {
      StillFewer(mine, gone, pc.oldest);
    }
  }

  lemma {:induction false} StillFewer(mine: ZSet, gone: set<ConnId>, c: ConnId)
    ensures |mine - gone - {c}| <= |mine - {c}|
  {
    SubsetSize((mine - gone - {c}).Keys, (mine - {c}).Keys);
  }

  /** Nothing but the set shrinking. */
  lemma {:induction false} ShrinkingIsInHand(s: System, t: System, u: UserId, gone: set<ConnId>, caps: Caps)
    requires InHand(s, u, caps) && t.flights == s.flights && UserSet(t.redis, u) == UserSet(s.redis, u) - gone
    ensures InHand(t, u, caps)
  {
    var mine := UserSet(s.redis, u);
    SubmapSize(mine, gone);
    assert forall id :: Flying(t, u, id) <==> Flying(s, u, id);
    forall id | Flying(t, u, id)
      ensures Newest(mine - gone, t.flights[id]) && Room(mine - gone, t.flights[id].pc, caps.perUser)
    {
      assert Flying(s, u, id);
      RoomGrows(mine, gone, s.flights[id].pc, caps.perUser);
    }
  }

  lemma {:induction false} StrangerIsInHand(s: System, t: System, u: UserId, id: nat, caps: Caps)
    requires InHand(s, u, caps) && !Flying(s, u, id) && !Flying(t, u, id)
    requires UserSet(t.redis, u) == UserSet(s.redis, u)
    requires forall other | other != id :: other in s.flights <==> other in t.flights
    requires forall other | other != id && other in s.flights && other in t.flights ::
      s.flights[other] == t.flights[other]
    ensures InHand(t, u, caps)
  {
    assert forall other :: Flying(t, u, other) <==> Flying(s, u, other);
  }

  lemma {:induction false} OwnIsInHand(s: System, id: nat, now: int, u: UserId, caps: Caps)
    requires InHand(s, u, caps) && Flying(s, u, id) && caps.perUser >= 1
    ensures InHand(Next(s, Command(id, now), caps), u, caps)
  {
    var f := s.flights[id];
    var (redis, o) := Execute(s.redis, f, now, caps);
    var t := Next(s, Command(id, now), caps);
    OwnCommandIsInHand(s.redis, f, now, caps);
    assert t == Moved(s, redis, id, o);
    forall other | Flying(t, u, other) ensures other == id {
      assert other != id ==> Flying(s, u, other);
    }
    assert o.Goto? ==> Flying(t, u, id) && t.flights[id] == f.(pc := o.pc);
  }

  lemma {:induction false} BeginIsInHand(s: System, a: Action, u: UserId, caps: Caps)
    requires InHand(s, u, caps) && a.Begin? && Orderly(s, a, u)
    ensures InHand(Next(s, a, caps), u, caps)
  {
    var t := Next(s, a, caps);
    if a.id !in s.flights {
      if a.user != u {
        StrangerIsInHand(s, t, u, a.id, caps);
      } else {
        forall other | other != a.id ensures !Flying(t, u, other) {
          assert !Flying(s, u, other);
        }
        assert Flying(t, u, a.id);
      }
    }
  }

  lemma {:induction false} CommandIsInHand(s: System, id: nat, now: int, u: UserId, caps: Caps)
    requires InHand(s, u, caps) && caps.perUser >= 1
    ensures InHand(Next(s, Command(id, now), caps), u, caps)
  {
    if Flying(s, u, id) {
      OwnIsInHand(s, id, now, u, caps);
    } else if id in s.flights {
      StrangersLeaveItAlone(s.redis, s.flights[id], now, caps, u);
      StrangerIsInHand(s, Next(s, Command(id, now), caps), u, id, caps);
    }
  }

  lemma {:induction false} StepIsInHand(s: System, a: Action, u: UserId, caps: Caps)
    requires InHand(s, u, caps) && Orderly(s, a, u) && caps.perUser >= 1
    ensures InHand(Next(s, a, caps), u, caps)
  {
    var t, mine := Next(s, a, caps), UserSet(s.redis, u);
    assert mine - {} == mine;
    match a
    case Begin(_, _, _, _) => BeginIsInHand(s, a, u, caps);
    case Command(id, now) => CommandIsInHand(s, id, now, u, caps);
    case Abort(id) => StrangerIsInHand(s, t, u, id, caps);
    case Heartbeat(_, _) => ShrinkingIsInHand(s, t, u, {}, caps);
    case RemoveMine(v, c) =>
      MembersAfterRem(s.redis, OfUser(v), {c}, OfUser(u));
      ShrinkingIsInHand(s, t, u, if u == v then {c} else {}, caps);
    case RemoveAll(c) =>
      MembersAfterRem(s.redis, Everyone, {c}, OfUser(u));
      ShrinkingIsInHand(s, t, u, {}, caps);
    case RemoveAlive(_) => ShrinkingIsInHand(s, t, u, {}, caps);
  }

  /** However everyone else's commands, heartbeats, unregisters and failures interleave: a user whose registrations
      come one at a time and run to their end is never more than one over the cap, and at no more than the cap
      whenever none of them is in flight. */
  lemma {:induction false} OneAtATimeKeepsTheCap(actions: seq<Action>, caps: Caps, u: UserId)
    requires OrderlyRun(actions, caps, u) && caps.perUser >= 1
    ensures var s := Reach(IDLE, actions, caps);
      && |UserSet(s.redis, u)| <= caps.perUser + 1
      && ((forall id :: !Flying(s, u, id)) ==> |UserSet(s.redis, u)| <= caps.perUser)
      && InHand(s, u, caps)
  {
    if actions != [] {
      var front := actions[..|actions| - 1];
      forall i | 0 <= i < |front| ensures Orderly(Reach(IDLE, front[..i], caps), front[i], u) {
        assert front[..i] == actions[..i];
      }
      OneAtATimeKeepsTheCap(front, caps, u);
      StepIsInHand(Reach(IDLE, front, caps), actions[|actions| - 1], u, caps);
    }
  }

  // ---------------------------------------------------------------- where any excess comes from

  /** Past its join and not yet through with evicting. */
  ghost predicate Owes(pc: Pc) {
    pc.MarkAlive? || pc.CountMine? || pc.ReadOldest? || pc.DropMyOldest?
  }

  ghost function Unsettled(s: System, u: UserId): set<nat> {
    set id | id in s.flights && s.flights[id].user == u && Owes(s.flights[id].pc)
  }

  /** A registration of the user ends without evicting anyone although it may have had to: it dies on the way, finds
      itself the oldest, or removes a connection that is already gone. */
  ghost predicate Shirks(s: System, a: Action, u: UserId) {
    match a
    case Abort(id) => id in Unsettled(s, u)
    case Command(id, _) =>
      id in Unsettled(s, u) && ShirksBy(UserSet(s.redis, u), s.flights[id])
    case _ => false
  }

  ghost function Shirked(actions: seq<Action>, caps: Caps, u: UserId): nat {
    if actions == [] then 0
    else
      var front, a := actions[..|actions| - 1], actions[|actions| - 1];
      Shirked(front, caps, u) + if Shirks(Reach(IDLE, front, caps), a, u) then 1 else 0
  }

  ghost predicate Accounted(s: System, u: UserId, caps: Caps, n: nat) {
    |UserSet(s.redis, u)| <= Max(0, caps.perUser) + |Unsettled(s, u)| + n
  }

  ghost predicate ShirksBy(mine: ZSet, f: Flight) {
    || (f.pc.ReadOldest? && |mine| > 0 && Oldest(mine) == f.conn)
    || (f.pc.DropMyOldest? && f.pc.oldest !in mine)
  }

  function Debt(owes: bool): nat {
    if owes then 1 else 0
  }

  /** What one command of the user's own does to its set: it leaves no more than the cap, or grows by no more than it
      then owes, or shrinks by what it no longer owes. */
  ghost predicate Pays(mine: ZSet, f: Flight, after: (Redis, Outcome), caps: Caps) {
    var mine', o := UserSet(after.0, f.user), after.1;
    || (|mine'| <= Max(0, caps.perUser) && |mine'| <= |mine|)
    || |mine'| + Debt(Owes(f.pc)) <= |mine| + Debt(o.Goto? && Owes(o.pc)) + Debt(ShirksBy(mine, f))
  }

  lemma {:induction false} ReadingPays(r: Redis, f: Flight, now: int, caps: Caps)
    requires f.pc.ReadAll? || f.pc.FlagAll? || f.pc.ReadMine? || f.pc.FlagMine? || f.pc.CountAll? || f.pc.CountMine?
    ensures Pays(UserSet(r, f.user), f, Execute(r, f, now, caps), caps)
  {
    assert Execute(r, f, now, caps).0 == r;
  }

  lemma {:induction false} WritingPays(r: Redis, f: Flight, now: int, caps: Caps)
    requires f.pc.JoinAll? || f.pc.JoinMine? || f.pc.MarkAlive?
    ensures Pays(UserSet(r, f.user), f, Execute(r, f, now, caps), caps)
  {
    OneMoreAtMost(UserSet(r, f.user), f.conn, f.score);
  }

  lemma {:induction false} ReadingOldestPays(r: Redis, f: Flight, now: int, caps: Caps)
    requires f.pc.ReadOldest?
    ensures Pays(UserSet(r, f.user), f, Execute(r, f, now, caps), caps)
  {
    assert Execute(r, f, now, caps).0 == r;
  }

  lemma {:induction false} PruningPays(r: Redis, f: Flight, now: int, caps: Caps)
    requires f.pc.DropAll? || f.pc.DropFromAll?
    ensures Pays(UserSet(r, f.user), f, Execute(r, f, now, caps), caps)
  {
    var gone := if f.pc.DropAll? then f.pc.dead else {f.pc.oldest};
    MembersAfterRem(r, Everyone, gone, OfUser(f.user));
    assert Execute(r, f, now, caps).0 == ZRem(r, Everyone, gone);
  }

  lemma {:induction false} PruningOwnPays(r: Redis, f: Flight, now: int, caps: Caps)
    requires f.pc.DropMine?
    ensures Pays(UserSet(r, f.user), f, Execute(r, f, now, caps), caps)
  {
    MembersAfterRem(r, OfUser(f.user), f.pc.dead, OfUser(f.user));
    SubmapSize(UserSet(r, f.user), f.pc.dead);
    assert Execute(r, f, now, caps) == (ZRem(r, OfUser(f.user), f.pc.dead), Goto(CountAll));
  }

  lemma {:induction false} EvictingPays(r: Redis, f: Flight, now: int, caps: Caps)
    requires f.pc.DropMyOldest?
    ensures Pays(UserSet(r, f.user), f, Execute(r, f, now, caps), caps)
  {
    var mine, c := UserSet(r, f.user), f.pc.oldest;
    MembersAfterRem(r, OfUser(f.user), {c}, OfUser(f.user));
    SubmapSize(mine, {c});
    if c in mine {
      DropOldest(mine, c, |mine| - 1);
    }
  }

  lemma {:induction false} OwnCommandPays(r: Redis, f: Flight, now: int, caps: Caps)
    ensures Pays(UserSet(r, f.user), f, Execute(r, f, now, caps), caps)
  {
    match f.pc
    case DropAll(_) => PruningPays(r, f, now, caps);
    case DropMine(_) => PruningOwnPays(r, f, now, caps);
    case DropFromAll(_) => PruningPays(r, f, now, caps);
    case DropMyOldest(_) => EvictingPays(r, f, now, caps);
    case ReadOldest => ReadingOldestPays(r, f, now, caps);
    case JoinAll => WritingPays(r, f, now, caps);
    case JoinMine => WritingPays(r, f, now, caps);
    case MarkAlive => WritingPays(r, f, now, caps);
    case _ => ReadingPays(r, f, now, caps);
  }

  /** The registrations that owe, before and after one of them moves. */
  lemma {:induction false} UnsettledAfter(s: System, t: System, u: UserId, id: nat, o: Outcome)
    requires Flying(s, u, id) && t == Moved(s, t.redis, id, o)
    ensures |Unsettled(t, u)| + Debt(Owes(s.flights[id].pc)) == |Unsettled(s, u)| + Debt(o.Goto? && Owes(o.pc))
  {
    var rest := Unsettled(s, u) - {id};
    assert Unsettled(s, u) == if Owes(s.flights[id].pc) then rest + {id} else rest;
    assert Unsettled(t, u) == if o.Goto? && Owes(o.pc) then rest + {id} else rest;
  }

  lemma {:induction false} OwnIsAccounted(s: System, id: nat, now: int, u: UserId, caps: Caps, n: nat)
    requires Accounted(s, u, caps, n) && Flying(s, u, id)
    ensures var a := Command(id, now); Accounted(Next(s, a, caps), u, caps, n + Debt(Shirks(s, a, u)))
  {
    var f := s.flights[id];
    var (redis, o) := Execute(s.redis, f, now, caps);
    var t := Next(s, Command(id, now), caps);
    assert t == Moved(s, redis, id, o);
    OwnCommandPays(s.redis, f, now, caps);
    UnsettledAfter(s, t, u, id, o);
    assert Shirks(s, Command(id, now), u) == ShirksBy(UserSet(s.redis, u), f);
  }

  lemma {:induction false} UnsettledSame(s: System, t: System, u: UserId)
    requires forall id :: Flying(s, u, id) <==> Flying(t, u, id)
    requires forall id | Flying(s, u, id) && Flying(t, u, id) :: t.flights[id] == s.flights[id]
    ensures Unsettled(t, u) == Unsettled(s, u)
  {
    forall id ensures id in Unsettled(t, u) <==> id in Unsettled(s, u) {
      assert Flying(s, u, id) <==> Flying(t, u, id);
    }
  }

  lemma {:induction false} CommandIsAccounted(s: System, id: nat, now: int, u: UserId, caps: Caps, n: nat)
    requires Accounted(s, u, caps, n)
    ensures var a := Command(id, now); Accounted(Next(s, a, caps), u, caps, n + Debt(Shirks(s, a, u)))
  {
    if Flying(s, u, id) {
      OwnIsAccounted(s, id, now, u, caps, n);
    } else if id in s.flights {
      var t := Next(s, Command(id, now), caps);
      StrangersLeaveItAlone(s.redis, s.flights[id], now, caps, u);
      UnsettledSame(s, t, u);
    }
  }

  lemma {:induction false} AbortIsAccounted(s: System, id: nat, u: UserId, caps: Caps, n: nat)
    requires Accounted(s, u, caps, n)
    ensures Accounted(Next(s, Abort(id), caps), u, caps, n + Debt(Shirks(s, Abort(id), u)))
  {
    var t := Next(s, Abort(id), caps);
    assert t.redis == s.redis && Unsettled(t, u) == Unsettled(s, u) - {id};
    OneFewer(Unsettled(s, u), id);
  }

  lemma {:induction false} OneFewer(ids: set<nat>, id: nat)
    ensures |ids| <= |ids - {id}| + Debt(id in ids)
  {
    assert id !in ids ==> ids - {id} == ids;
  }

  lemma {:induction false} StepIsAccounted(s: System, a: Action, u: UserId, caps: Caps, n: nat)
    requires Accounted(s, u, caps, n)
    ensures Accounted(Next(s, a, caps), u, caps, n + Debt(Shirks(s, a, u)))
  {
    var t := Next(s, a, caps);
    match a
    case Begin(_, _, _, _) => assert Unsettled(t, u) == Unsettled(s, u);
    case Command(id, now) => CommandIsAccounted(s, id, now, u, caps, n);
    case Abort(id) => AbortIsAccounted(s, id, u, caps, n);
    case Heartbeat(_, _) => UnsettledSame(s, t, u);
    case RemoveMine(v, c) =>
      MembersAfterRem(s.redis, OfUser(v), {c}, OfUser(u));
      SubmapSize(UserSet(s.redis, u), {c});
      UnsettledSame(s, t, u);
    case RemoveAll(c) =>
      MembersAfterRem(s.redis, Everyone, {c}, OfUser(u));
      UnsettledSame(s, t, u);
    case RemoveAlive(_) => UnsettledSame(s, t, u);
  }

  /** In every run whatever: a user's excess over the cap is at most the number of its registrations that are past their
      join and still in flight, or ended without evicting anyone because they died there, found themselves the oldest,
      or removed a connection that was already gone. */
  lemma {:induction false} ExcessIsAccountedFor(actions: seq<Action>, caps: Caps, u: UserId)
    ensures var s := Reach(IDLE, actions, caps);
      |UserSet(s.redis, u)| <= Max(0, caps.perUser) + |Unsettled(s, u)| + Shirked(actions, caps, u)
  {
    if actions != [] {
      var front, a := actions[..|actions| - 1], actions[|actions| - 1];
      ExcessIsAccountedFor(front, caps, u);
      StepIsAccounted(Reach(IDLE, front, caps), a, u, caps, Shirked(front, caps, u));
    }
  }
}
