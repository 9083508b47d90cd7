/** How many wrong second-factor codes one pending token tolerates, across workers and outages. */
module MfaBudget {
  import opened Prelude

  type Token = string

  const ATTEMPTS_PER_TOKEN := 3

  type Counts = map<Token, Stored>

  // ---------------------------------------------------------------- one attempt

  function CountOf(counts: Counts, token: Token, now: int): nat {
    if token in counts then Read(Some(counts[token]), now) else 0
  }

  /** INCR, then EXPIRE on the first attempt only. */
  function SpendShared(counts: Counts, token: Token, seconds: nat, now: int): Counts {
    var used := CountOf(counts, token, now) + 1;
    counts[token := Stored(used, if used == 1 then now + Ms(seconds) else counts[token].expiry)]
  }

  function Unexpired(counts: Counts, now: int): Counts {
    map t | t in counts && now < counts[t].expiry :: counts[t]
  }

  function SpendLocal(counts: Counts, token: Token, seconds: nat, now: int): Counts {
    var kept := Unexpired(counts, now);
    var entry := if token in kept then kept[token] else Stored(0, now + Ms(seconds));
    kept[token := Stored(entry.value + 1, entry.expiry)]
  }

  /** Redis keeps one counter a token; each worker keeps its own while Redis cannot answer. */
  datatype State = State(redis: Counts, workers: seq<Counts>)

  datatype Attempt = Attempt(worker: nat, token: Token, reachable: bool, at: int)

  function Spend(s: State, a: Attempt, seconds: nat): State
    requires a.worker < |s.workers|
  {
    if a.reachable then s.(redis := SpendShared(s.redis, a.token, seconds, a.at))
    else s.(workers := s.workers[a.worker := SpendLocal(s.workers[a.worker], a.token, seconds, a.at)])
  }

  /** `spend_attempt` answers True: the counter that took the attempt is still within the allowance. */
  predicate Granted(s: State, a: Attempt, seconds: nat)
    requires a.worker < |s.workers|
  {
    var after := Spend(s, a, seconds);
    CountOf(if a.reachable then after.redis else after.workers[a.worker], a.token, a.at) <= ATTEMPTS_PER_TOKEN
  }

  /** An attempt counts one, on a window fixed by the first attempt of the count and not moved by later ones; nothing
      else in Redis moves. */
  lemma {:induction false} SharedSpendsOne(counts: Counts, token: Token, seconds: nat, now: int, other: Token)
    requires seconds >= 1
    ensures var after := SpendShared(counts, token, seconds, now);
      var lives := token in counts && now < counts[token].expiry && counts[token].value > 0;
      && CountOf(after, token, now) == (if lives then counts[token].value else 0) + 1
      && (lives ==> after[token].expiry == counts[token].expiry)
      && (!lives ==> after[token].expiry == now + 1000 * seconds)
      && (other != token ==> (other in after <==> other in counts))
      && (other != token && other in counts ==> after[other] == counts[other])
  {
  }

  /** In the process: the same count on the same fixed window, and every other token stays exactly if it has not
      expired. */
  lemma {:induction false} LocalSpendsOne(counts: Counts, token: Token, seconds: nat, now: int, other: Token)
    requires seconds >= 1
    ensures var after := SpendLocal(counts, token, seconds, now);
      var lives := token in counts && now < counts[token].expiry;
      && token in after && after[token].value == (if lives then counts[token].value else 0) + 1
      && after[token].expiry == (if lives then counts[token].expiry else now + 1000 * seconds)
      && (other != token ==> (other in after <==> other in counts && now < counts[other].expiry))
      && (other != token && other in after ==> after[other] == counts[other])
  {
  }

  class RedisCounters {
    var counts: Counts

    constructor ()
      ensures counts == map[]
    {
      counts := map[];
    }

    /** The `_SPEND_ATTEMPT` script. */
    method Eval(token: Token, seconds: nat, now: int) returns (used: nat)
      requires seconds >= 1
      modifies this
      ensures counts == SpendShared(old(counts), token, seconds, now)
      ensures used == CountOf(counts, token, now)
    {
      if token in counts && now < counts[token].expiry {
        counts := counts[token := Stored(counts[token].value + 1, counts[token].expiry)];
      } else {
        counts := counts[token := Stored(1, now)];
      }
      used := counts[token].value;
      if used == 1 {
        counts := counts[token := Stored(used, now + Ms(seconds))];
      }
    }
  }

  class Worker {
    var attempts: Counts

    constructor ()
      ensures attempts == map[]
    {
      attempts := map[];
    }

    /** `_local_spend_attempt`: prune on the way past, then count in this process. */
    method LocalSpend(token: Token, seconds: nat, now: int) returns (ok: bool)
      requires seconds >= 1
      modifies this
      ensures attempts == SpendLocal(old(attempts), token, seconds, now)
      ensures ok <==> CountOf(attempts, token, now) <= ATTEMPTS_PER_TOKEN
    {
      var all := attempts;
      var todo := all.Keys;
      while todo != {}
        invariant todo <= all.Keys
        invariant attempts == map t | t in all && (t in todo || now < all[t].expiry) :: all[t]
      {
        var key :| key in todo;
        if all[key].expiry <= now {
          attempts := attempts - {key};
        }
        todo := todo - {key};
      }
      assert attempts == Unexpired(all, now);
      var used, expires := 0, now + Ms(seconds);
      if token in attempts {
        used, expires := attempts[token].value, attempts[token].expiry;
      }
      used := used + 1;
      attempts := attempts[token := Stored(used, expires)];
      ok := used <= ATTEMPTS_PER_TOKEN;
    }

    /** `spend_attempt`: Redis when it answers, this process when it does not. */
    method SpendAttempt(redis: RedisCounters, token: Token, seconds: nat, reachable: bool, now: int) returns (ok: bool)
      requires seconds >= 1
      modifies this, redis
      ensures redis.counts
           == if reachable then SpendShared(old(redis.counts), token, seconds, now) else old(redis.counts)
      ensures attempts == if reachable then old(attempts) else SpendLocal(old(attempts), token, seconds, now)
      ensures ok <==> CountOf(if reachable then redis.counts else attempts, token, now) <= ATTEMPTS_PER_TOKEN
    {
      if reachable {
        var used := redis.Eval(token, seconds, now);
        ok := used <= ATTEMPTS_PER_TOKEN;
      } else {
        ok := LocalSpend(token, seconds, now);
      }
    }
  }

  // ---------------------------------------------------------------- runs

  ghost predicate OnWorkers(attempts: seq<Attempt>, n: nat) {
    forall a | a in attempts :: a.worker < n
  }

  function Run(n: nat, seconds: nat, attempts: seq<Attempt>): (s: State)
    requires OnWorkers(attempts, n)
    ensures |s.workers| == n
  {
    if attempts == [] then State(map[], seq(n, _ => map[]))
    else
      var front, last := attempts[..|attempts| - 1], attempts[|attempts| - 1];
      assert last in attempts;
      Spend(Run(n, seconds, front), last, seconds)
  }

  /** How many attempts on `token` were answered True, over the whole run. */
  function GrantedTo(token: Token, n: nat, seconds: nat, attempts: seq<Attempt>): nat
    requires OnWorkers(attempts, n)
  {
    if attempts == [] then 0
    else
      var front, last := attempts[..|attempts| - 1], attempts[|attempts| - 1];
      assert last in attempts;
      GrantedTo(token, n, seconds, front)
      + if last.token == token && Granted(Run(n, seconds, front), last, seconds) then 1 else 0
  }

  /** Attempts on `token` that Redis answered. */
  function Answered(token: Token, attempts: seq<Attempt>): nat {
    if attempts == [] then 0
    else
      var last := attempts[|attempts| - 1];
      Answered(token, attempts[..|attempts| - 1]) + if last.token == token && last.reachable then 1 else 0
  }

  /** Attempts on `token` that worker `w` counted for itself. */
  function Fallback(token: Token, w: nat, attempts: seq<Attempt>): nat {
    if attempts == [] then 0
    else
      var last := attempts[|attempts| - 1];
      Fallback(token, w, attempts[..|attempts| - 1])
      + if last.token == token && !last.reachable && last.worker == w then 1 else 0
  }

  function FallbackGrants(token: Token, n: nat, attempts: seq<Attempt>): nat {
    if n == 0 then 0
    else FallbackGrants(token, n - 1, attempts) + Min(ATTEMPTS_PER_TOKEN, Fallback(token, n - 1, attempts))
  }

  /** Every attempt on the token falls inside one lifetime of `seconds`. */
  ghost predicate WithinLifetime(token: Token, from: int, seconds: nat, attempts: seq<Attempt>) {
    forall a | a in attempts && a.token == token :: from <= a.at < from + Ms(seconds)
  }

  ghost predicate Ordered(attempts: seq<Attempt>) {
    forall i, j | 0 <= i <= j < |attempts| :: attempts[i].at <= attempts[j].at
  }

  /** Worker `w` was asked about `token` at least as often as it may grant. */
  ghost predicate Exhausted(token: Token, w: nat, attempts: seq<Attempt>) {
    Fallback(token, w, attempts) >= ATTEMPTS_PER_TOKEN
  }

  /** A counter that has seen `count` attempts holds that number until the lifetime is over. */
  ghost predicate Holds(counts: Counts, token: Token, count: nat, until: int) {
    if count == 0 then token !in counts
    else token in counts && counts[token].value == count && counts[token].expiry >= until
  }

  ghost predicate Exact(s: State, token: Token, until: int, attempts: seq<Attempt>) {
    && Holds(s.redis, token, Answered(token, attempts), until)
    && forall w | 0 <= w < |s.workers| :: Holds(s.workers[w], token, Fallback(token, w, attempts), until)
  }

  lemma {:induction false} CountersAreExact(token: Token, n: nat, from: int, seconds: nat, attempts: seq<Attempt>)
    requires OnWorkers(attempts, n) && WithinLifetime(token, from, seconds, attempts)
    requires forall a | a in attempts :: a.at < from + Ms(seconds)
    ensures Exact(Run(n, seconds, attempts), token, from + Ms(seconds), attempts)
  {
    if attempts != [] {
      var front, last := attempts[..|attempts| - 1], attempts[|attempts| - 1];
      assert last in attempts;
      CountersAreExact(token, n, from, seconds, front);
      var before := Run(n, seconds, front);
      var after := Spend(before, last, seconds);
      assert Run(n, seconds, attempts) == after;
      forall w | 0 <= w < n
        ensures Holds(after.workers[w], token, Fallback(token, w, attempts), from + Ms(seconds))
      {
        assert Holds(before.workers[w], token, Fallback(token, w, front), from + Ms(seconds));
      }
    }
  }

  lemma {:induction false} FallbackGrantsStep(token: Token, n: nat, attempts: seq<Attempt>)
    requires attempts != []
    ensures var front, last := attempts[..|attempts| - 1], attempts[|attempts| - 1];
      FallbackGrants(token, n, attempts) == FallbackGrants(token, n, front)
        + if last.token == token && !last.reachable && last.worker < n
             && Fallback(token, last.worker, front) < ATTEMPTS_PER_TOKEN then 1 else 0
  {
    if n > 0 {
      FallbackGrantsStep(token, n - 1, attempts);
    }
  }

  /** Exactly how many attempts a token is granted, for every pattern of outages. */
  lemma {:induction false} GrantsExactly(token: Token, n: nat, from: int, seconds: nat, attempts: seq<Attempt>)
    requires seconds >= 1 && OnWorkers(attempts, n) && Ordered(attempts)
    requires WithinLifetime(token, from, seconds, attempts)
    ensures GrantedTo(token, n, seconds, attempts)
         == Min(3, Answered(token, attempts)) + FallbackGrants(token, n, attempts)
  {
    if attempts == [] {
      NothingFallsBack(token, n);
    } else {
      var front, last := attempts[..|attempts| - 1], attempts[|attempts| - 1];
      assert last in attempts;
      GrantsExactly(token, n, from, seconds, front);
      if last.token == token {
        CountersAreExact(token, n, from, seconds, front);
      }
      FallbackGrantsStep(token, n, attempts);
    }
  }

  lemma {:induction false} NothingFallsBack(token: Token, n: nat)
    ensures FallbackGrants(token, n, []) == 0
  {
    if n > 0 {
      NothingFallsBack(token, n - 1);
    }
  }

  lemma {:induction false} FallbackGrantsBound(token: Token, n: nat, attempts: seq<Attempt>)
    ensures FallbackGrants(token, n, attempts) <= ATTEMPTS_PER_TOKEN * n
    ensures FallbackGrants(token, n, attempts) == ATTEMPTS_PER_TOKEN * n
       <==> forall w: nat | w < n :: Exhausted(token, w, attempts)
  {
    if n > 0 {
      FallbackGrantsBound(token, n - 1, attempts);
      assert (forall w: nat | w < n :: Exhausted(token, w, attempts))
        <==> (forall w: nat | w < n - 1 :: Exhausted(token, w, attempts)) && Exhausted(token, n - 1, attempts);
    }
  }

  /** N workers and any outages grant a token at most 3 * (N + 1) attempts, and that many
      exactly when Redis and every worker were each asked at least three times. */
  lemma {:induction false} BudgetUnderOutages(token: Token, n: nat, from: int, seconds: nat, attempts: seq<Attempt>)
    requires seconds >= 1 && OnWorkers(attempts, n) && Ordered(attempts)
    requires WithinLifetime(token, from, seconds, attempts)
    ensures GrantedTo(token, n, seconds, attempts) <= 3 * (n + 1)
    ensures GrantedTo(token, n, seconds, attempts) == 3 * (n + 1)
       <==> && Answered(token, attempts) >= 3
            && forall w: nat | w < n :: Exhausted(token, w, attempts)
  {
    GrantsExactly(token, n, from, seconds, attempts);
    FallbackGrantsBound(token, n, attempts);
  }

  lemma {:induction false} NoFallback(token: Token, n: nat, attempts: seq<Attempt>)
    requires forall a | a in attempts :: a.reachable
    ensures FallbackGrants(token, n, attempts) == 0
  {
    if attempts == [] {
      NothingFallsBack(token, n);
    } else {
      assert attempts[|attempts| - 1] in attempts;
      NoFallback(token, n, attempts[..|attempts| - 1]);
      FallbackGrantsStep(token, n, attempts);
    }
  }

  /** While Redis never fails the token gets its three attempts and no more. */
  lemma {:induction false} BudgetWithoutOutages(token: Token, n: nat, from: int, seconds: nat, attempts: seq<Attempt>)
    requires seconds >= 1 && OnWorkers(attempts, n) && Ordered(attempts)
    requires WithinLifetime(token, from, seconds, attempts)
    requires forall a | a in attempts :: a.reachable
    ensures GrantedTo(token, n, seconds, attempts) == Min(3, Answered(token, attempts))
  {
    GrantsExactly(token, n, from, seconds, attempts);
    NoFallback(token, n, attempts);
  }
}
