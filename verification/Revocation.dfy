/** How long a revoked token can still be admitted by N workers that each cache one user's row. */
module Revocation {
  import opened Prelude

  // ---------------------------------------------------------------- the rule on one token

  /** When each credential last moved, in microseconds since the epoch, as the row keeps it. */
  datatype Stamps = Stamps(password: Option<nat>, mfa: Option<nat>)

  /** `password_change_invalidates`: compared in whole seconds, same second refused, absence is no opinion. */
  predicate Predates(issuedAt: Option<int>, changedAt: Option<nat>) {
    issuedAt.Some? && changedAt.Some? && issuedAt.value <= changedAt.value / 1_000_000
  }

  /** `credential_change_invalidates`. */
  predicate Invalid(issuedAt: Option<int>, s: Stamps) {
    Predates(issuedAt, s.password) || Predates(issuedAt, s.mfa)
  }

  /** The token was issued no later than the second in which one of the two credentials moved: seconds against
      microseconds, the whole second counting. */
  ghost predicate IssuedBy(second: int, s: Stamps) {
    || (s.password.Some? && second * 1_000_000 <= s.password.value)
    || (s.mfa.Some? && second * 1_000_000 <= s.mfa.value)
  }

  lemma {:induction false} WholeSeconds(second: int, micros: nat)
    ensures second <= micros / 1_000_000 <==> second * 1_000_000 <= micros
  {
    var q := micros / 1_000_000;
    assert q * 1_000_000 <= micros < (q + 1) * 1_000_000;
  }

  /** A token is refused exactly when it carries an issue time and either credential moved in that second or later; one
      with no issue time is not judged. */
  lemma {:induction false} RefusedExactly(issuedAt: Option<int>, s: Stamps)
    ensures Invalid(issuedAt, s) <==> issuedAt.Some? && IssuedBy(issuedAt.value, s)
  {
    if issuedAt.Some? {
      if s.password.Some? {
        WholeSeconds(issuedAt.value, s.password.value);
      }
      if s.mfa.Some? {
        WholeSeconds(issuedAt.value, s.mfa.value);
      }
    }
  }

  /** Stamps are written from the clock, so a later row never carries an earlier one. */
  predicate Forward(a: Option<nat>, b: Option<nat>) {
    a.Some? ==> b.Some? && a.value <= b.value
  }

  predicate RowForward(a: Stamps, b: Stamps) {
    Forward(a.password, b.password) && Forward(a.mfa, b.mfa)
  }

  /** Once refused, always refused: later changes never readmit a token. */
  lemma {:induction false} InvalidStays(issuedAt: Option<int>, a: Stamps, b: Stamps)
    requires Invalid(issuedAt, a) && RowForward(a, b)
    ensures Invalid(issuedAt, b)
  {
    if Predates(issuedAt, a.password) {
      assert a.password.value / 1_000_000 <= b.password.value / 1_000_000;
    } else {
      assert a.mfa.value / 1_000_000 <= b.mfa.value / 1_000_000;
    }
  }

  // ---------------------------------------------------------------- workers and their caches

  /** A row read that has not been stored yet: `_load_current_user` suspends in between. */
  datatype Reading = Reading(stamps: Stamps, version: nat, readAt: int)

  /** A cached principal. `version` and `readAt` record which row it came from; the code keeps neither. */
  datatype Entry = Entry(stamps: Stamps, deadline: int, version: nat, readAt: int)

  datatype Worker = Worker(entry: Option<Entry>, readings: map<nat, Reading>)

  datatype World = World(now: int, row: Stamps, version: nat, workers: seq<Worker>)

  datatype Action =
    | Wait(ms: nat)
    | Commit(row: Stamps)
    | Forget(worker: nat)
    | Read(worker: nat, request: nat)
    | Store(worker: nat, request: nat)
    | GiveUp(worker: nat, request: nat)

  /** `ttl` is the cache lifetime; `gaps[w]` bounds worker w's time from row read to store. */
  datatype Setup = Setup(ttl: int, gaps: seq<nat>)

  ghost predicate Legal(w: World, a: Action, p: Setup) {
    && |w.workers| == |p.gaps|
    && match a
       case Wait(_) => true
       case Commit(row) => RowForward(w.row, row)
       case Forget(k) => k < |w.workers|
       case Read(k, _) => k < |w.workers|
       case Store(k, r) =>
         k < |w.workers| && r in w.workers[k].readings && w.now - w.workers[k].readings[r].readAt <= p.gaps[k]
       case GiveUp(k, _) => k < |w.workers|
  }

  function Next(w: World, a: Action, p: Setup): World
    requires Legal(w, a, p)
  {
    match a
    case Wait(ms) => w.(now := w.now + ms)
    case Commit(row) => w.(row := row, version := w.version + 1)
    case Forget(k) => w.(workers := w.workers[k := w.workers[k].(entry := None)])
    case Read(k, r) =>
      var reading := Reading(w.row, w.version, w.now);
      w.(workers := w.workers[k := w.workers[k].(readings := w.workers[k].readings[r := reading])])
    case Store(k, r) =>
      var worker, reading := w.workers[k], w.workers[k].readings[r];
      var entry := if p.ttl <= 0 then worker.entry
                   else Some(Entry(reading.stamps, w.now + p.ttl, reading.version, reading.readAt));
      w.(workers := w.workers[k := Worker(entry, worker.readings - {r})])
    case GiveUp(k, r) =>
      w.(workers := w.workers[k := w.workers[k].(readings := w.workers[k].readings - {r})])
  }

  ghost predicate Run(w: World, actions: seq<Action>, p: Setup, end: World)
    decreases |actions|
  {
    if actions == [] then end == w
    else Legal(w, actions[0], p) && Run(Next(w, actions[0], p), actions[1..], p, end)
  }

  /** The worker serves from the cache only inside the lifetime. */
  predicate Hit(w: World, k: nat, ttl: int)
    requires k < |w.workers|
  {
    ttl > 0 && w.workers[k].entry.Some? && w.now < w.workers[k].entry.value.deadline
  }

  /** `_load_current_user` does not refuse the token: judged by the cached stamps on a hit, by the row on a miss. */
  predicate Admits(w: World, k: nat, issuedAt: Option<int>, ttl: int)
    requires k < |w.workers|
  {
    !Invalid(issuedAt, if Hit(w, k, ttl) then w.workers[k].entry.value.stamps else w.row)
  }

  /** What a worker goes by: the cached stamps before the entry's deadline, with the cache on, and the row otherwise. */
  lemma {:induction false} AdmitsExactly(w: World, k: nat, second: int, ttl: int)
    requires k < |w.workers|
    ensures var entry := w.workers[k].entry;
      Admits(w, k, Some(second), ttl) <==>
        if ttl > 0 && entry.Some? && w.now < entry.value.deadline then !IssuedBy(second, entry.value.stamps)
        else !IssuedBy(second, w.row)
    ensures Admits(w, k, None, ttl)
  {
    RefusedExactly(Some(second), if Hit(w, k, ttl) then w.workers[k].entry.value.stamps else w.row);
  }

  /** A store keeps what was read, for one lifetime from the moment of storing; with the cache off it keeps nothing. */
  lemma {:induction false} StoreKeepsTheReading(w: World, k: nat, r: nat, p: Setup)
    requires Legal(w, Store(k, r), p)
    ensures var entry := Next(w, Store(k, r), p).workers[k].entry;
      if p.ttl <= 0 then entry == w.workers[k].entry
      else entry.Some? && entry.value.stamps == w.workers[k].readings[r].stamps && entry.value.deadline == w.now + p.ttl
  {
  }

  /** A worker that forgets its entry goes by the row at once. */
  lemma {:induction false} ForgettingIsFeltAtOnce(w: World, k: nat, second: int, p: Setup)
    requires Legal(w, Forget(k), p)
    ensures Admits(Next(w, Forget(k), p), k, Some(second), p.ttl) <==> !IssuedBy(second, w.row)
  {
    AdmitsExactly(Next(w, Forget(k), p), k, second, p.ttl);
  }

  // ---------------------------------------------------------------- what every run keeps

  function Start(now: int, row: Stamps, n: nat): World {
    World(now, row, 0, seq(n, _ => Worker(None, map[])))
  }

  ghost predicate FromBelow(readAt: int, version: nat, w: World) {
    readAt <= w.now && version <= w.version
  }

  ghost predicate WorkerOk(w: World, k: nat, p: Setup)
    requires k < |w.workers| == |p.gaps|
  {
    && (forall r | r in w.workers[k].readings ::
          FromBelow(w.workers[k].readings[r].readAt, w.workers[k].readings[r].version, w))
    && (w.workers[k].entry.Some? ==>
          var e := w.workers[k].entry.value;
          FromBelow(e.readAt, e.version, w) && e.deadline <= e.readAt + p.gaps[k] + p.ttl)
  }

  ghost predicate Ok(w: World, p: Setup) {
    |w.workers| == |p.gaps| && forall k: nat | k < |w.workers| :: WorkerOk(w, k, p)
  }

  lemma {:induction false} StepIsOk(w: World, a: Action, p: Setup)
    requires Ok(w, p) && Legal(w, a, p)
    ensures Ok(Next(w, a, p), p)
  {
    var t := Next(w, a, p);
    forall k: nat | k < |t.workers| ensures WorkerOk(t, k, p) {
      assert WorkerOk(w, k, p);
    }
  }

  lemma {:induction false} RunIsOk(w: World, actions: seq<Action>, p: Setup, end: World)
    requires Ok(w, p) && Run(w, actions, p, end)
    ensures Ok(end, p)
    decreases |actions|
  {
    if actions != [] {
      StepIsOk(w, actions[0], p);
      RunIsOk(Next(w, actions[0], p), actions[1..], p, end);
    }
  }

  /** Since the commit that made `version` current at `at`, anything read from an older row was read by then,
      and anything read since carries stamps that refuse the token. */
  ghost predicate Judged(stamps: Stamps, version: nat, readAt: int, since: nat, at: int, issuedAt: Option<int>) {
    if version >= since then Invalid(issuedAt, stamps) else readAt <= at
  }

  ghost predicate WorkerJudged(w: Worker, since: nat, at: int, issuedAt: Option<int>) {
    && (forall r | r in w.readings ::
          Judged(w.readings[r].stamps, w.readings[r].version, w.readings[r].readAt, since, at, issuedAt))
    && (w.entry.Some? ==>
          Judged(w.entry.value.stamps, w.entry.value.version, w.entry.value.readAt, since, at, issuedAt))
  }

  ghost predicate Revoked(w: World, since: nat, at: int, issuedAt: Option<int>) {
    && Invalid(issuedAt, w.row) && w.version >= since && w.now >= at
    && forall k: nat | k < |w.workers| :: WorkerJudged(w.workers[k], since, at, issuedAt)
  }

  lemma {:induction false} RevokedStep(w: World, a: Action, p: Setup, since: nat, at: int, issuedAt: Option<int>)
    requires Legal(w, a, p) && Revoked(w, since, at, issuedAt)
    ensures Revoked(Next(w, a, p), since, at, issuedAt)
  {
    var t := Next(w, a, p);
    if a.Commit? {
      InvalidStays(issuedAt, w.row, a.row);
    }
    forall k: nat | k < |t.workers| ensures WorkerJudged(t.workers[k], since, at, issuedAt) {
      assert WorkerJudged(w.workers[k], since, at, issuedAt);
    }
  }

  lemma {:induction false} RevokedRun(
      w: World, actions: seq<Action>, p: Setup, end: World, since: nat, at: int, issuedAt: Option<int>)
    requires Run(w, actions, p, end) && Revoked(w, since, at, issuedAt)
    ensures Revoked(end, since, at, issuedAt)
    decreases |actions|
  {
    if actions != [] {
      RevokedStep(w, actions[0], p, since, at, issuedAt);
      RevokedRun(Next(w, actions[0], p), actions[1..], p, end, since, at, issuedAt);
    }
  }

  /** After a change is committed at `changed`, any number of further actions later: a token issued no later than the
      second of the new password or MFA stamp is admitted by a worker exactly when that worker still serves an entry
      it read from the old row whose stamps the token is newer than, and never once the lifetime plus that worker's
      read-to-store gap has passed. */
  lemma {:induction false} RevocationIsBounded(
      start: World, before: seq<Action>, changed: World, row: Stamps, after: seq<Action>, end: World,
      p: Setup, second: int, k: nat)
    requires Ok(start, p) && Run(start, before, p, changed)
    requires Legal(changed, Commit(row), p)
    requires (row.password.Some? && second * 1_000_000 <= row.password.value)
          || (row.mfa.Some? && second * 1_000_000 <= row.mfa.value)
    requires Run(Next(changed, Commit(row), p), after, p, end) && k < |p.gaps| == |end.workers|
    ensures end.now >= changed.now + p.gaps[k] + p.ttl ==> !Admits(end, k, Some(second), p.ttl)
    ensures Admits(end, k, Some(second), p.ttl) <==>
      var entry := end.workers[k].entry;
      && p.ttl > 0 && entry.Some? && end.now < entry.value.deadline && entry.value.version <= changed.version
      && !IssuedBy(second, entry.value.stamps)
  {
    var issuedAt := Some(second);
    RefusedExactly(issuedAt, row);
    RunIsOk(start, before, p, changed);
    var committed := Next(changed, Commit(row), p);
    StepIsOk(changed, Commit(row), p);
    RunIsOk(committed, after, p, end);
    forall j: nat | j < |committed.workers|
      ensures WorkerJudged(committed.workers[j], changed.version + 1, changed.now, issuedAt)
    {
      assert WorkerOk(changed, j, p);
    }
    RevokedRun(committed, after, p, end, changed.version + 1, changed.now, issuedAt);
    assert WorkerOk(end, k, p) && WorkerJudged(end.workers[k], changed.version + 1, changed.now, issuedAt);
    if end.workers[k].entry.Some? {
      RefusedExactly(issuedAt, end.workers[k].entry.value.stamps);
    }
  }

  /** With the cache off nothing is ever served from it, so every change is felt at once. */
  lemma {:induction false} NoCacheNoDelay(
      start: World, before: seq<Action>, changed: World, row: Stamps, after: seq<Action>, end: World,
      p: Setup, second: int, k: nat)
    requires Ok(start, p) && Run(start, before, p, changed) && p.ttl <= 0
    requires Legal(changed, Commit(row), p) && IssuedBy(second, row)
    requires Run(Next(changed, Commit(row), p), after, p, end) && k < |p.gaps| == |end.workers|
    ensures !Admits(end, k, Some(second), p.ttl)
  {
    RevocationIsBounded(start, before, changed, row, after, end, p, second, k);
  }

  lemma {:induction false} StartIsOk(now: int, row: Stamps, p: Setup)
    ensures Ok(Start(now, row, |p.gaps|), p)
  {
    forall k: nat | k < |p.gaps| ensures WorkerOk(Start(now, row, |p.gaps|), k, p) { }
  }

  /** Both read off from the beginning: workers that have cached and read nothing yet. */
  lemma {:induction false} RevocationFromTheStart(
      now: int, first: Stamps, before: seq<Action>, changed: World, row: Stamps, after: seq<Action>, end: World,
      p: Setup, second: int, k: nat)
    requires Run(Start(now, first, |p.gaps|), before, p, changed)
    requires Legal(changed, Commit(row), p) && IssuedBy(second, row)
    requires Run(Next(changed, Commit(row), p), after, p, end) && k < |p.gaps| == |end.workers|
    ensures end.now >= changed.now + p.gaps[k] + p.ttl || p.ttl <= 0 ==> !Admits(end, k, Some(second), p.ttl)
    ensures Admits(end, k, Some(second), p.ttl) <==>
      var entry := end.workers[k].entry;
      && p.ttl > 0 && entry.Some? && end.now < entry.value.deadline && entry.value.version <= changed.version
      && !IssuedBy(second, entry.value.stamps)
  {
    StartIsOk(now, first, p);
    RevocationIsBounded(
      Start(now, first, |p.gaps|), before, changed, row, after, end, p, second, k);
  }

  /** The lifetime alone is not the bound: one worker reads the row, the change commits, and only then the entry
      is stored. For every lifetime and gap, and for a change of either credential, such a worker still admits a token
      the change refuses one millisecond before the lifetime plus the gap has passed since the commit. */
  lemma {:induction false} DelayReachesTheBound(ttl: nat, gap: nat, row: Stamps, second: int)
      returns (before: seq<Action>, after: seq<Action>, end: World)
    requires ttl >= 1 && IssuedBy(second, row)
    ensures var p := Setup(ttl, [gap]);
      var start := Start(0, Stamps(None, None), 1);
      exists changed ::
        && Run(start, before, p, changed) && Legal(changed, Commit(row), p)
        && Run(Next(changed, Commit(row), p), after, p, end) && end.now == changed.now + gap + ttl - 1
        && |end.workers| == 1 && Admits(end, 0, Some(second), ttl)
  {
    var p := Setup(ttl, [gap]);
    var start := Start(0, Stamps(None, None), 1);
    before := [Read(0, 0)];
    after := [Wait(gap), Store(0, 0), Wait(ttl - 1)];
    var changed := Next(start, before[0], p);
    assert Run(changed, before[1..], p, changed);
    var w0 := Next(changed, Commit(row), p);
    var w1 := Next(w0, after[0], p);
    var w2 := Next(w1, after[1], p);
    end := Next(w2, after[2], p);
    assert after[1..][1..] == [after[2]] && after[1..][0] == after[1];
    assert Run(end, [], p, end);
    assert Run(w2, after[1..][1..], p, end);
    assert Run(w1, after[1..], p, end);
    assert Run(w0, after, p, end);
    assert Run(start, before, p, changed);
  }
}
