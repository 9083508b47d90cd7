/** What the escalation ladder does to the guess budget. */
module LadderBudget {
  import opened Prelude
  import opened LoginThrottle

  /** A window: when it was opened, for how long, and at which round. */
  datatype Opening = Opening(at: int, seconds: nat, round: nat)

  /** One counter from its first failure: either it opened a window, or it has not, and lapses. */
  datatype Stint = Stint(start: int, window: Option<Opening>)

  function Creates(cfg: Config, k: Keys, at: int): bool
    requires cfg.Valid()
  {
    !Record(cfg, k, at).mark.Refused? && !Live(k.counter, at)
  }

  /** The counters of a run, in order. */
  function StintsAfter(cfg: Config, st: seq<Stint>, k: Keys, at: int): seq<Stint>
    requires cfg.Valid()
  {
    var o := Record(cfg, k, at);
    var begun := if Creates(cfg, k, at) then st + [Stint(at, None)] else st;
    if o.mark.Opened? && begun != [] then
      var last := |begun| - 1;
      begun[last := begun[last].(window := Some(Opening(at, o.mark.seconds, Read(k.round, at))))]
    else begun
  }

  // ---------------------------------------------------------------- what the keys say about the counters

  ghost predicate RoundKey(cfg: Config, k: Keys, o: Opening)
    requires cfg.Valid()
  {
    k.round == Some(Stored(o.round + 1, o.at + Ms(o.seconds + cfg.Decay())))
  }

  /** The counter under way, or the last one. */
  ghost predicate LastOk(cfg: Config, st: seq<Stint>, k: Keys)
    requires cfg.Valid() && st != []
  {
    var last := st[|st| - 1];
    if last.window.Some? then
      var o := last.window.value;
      && k.counter.None? && k.window == Some(Stored(1, o.at + Ms(o.seconds))) && RoundKey(cfg, k, o)
    else
      && k.counter.Some? && k.counter.value.expiry == last.start + Ms(cfg.Decay()) && k.counter.value.value >= 1
      && (|st| >= 2 && st[|st| - 2].window.Some? ==> RoundKey(cfg, k, st[|st| - 2].window.value))
  }

  ghost predicate OpeningOk(cfg: Config, s: Stint)
    requires cfg.Valid()
  {
    s.window.Some? ==> s.window.value.at >= s.start && s.window.value.seconds == cfg.Window(s.window.value.round)
  }

  /** The next counter starts after the window the one before opened, or after that one lapsed; and its window is one
      rung up, unless the chain was broken. */
  ghost predicate FollowOk(cfg: Config, a: Stint, b: Stint)
    requires cfg.Valid()
  {
    if a.window.None? then b.start >= a.start + Ms(cfg.Decay())
    else
      var o := a.window.value;
      && b.start >= o.at + Ms(o.seconds)
      && (b.window.Some? && b.window.value.at - o.at < Ms(o.seconds + cfg.Decay()) ==>
            b.window.value.round == o.round + 1)
  }

  ghost predicate StintsOk(cfg: Config, st: seq<Stint>)
    requires cfg.Valid()
  {
    && (forall i | 0 <= i < |st| :: OpeningOk(cfg, st[i]))
    && (forall i | 0 < i < |st| :: FollowOk(cfg, st[i - 1], st[i]))
  }

  ghost predicate Tracks(cfg: Config, st: seq<Stint>, h: History, now: int)
    requires cfg.Valid()
  {
    && |st| == |h.starts| && (forall i | 0 <= i < |st| :: st[i].start == h.starts[i])
    && StintsOk(cfg, st) && (st == [] ==> h.keys == EMPTY) && (st != [] ==> LastOk(cfg, st, h.keys))
    && (st != [] ==> st[|st| - 1].start <= now)
  }

  /** A failure on a running counter. */
  lemma {:induction false} RunningStep(cfg: Config, st: seq<Stint>, k: Keys, at: int)
    requires cfg.Valid() && StintsOk(cfg, st) && st != [] && LastOk(cfg, st, k) && st[|st| - 1].start <= at
    requires Live(k.counter, at) && !Live(k.window, at)
    ensures var after := StintsAfter(cfg, st, k, at);
      StintsOk(cfg, after) && after != [] && LastOk(cfg, after, Record(cfg, k, at).keys)
  {
    var o, after, last := Record(cfg, k, at), StintsAfter(cfg, st, k, at), |st| - 1;
    if o.mark.Opened? {
      assert after == st[last := st[last].(window := Some(Opening(at, o.mark.seconds, Read(k.round, at))))];
      forall i | 0 < i < |after| ensures FollowOk(cfg, after[i - 1], after[i]) {
        assert FollowOk(cfg, st[i - 1], st[i]);
      }
    } else {
      assert after == st;
    }
  }

  /** A failure that starts a counter. */
  lemma {:induction false} StartingStep(cfg: Config, st: seq<Stint>, k: Keys, at: int)
    requires cfg.Valid() && StintsOk(cfg, st) && (st == [] ==> k == EMPTY) && (st != [] ==> LastOk(cfg, st, k))
    requires !Live(k.counter, at) && !Live(k.window, at)
    ensures var after := StintsAfter(cfg, st, k, at);
      StintsOk(cfg, after) && after != [] && LastOk(cfg, after, Record(cfg, k, at).keys)
  {
    var o, after := Record(cfg, k, at), StintsAfter(cfg, st, k, at);
    var window := if o.mark.Opened? then Some(Opening(at, o.mark.seconds, Read(k.round, at))) else None;
    var new' := Stint(at, window);
    assert after == st + [new'];
    forall i | 0 < i < |after| ensures FollowOk(cfg, after[i - 1], after[i]) {
      if i < |st| {
        assert FollowOk(cfg, st[i - 1], st[i]);
      }
    }
  }

  lemma {:induction false} TracksStep(cfg: Config, st: seq<Stint>, h: History, now: int, at: int)
    requires cfg.Valid() && Tracks(cfg, st, h, now) && now <= at
    ensures Tracks(cfg, StintsAfter(cfg, st, h.keys, at), Advance(cfg, h, Fail(at)), at)
  {
    if !Live(h.keys.window, at) {
      if Live(h.keys.counter, at) {
        RunningStep(cfg, st, h.keys, at);
      } else {
        StartingStep(cfg, st, h.keys, at);
      }
    }
  }

  lemma {:induction false} RunTracks(cfg: Config, events: seq<Event>, now: int) returns (st: seq<Stint>)
    requires cfg.Valid() && Ordered(events) && NoClear(events) && (|events| > 0 ==> events[|events| - 1].at <= now)
    ensures Tracks(cfg, st, Run(cfg, events), now)
  {
    if events == [] {
      st := [];
    } else {
      var front, e := events[..|events| - 1], events[|events| - 1];
      assert e in events;
      var before := RunTracks(cfg, front, e.at);
      st := StintsAfter(cfg, before, Run(cfg, front).keys, e.at);
      TracksStep(cfg, before, Run(cfg, front), e.at, e.at);
    }
  }

  // ---------------------------------------------------------------- a rung for each counter

  /** Whether `n` counters later the decay has passed, or all of them opened windows, each a rung up. */
  ghost predicate Climbs(cfg: Config, st: seq<Stint>, i: nat, n: nat)
    requires cfg.Valid() && i + n < |st|
  {
    || st[i + n].start - st[i].start >= Ms(cfg.Decay())
    || n == 0
    || (var s := st[i + n - 1];
        s.window.Some? && s.window.value.round >= n - 1 && s.window.value.at >= st[i].start)
  }

  lemma {:induction false} StartsAscend(cfg: Config, st: seq<Stint>, i: nat, j: nat)
    requires cfg.Valid() && StintsOk(cfg, st) && i <= j < |st|
    ensures st[i].start <= st[j].start
  {
    if i < j {
      StartsAscend(cfg, st, i, j - 1);
      assert FollowOk(cfg, st[j - 1], st[j]) && OpeningOk(cfg, st[j - 1]);
    }
  }

  lemma {:induction false} ClimbStep(cfg: Config, st: seq<Stint>, i: nat, n: nat)
    requires cfg.Valid() && StintsOk(cfg, st) && i + n + 1 < |st| && Climbs(cfg, st, i, n)
    ensures Climbs(cfg, st, i, n + 1)
  {
    var a, b := st[i + n], st[i + n + 1];
    assert FollowOk(cfg, st[i + n + 1 - 1], b) && OpeningOk(cfg, a);
    StartsAscend(cfg, st, i, i + n);
    StartsAscend(cfg, st, i + n, i + n + 1);
    if n > 0 && a.window.Some? {
      assert FollowOk(cfg, st[i + n - 1], a);
    }
  }

  lemma {:induction false} Climb(cfg: Config, st: seq<Stint>, i: nat, n: nat)
    requires cfg.Valid() && StintsOk(cfg, st) && i + n < |st|
    ensures Climbs(cfg, st, i, n)
  {
    if n > 0 {
      Climb(cfg, st, i, n - 1);
      ClimbStep(cfg, st, i, n - 1);
    }
  }

  /** The ladder ends at its longest window, as growing settings do. */
  ghost predicate EndsLongest(cfg: Config)
    requires cfg.Valid()
  {
    cfg.windows[|cfg.windows| - 1] == cfg.Decay()
  }

  /** As many counters as there are rungs take at least the decay. */
  lemma {:induction false} RungsTakeTheDecay(cfg: Config, st: seq<Stint>, i: nat)
    requires cfg.Valid() && EndsLongest(cfg) && StintsOk(cfg, st) && i + |cfg.windows| < |st|
    ensures st[i + |cfg.windows|].start - st[i].start >= Ms(cfg.Decay())
  {
    var n := |cfg.windows|;
    Climb(cfg, st, i, n);
    assert FollowOk(cfg, st[i + n - 1], st[i + n]) && OpeningOk(cfg, st[i + n - 1]);
  }

  /** In any run, as many successive counters as there are windows start at least the decay apart. */
  lemma {:induction false} LadderSpacesCounters(cfg: Config, events: seq<Event>, i: nat)
    requires cfg.Valid() && EndsLongest(cfg) && Ordered(events) && NoClear(events)
    requires i + |cfg.windows| < |Run(cfg, events).starts|
    ensures var starts := Run(cfg, events).starts; starts[i + |cfg.windows|] - starts[i] >= Ms(cfg.Decay())
  {
    var now := if events == [] then 0 else events[|events| - 1].at;
    var st := RunTracks(cfg, events, now);
    RungsTakeTheDecay(cfg, st, i);
  }

  lemma {:induction false} GrowingEndsLongest(cfg: Config)
    requires cfg.Valid() && Growing(cfg.windows)
    ensures EndsLongest(cfg)
  {
    var last := |cfg.windows| - 1;
    assert cfg.windows[last] in cfg.windows && cfg.Decay() in cfg.windows;
    var i :| 0 <= i <= last && cfg.windows[i] == cfg.Decay();
  }

  // ---------------------------------------------------------------- the budget

  /** `k` ladders of counters take `k` decays. */
  lemma {:induction false} LaddersFit(starts: seq<int>, rungs: nat, decay: nat, k: nat)
    requires forall i | 0 <= i < |starts| - rungs :: starts[i + rungs] - starts[i] >= decay
    requires rungs * k < |starts|
    ensures starts[rungs * k] - starts[0] >= decay * k
  {
    if k > 0 {
      assert rungs * k == rungs * (k - 1) + rungs && decay * k == decay * (k - 1) + decay;
      LaddersFit(starts, rungs, decay, k - 1);
      assert starts[rungs * (k - 1) + rungs] - starts[rungs * (k - 1)] >= decay;
    }
  }

  lemma {:induction false} NoMoreThan(starts: seq<int>, rungs: nat, decay: nat, k: nat, top: nat, time: nat)
    requires forall i | 0 <= i < |starts| - rungs :: starts[i + rungs] - starts[i] >= decay
    requires top == rungs * k && time == decay * k
    requires forall i | 0 <= i < |starts| :: starts[i] - starts[0] < time
    ensures |starts| <= top
  {
    if |starts| > top {
      LaddersFit(starts, rungs, decay, k);
    }
  }

  lemma {:induction false} FewCounters(starts: seq<int>, rungs: nat, decay: nat, from: int, to: int)
    requires decay > 0 && from <= to && forall s | s in starts :: from <= s <= to
    requires forall i | 0 <= i < |starts| - rungs :: starts[i + rungs] - starts[i] >= decay
    ensures |starts| <= rungs * ((to - from) / decay + 1)
  {
    var k := (to - from) / decay + 1;
    var top, time := rungs * k, decay * k;
    BeyondTheSpan(to - from, decay);
    forall i | 0 <= i < |starts| ensures starts[i] - starts[0] < time {
      assert starts[i] in starts && starts[0] in starts;
    }
    NoMoreThan(starts, rungs, decay, k, top, time);
  }

  lemma {:induction false} BeyondTheSpan(span: int, decay: nat)
    requires decay > 0 && span >= 0
    ensures decay * (span / decay + 1) > span
  {
    var q := span / decay;
    assert span == decay * q + span % decay;
    assert decay * (q + 1) == decay * q + decay;
  }

  lemma {:induction false} CountedWithinTotal(cfg: Config, events: seq<Event>)
    requires cfg.Valid() && Ordered(events) && NoClear(events)
    ensures CountedIn(Run(cfg, events).log) <= Total(cfg.threshold, |Run(cfg, events).starts|)
  {
    CountersAreSpaced(cfg, events);
    HeldBelowThreshold(cfg, events);
    assert Paid(cfg, Run(cfg, events));
  }

  lemma {:induction false} TotalWithin(each: nat, n: nat, most: nat)
    requires n <= most
    ensures Total(each, n) <= each * most
  {
    TotalIsProduct(each, n);
    MulLe(n, most, each);
  }

  /** The budget the ladder leaves: settings that end at their longest window, and no clearing. However attempts are
      scheduled, a run of T milliseconds reaches the counter at most threshold times the number of windows times
      (T / decay + 1) times, which does not depend on how short the first windows are. */
  lemma {:induction false} LadderGuessBudget(cfg: Config, events: seq<Event>)
    requires cfg.Valid() && EndsLongest(cfg) && Ordered(events) && NoClear(events) && |events| > 0
    ensures var span := events[|events| - 1].at - events[0].at;
      CountedIn(Run(cfg, events).log) <= cfg.threshold * (|cfg.windows| * (span / Ms(cfg.Decay()) + 1))
  {
    var h, first, last := Run(cfg, events), events[0].at, events[|events| - 1].at;
    var most := |cfg.windows| * ((last - first) / Ms(cfg.Decay()) + 1);
    CountersAreSpaced(cfg, events);
    forall i | 0 <= i < |h.starts| - |cfg.windows|
      ensures h.starts[i + |cfg.windows|] - h.starts[i] >= Ms(cfg.Decay())
    {
      LadderSpacesCounters(cfg, events, i);
    }
    FewCounters(h.starts, |cfg.windows|, Ms(cfg.Decay()), first, last);
    CountedWithinTotal(cfg, events);
    TotalWithin(cfg.threshold, |h.starts|, most);
  }
}
