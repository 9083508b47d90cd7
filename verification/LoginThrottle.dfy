/** The per-address failure counter, its refusal window and its escalation round. */
module LoginThrottle {
  import opened Prelude

  // ---------------------------------------------------------------- settings

  function MaxOf(s: seq<nat>): (m: nat)
    requires |s| > 0
    ensures m in s && forall x | x in s :: x <= m
  {
    if |s| == 1 then s[0]
    else
      var rest := MaxOf(s[1..]);
      assert forall x | x in s :: x == s[0] || x in s[1..];
      if s[0] >= rest then s[0] else rest
  }

  function MinOf(s: seq<nat>): (m: nat)
    requires |s| > 0
    ensures m in s && forall x | x in s :: m <= x
  {
    if |s| == 1 then s[0]
    else
      var rest := MinOf(s[1..]);
      assert forall x | x in s :: x == s[0] || x in s[1..];
      if s[0] <= rest then s[0] else rest
  }

  /** What `login_throttle_failures` and `login_throttle_windows` guarantee: both lists are positive. */
  datatype Config = Config(threshold: nat, windows: seq<nat>) {
    predicate Valid() {
      threshold >= 1 && |windows| >= 1 && forall w | w in windows :: w >= 1
    }

    function Decay(): (d: nat)
      requires Valid()
      ensures d >= 1 && forall w | w in windows :: w <= d
    {
      MaxOf(windows)
    }

    function Shortest(): (d: nat)
      requires Valid()
      ensures 1 <= d <= Decay() && forall w | w in windows :: d <= w
    {
      MinOf(windows)
    }

    /** The window length for an escalation round: the last entry repeats. */
    function Window(round: nat): (w: nat)
      requires Valid()
      ensures Shortest() <= w <= Decay()
    {
      assert windows[Min(round, |windows| - 1)] in windows;
      windows[Min(round, |windows| - 1)]
    }
  }

  // ---------------------------------------------------------------- one call

  datatype Keys = Keys(counter: Option<Stored>, window: Option<Stored>, round: Option<Stored>)

  const EMPTY := Keys(None, None, None)

  /** What Redis still holds at `now`. */
  function Visible(k: Keys, now: int): Keys {
    Keys(if Live(k.counter, now) then k.counter else None,
         if Live(k.window, now) then k.window else None,
         if Live(k.round, now) then k.round else None)
  }

  /** PTTL: milliseconds left, or a negative number when the key is absent. */
  function Pttl(key: Option<Stored>, now: int): int {
    if Live(key, now) then key.value.expiry - now else -2
  }

  /** What one event did. */
  datatype Mark = Refused(at: int) | Counted(at: int) | Opened(at: int, seconds: nat) | Cleared(at: int)

  datatype Outcome = Outcome(keys: Keys, remaining: int, mark: Mark)

  function Record(cfg: Config, k: Keys, now: int): Outcome
    requires cfg.Valid()
  {
    if Pttl(k.window, now) > 0 then Outcome(k, Pttl(k.window, now), Refused(now))
    else
      var failures := Read(k.counter, now) + 1;
      var expiry := if failures == 1 then now + Ms(cfg.Decay()) else k.counter.value.expiry;
      if failures < cfg.threshold then
        Outcome(k.(counter := Some(Stored(failures, expiry))), 0, Counted(now))
      else
        var round := Read(k.round, now);
        var seconds := cfg.Window(round);
        Outcome(
          Keys(None, Some(Stored(1, now + Ms(seconds))),
               Some(Stored(round + 1, now + Ms(seconds + cfg.Decay())))),
          Ms(seconds), Opened(now, seconds))
  }

  /** Whole seconds covering a remaining number of milliseconds, zero when nothing remains. */
  function WholeSeconds(remaining: int): int {
    if remaining <= 0 then 0 else Max(1, (remaining + 999) / 1000)
  }

  /** `seconds_until_retry` on the window marker. */
  function Gate(k: Keys, now: int): int {
    WholeSeconds(Pttl(k.window, now))
  }

  /** The three Redis keys of one address, updated command by command as the script does. */
  class AddressKeys {
    var counter: Option<Stored>
    var window: Option<Stored>
    var round: Option<Stored>

    constructor ()
      ensures Snapshot() == EMPTY
    {
      counter, window, round := None, None, None;
    }

    function Snapshot(): Keys
      reads this
    {
      Keys(counter, window, round)
    }

    /** INCR keeps the expiry of a live key and starts an absent one at 1 with no expiry of its own. */
    method Increment(now: int) returns (failures: nat)
      modifies this`counter
      ensures failures == Read(old(counter), now) + 1
      ensures counter == Some(Stored(failures, if Live(old(counter), now) then old(counter).value.expiry else now))
    {
      if Live(counter, now) {
        counter := Some(Stored(counter.value.value + 1, counter.value.expiry));
      } else {
        counter := Some(Stored(1, now));
      }
      failures := counter.value.value;
    }

    /** The `_RECORD_FAILURE` script. */
    method RecordScript(cfg: Config, now: int) returns (remaining: int)
      requires cfg.Valid()
      modifies this
      ensures Snapshot() == Record(cfg, old(Snapshot()), now).keys
      ensures remaining == Record(cfg, old(Snapshot()), now).remaining
    {
      var ttl := Pttl(window, now);
      if ttl > 0 {
        return ttl;
      }
      var failures := Increment(now);
      if failures == 1 {
        counter := Some(Stored(1, now + Ms(cfg.Decay())));
      }
      if failures < cfg.threshold {
        return 0;
      }
      var r := Read(round, now);
      var index := r;
      if index > |cfg.windows| - 1 {
        index := |cfg.windows| - 1;
      }
      var seconds := cfg.windows[index];
      window := Some(Stored(1, now + Ms(seconds)));
      counter := None;
      round := Some(Stored(r + 1, now + Ms(seconds + cfg.Decay())));
      return Ms(seconds);
    }

    /** `record_failure`: a disabled throttle or an unreachable Redis counts nothing and refuses nothing. */
    method RecordFailure(cfg: Config, enabled: bool, reachable: bool, now: int) returns (seconds: int)
      requires cfg.Valid()
      modifies this
      ensures !enabled || !reachable ==> Snapshot() == old(Snapshot()) && seconds == 0
      ensures enabled && reachable ==> Snapshot() == Record(cfg, old(Snapshot()), now).keys
      ensures enabled && reachable ==> seconds == Gate(Snapshot(), now)
    {
      if !enabled || !reachable {
        return 0;
      }
      var remaining := RecordScript(cfg, now);
      seconds := if remaining <= 0 then 0 else Max(1, (remaining + 999) / 1000);
    }

    /** `clear`: DEL on all three keys. */
    method Clear(enabled: bool, reachable: bool)
      modifies this
      ensures Snapshot() == if enabled && reachable then EMPTY else old(Snapshot())
    {
      if enabled && reachable {
        counter, window, round := None, None, None;
      }
    }
  }

  // ---------------------------------------------------------------- runs

  datatype Event = Fail(at: int) | Clear(at: int)

  ghost predicate Ordered(events: seq<Event>) {
    forall i, j | 0 <= i <= j < |events| :: events[i].at <= events[j].at
  }

  /** The keys plus what a bystander writes down: one mark an event, when each counter
      was created, and the counts that were thrown away unused. */
  datatype History = History(keys: Keys, log: seq<Mark>, starts: seq<int>, lapsed: nat, discarded: nat)

  /** The count still stored, whether or not it has expired. */
  function Held(k: Keys): nat {
    if k.counter.Some? then k.counter.value.value else 0
  }

  function Advance(cfg: Config, h: History, e: Event): History
    requires cfg.Valid()
  {
    match e
    case Clear(at) => h.(keys := EMPTY, log := h.log + [Cleared(at)], discarded := h.discarded + Held(h.keys))
    case Fail(at) =>
      var o := Record(cfg, h.keys, at);
      var creates := !o.mark.Refused? && !Live(h.keys.counter, at);
      History(o.keys, h.log + [o.mark], if creates then h.starts + [at] else h.starts,
              if creates then h.lapsed + Held(h.keys) else h.lapsed, h.discarded)
  }

  function Run(cfg: Config, events: seq<Event>): (h: History)
    requires cfg.Valid()
    ensures |h.log| == |events|
  {
    if events == [] then History(EMPTY, [], [], 0, 0)
    else Advance(cfg, Run(cfg, events[..|events| - 1]), events[|events| - 1])
  }

  /** Failures that reached the counter. */
  function CountedIn(log: seq<Mark>): nat {
    if log == [] then 0
    else CountedIn(log[..|log| - 1]) + if log[|log| - 1].Counted? || log[|log| - 1].Opened? then 1 else 0
  }

  function OpenedIn(log: seq<Mark>): nat {
    if log == [] then 0 else OpenedIn(log[..|log| - 1]) + if log[|log| - 1].Opened? then 1 else 0
  }

  lemma {:induction false} LogStep(cfg: Config, events: seq<Event>)
    requires cfg.Valid() && |events| > 0
    ensures var log := Run(cfg, events).log;
            log[..|log| - 1] == Run(cfg, events[..|events| - 1]).log && log[|log| - 1].at == events[|events| - 1].at
  {
  }

  lemma {:induction false} LogPrefix(cfg: Config, events: seq<Event>, i: nat)
    requires cfg.Valid() && i <= |events|
    ensures Run(cfg, events).log[..i] == Run(cfg, events[..i]).log
  {
    if i == |events| {
      assert events[..i] == events;
    } else {
      var front := events[..|events| - 1];
      LogPrefix(cfg, front, i);
      assert front[..i] == events[..i];
      assert Run(cfg, events).log[..i] == Run(cfg, front).log[..i];
    }
  }

  // ---------------------------------------------------------------- guess budget

  /** A stored count is positive and short of the threshold, because reaching it deletes the key. */
  lemma {:induction false} HeldBelowThreshold(cfg: Config, events: seq<Event>)
    requires cfg.Valid()
    ensures var k := Run(cfg, events).keys; k.counter.Some? ==> 1 <= k.counter.value.value < cfg.threshold
  {
    if events != [] {
      HeldBelowThreshold(cfg, events[..|events| - 1]);
    }
  }

  /** `each` added up `n` times. */
  function Total(each: nat, n: nat): nat {
    if n == 0 then 0 else Total(each, n - 1) + each
  }

  lemma {:induction false} TotalIsProduct(each: nat, n: nat)
    ensures Total(each, n) == each * n
  {
    if n > 0 {
      TotalIsProduct(each, n - 1);
      assert each * n == each * (n - 1) + each;
    }
  }

  ghost predicate Balanced(cfg: Config, h: History) {
    CountedIn(h.log) == Total(cfg.threshold, OpenedIn(h.log)) + h.lapsed + h.discarded + Held(h.keys)
  }

  lemma {:induction false} BalancedStep(cfg: Config, h: History, e: Event)
    requires cfg.Valid() && Balanced(cfg, h)
    requires h.keys.counter.Some? ==> 1 <= h.keys.counter.value.value < cfg.threshold
    ensures Balanced(cfg, Advance(cfg, h, e))
  {
    var after := Advance(cfg, h, e);
    assert after.log[..|after.log| - 1] == h.log;
  }

  lemma {:induction false} Accounts(cfg: Config, events: seq<Event>)
    requires cfg.Valid()
    ensures Balanced(cfg, Run(cfg, events))
  {
    if events != [] {
      var front := events[..|events| - 1];
      Accounts(cfg, front);
      HeldBelowThreshold(cfg, front);
      BalancedStep(cfg, Run(cfg, front), events[|events| - 1]);
    }
  }

  /** Every counted failure is paid into exactly one window, one lapsed or cleared counter, or the current one. */
  lemma {:induction false} Conservation(cfg: Config, events: seq<Event>)
    requires cfg.Valid()
    ensures var h := Run(cfg, events);
      CountedIn(h.log) == cfg.threshold * OpenedIn(h.log) + h.lapsed + h.discarded + Held(h.keys)
  {
    Accounts(cfg, events);
    TotalIsProduct(cfg.threshold, OpenedIn(Run(cfg, events).log));
  }

  ghost predicate NoClear(events: seq<Event>) {
    forall e | e in events :: e.Fail?
  }

  /** Where the next counter may start: after the held counter lapses, or after the window it opened. */
  ghost predicate Spaced(cfg: Config, h: History)
    requires cfg.Valid()
  {
    Apart(cfg, h) && Paid(cfg, h)
  }

  /** Each counter costs the budget at most one threshold. */
  ghost predicate Paid(cfg: Config, h: History) {
    CountedIn(h.log) + (if h.keys.counter.Some? then cfg.threshold - Held(h.keys) else 0)
      <= Total(cfg.threshold, |h.starts|)
  }

  ghost predicate Apart(cfg: Config, h: History)
    requires cfg.Valid()
  {
    && (forall i | 0 < i < |h.starts| :: h.starts[i] - h.starts[i - 1] >= Ms(cfg.Shortest()))
    && (h.keys.counter.Some? ==>
          |h.starts| > 0 && h.keys.counter.value.expiry == h.starts[|h.starts| - 1] + Ms(cfg.Decay()))
    && (h.keys.counter.None? && |h.starts| > 0 ==>
          h.keys.window.Some? && h.keys.window.value.expiry >= h.starts[|h.starts| - 1] + Ms(cfg.Shortest()))
  }

  lemma {:induction false} SpacedStep(cfg: Config, h: History, at: int)
    requires cfg.Valid() && Spaced(cfg, h)
    requires h.keys.counter.Some? ==> 1 <= h.keys.counter.value.value < cfg.threshold
    requires |h.starts| > 0 ==> h.starts[|h.starts| - 1] <= at
    ensures Spaced(cfg, Advance(cfg, h, Fail(at)))
  {
    ApartStep(cfg, h, at);
    PaidStep(cfg, h, at);
  }

  lemma {:induction false} ApartStep(cfg: Config, h: History, at: int)
    requires cfg.Valid() && Apart(cfg, h) && (h.keys.counter.Some? ==> h.keys.counter.value.value >= 1)
    requires |h.starts| > 0 ==> h.starts[|h.starts| - 1] <= at
    ensures Apart(cfg, Advance(cfg, h, Fail(at)))
  {
    var after := Advance(cfg, h, Fail(at));
    if after.starts != h.starts {
      assert after.starts == h.starts + [at];
      assert |h.starts| > 0 ==> at - h.starts[|h.starts| - 1] >= Ms(cfg.Shortest());
    }
  }

  lemma {:induction false} PaidStep(cfg: Config, h: History, at: int)
    requires cfg.Valid() && Paid(cfg, h)
    requires h.keys.counter.Some? ==> 1 <= h.keys.counter.value.value < cfg.threshold
    ensures Paid(cfg, Advance(cfg, h, Fail(at)))
  {
    var o, after := Record(cfg, h.keys, at), Advance(cfg, h, Fail(at));
    assert after.log[..|after.log| - 1] == h.log && after.log[|after.log| - 1] == o.mark;
  }

  lemma {:induction false} CountersAreSpaced(cfg: Config, events: seq<Event>)
    requires cfg.Valid() && Ordered(events) && NoClear(events)
    ensures Spaced(cfg, Run(cfg, events))
    ensures forall s | s in Run(cfg, events).starts :: |events| > 0 && events[0].at <= s <= events[|events| - 1].at
  {
    if events != [] {
      var front, e := events[..|events| - 1], events[|events| - 1];
      CountersAreSpaced(cfg, front);
      HeldBelowThreshold(cfg, front);
      assert e in events;
      var before := Run(cfg, front);
      if front != [] {
        assert front[|front| - 1].at <= e.at;
      }
      if before.starts != [] {
        assert before.starts[|before.starts| - 1] in before.starts;
      }
      SpacedStep(cfg, before, e.at);
    }
  }

  lemma {:induction false} StartsFitTheRun(starts: seq<int>, gap: nat, n: nat)
    requires n < |starts| && forall i | 0 < i < |starts| :: starts[i] - starts[i - 1] >= gap
    ensures starts[n] - starts[0] >= n * gap
  {
    if n > 0 {
      StartsFitTheRun(starts, gap, n - 1);
      assert n * gap == (n - 1) * gap + gap;
    }
  }

  lemma {:induction false} MulLe(a: int, b: int, c: nat)
    requires a <= b
    ensures a * c <= b * c
  {
  }

  lemma {:induction false} QuotientBound(n: nat, gap: nat, span: int)
    requires gap > 0 && n * gap <= span
    ensures n <= span / gap
  {
    var q := span / gap;
    assert span < q * gap + gap;
    if q < n {
      MulLe(q + 1, n, gap);
      assert false;
    }
  }

  lemma {:induction false} BudgetArithmetic(each: nat, n: nat, gap: nat, span: int)
    requires gap > 0 && span >= 0 && (n > 0 ==> (n - 1) * gap <= span)
    ensures Total(each, n) <= each * (span / gap + 1)
  {
    TotalIsProduct(each, n);
    if n > 0 {
      QuotientBound(n - 1, gap, span);
    }
    assert each * n <= each * (span / gap + 1);
  }

  /** The guess budget: however attempts are scheduled, a run of T milliseconds reaches the
      counter at most threshold * (T / shortest window + 1) times. */
  lemma {:induction false} GuessBudget(cfg: Config, events: seq<Event>)
    requires cfg.Valid() && Ordered(events) && NoClear(events) && |events| > 0
    ensures var span := events[|events| - 1].at - events[0].at;
      CountedIn(Run(cfg, events).log) <= cfg.threshold * (span / Ms(cfg.Shortest()) + 1)
  {
    CountersAreSpaced(cfg, events);
    HeldBelowThreshold(cfg, events);
    var starts, gap := Run(cfg, events).starts, Ms(cfg.Shortest());
    if starts != [] {
      StartsFitTheRun(starts, gap, |starts| - 1);
      assert starts[0] in starts && starts[|starts| - 1] in starts;
    }
    BudgetArithmetic(cfg.threshold, |starts|, gap, events[|events| - 1].at - events[0].at);
  }

  // ---------------------------------------------------------------- a fresh threshold for every window

  /** Failures counted since the last opening or clearing, at or after `from`. */
  function Fresh(log: seq<Mark>, from: int): nat {
    if log == [] then 0
    else
      var m := log[|log| - 1];
      if m.Opened? || m.Cleared? then 0
      else Fresh(log[..|log| - 1], from) + if m.Counted? && m.at >= from then 1 else 0
  }

  lemma {:induction false} FreshMonotone(log: seq<Mark>, early: int, late: int)
    requires early <= late
    ensures Fresh(log, late) <= Fresh(log, early)
  {
    if log != [] {
      FreshMonotone(log[..|log| - 1], early, late);
    }
  }

  /** A counter is exactly the failures counted in the one decay period its first failure
      started, so no schedule ever extends it. */
  ghost predicate CounterMatches(cfg: Config, h: History, last: int)
    requires cfg.Valid()
  {
    match h.keys.counter
    case None => forall from :: Fresh(h.log, from) == 0
    case Some(c) =>
      && 1 <= c.value && c.expiry <= last + Ms(cfg.Decay())
      && c.value == Fresh(h.log, c.expiry - Ms(cfg.Decay()))
      && Fresh(h.log, c.expiry) == 0
  }

  lemma {:induction false} FreshSnoc(log: seq<Mark>, m: Mark, from: int)
    ensures Fresh(log + [m], from) ==
      if m.Opened? || m.Cleared? then 0 else Fresh(log, from) + if m.Counted? && m.at >= from then 1 else 0
  {
    assert (log + [m])[..|log|] == log;
  }

  lemma {:induction false} CounterMatchesStep(cfg: Config, h: History, last: int, e: Event)
    requires cfg.Valid() && CounterMatches(cfg, h, last) && last <= e.at
    ensures CounterMatches(cfg, Advance(cfg, h, e), e.at)
  {
    var after := Advance(cfg, h, e);
    var m := after.log[|after.log| - 1];
    assert after.log == h.log + [m];
    match after.keys.counter
    case None =>
      forall from ensures Fresh(after.log, from) == 0 { FreshSnoc(h.log, m, from); }
    case Some(c) =>
      FreshSnoc(h.log, m, c.expiry - Ms(cfg.Decay()));
      FreshSnoc(h.log, m, c.expiry);
      if h.keys.counter.Some? && h.keys.counter.value.expiry <= e.at {
        FreshMonotone(h.log, h.keys.counter.value.expiry, e.at);
        FreshMonotone(h.log, h.keys.counter.value.expiry, e.at + Ms(cfg.Decay()));
      }
  }

  lemma {:induction false} CounterIsItsHistory(cfg: Config, events: seq<Event>, now: int)
    requires cfg.Valid() && Ordered(events) && (|events| > 0 ==> events[|events| - 1].at <= now)
    ensures CounterMatches(cfg, Run(cfg, events), now)
    decreases |events|
  {
    if events != [] {
      var front, e := events[..|events| - 1], events[|events| - 1];
      CounterIsItsHistory(cfg, front, e.at);
      CounterMatchesStep(cfg, Run(cfg, front), e.at, e);
    }
  }

  /** The event at `i` acted on the run of the events before it. */
  lemma {:induction false} MarkAt(cfg: Config, events: seq<Event>, i: nat) returns (h: History)
    requires cfg.Valid() && i < |events|
    ensures h == Run(cfg, events[..i]) && h.log == Run(cfg, events).log[..i]
    ensures Run(cfg, events).log[i].at == events[i].at
    ensures events[i].Clear? ==> Run(cfg, events).log[i].Cleared?
    ensures events[i].Fail? ==> Run(cfg, events).log[i] == Record(cfg, h.keys, events[i].at).mark
  {
    h := Run(cfg, events[..i]);
    LogPrefix(cfg, events, i);
    LogPrefix(cfg, events, i + 1);
    assert events[..i + 1][..i] == events[..i];
    assert Run(cfg, events[..i + 1]) == Advance(cfg, h, events[i]);
    assert Run(cfg, events).log[i] == Run(cfg, events).log[..i + 1][i];
  }

  lemma {:induction false} OpeningNeedsThreshold(cfg: Config, h: History, at: int)
    requires cfg.Valid() && CounterMatches(cfg, h, at)
    requires Record(cfg, h.keys, at).mark.Opened?
    ensures Fresh(h.log, at - Ms(cfg.Decay()) + 1) + 1 >= cfg.threshold
  {
    if Live(h.keys.counter, at) {
      FreshMonotone(h.log, at - Ms(cfg.Decay()) + 1, h.keys.counter.value.expiry - Ms(cfg.Decay()));
    }
  }

  /** Opening a window costs a whole threshold of failures counted after the previous
      opening and inside one decay period; a slow drip never opens one. */
  lemma {:induction false} OpeningCostsAThreshold(cfg: Config, events: seq<Event>, i: nat)
    requires cfg.Valid() && Ordered(events) && i < |events|
    requires Run(cfg, events).log[i].Opened?
    ensures Fresh(Run(cfg, events).log[..i], events[i].at - Ms(cfg.Decay()) + 1) + 1 >= cfg.threshold
  {
    var h := MarkAt(cfg, events, i);
    CounterIsItsHistory(cfg, events[..i], events[i].at);
    OpeningNeedsThreshold(cfg, h, events[i].at);
  }

  // ---------------------------------------------------------------- the ladder

  /** Openings in the unbroken chain ending at `now`: each less than its own length plus
      the decay before the next, none separated by a clear. */
  function Chain(cfg: Config, log: seq<Mark>, now: int): nat
    requires cfg.Valid()
    decreases |log|
  {
    if log == [] then 0
    else
      var front, m := log[..|log| - 1], log[|log| - 1];
      match m
      case Refused(_) => Chain(cfg, front, now)
      case Counted(_) => Chain(cfg, front, now)
      case Cleared(_) => 0
      case Opened(at, seconds) =>
        if now - at < Ms(seconds + cfg.Decay()) then Chain(cfg, front, at) + 1 else 0
  }

  lemma {:induction false} RoundIsTheChain(cfg: Config, events: seq<Event>, now: int)
    requires cfg.Valid()
    ensures Read(Run(cfg, events).keys.round, now) == Chain(cfg, Run(cfg, events).log, now)
    decreases |events|
  {
    if events != [] {
      var front, e := events[..|events| - 1], events[|events| - 1];
      LogStep(cfg, events);
      RoundIsTheChain(cfg, front, now);
      RoundIsTheChain(cfg, front, e.at);
    }
  }

  /** Every window opened has the length its place in the chain gives it. */
  lemma {:induction false} Ladder(cfg: Config, events: seq<Event>, i: nat)
    requires cfg.Valid() && i < |events|
    requires Run(cfg, events).log[i].Opened?
    ensures var log := Run(cfg, events).log;
      log[i].seconds == cfg.windows[Min(Chain(cfg, log[..i], events[i].at), |cfg.windows| - 1)]
  {
    var _ := MarkAt(cfg, events, i);
    RoundIsTheChain(cfg, events[..i], events[i].at);
  }

  ghost predicate Growing(windows: seq<nat>) {
    forall a, b | 0 <= a <= b < |windows| :: windows[a] <= windows[b]
  }

  ghost predicate Between(log: seq<Mark>, i: int, j: int) {
    0 <= i < j <= |log| && forall k | i < k < j :: log[k].Refused? || log[k].Counted?
  }

  lemma {:induction false} ChainSkips(cfg: Config, log: seq<Mark>, i: nat, j: nat, now: int)
    requires cfg.Valid() && Between(log, i, j)
    ensures Chain(cfg, log[..j], now) == Chain(cfg, log[..i + 1], now)
  {
    if j > i + 1 {
      assert log[..j][..j - 1] == log[..j - 1];
      ChainSkips(cfg, log, i, j - 1, now);
    }
  }

  /** Two consecutive openings: the ladder climbs inside the chain and restarts at the first
      window exactly when the earlier window plus the decay has passed. */
  lemma {:induction false} ConsecutiveOpenings(cfg: Config, events: seq<Event>, i: nat, j: nat)
    requires cfg.Valid() && i < j < |events|
    requires var log := Run(cfg, events).log; log[i].Opened? && log[j].Opened? && Between(log, i, j)
    ensures var log := Run(cfg, events).log;
      var close := events[j].at - events[i].at < Ms(log[i].seconds + cfg.Decay());
      && (!close ==> log[j].seconds == cfg.windows[0])
      && (close ==> Chain(cfg, log[..j], events[j].at) == Chain(cfg, log[..i], events[i].at) + 1)
      && (close && Growing(cfg.windows) ==> log[i].seconds <= log[j].seconds)
  {
    var log := Run(cfg, events).log;
    Ladder(cfg, events, i);
    Ladder(cfg, events, j);
    ChainSkips(cfg, log, i, j, events[j].at);
    assert log[..i + 1][..i] == log[..i];
    var _ := MarkAt(cfg, events, i);
  }

  // ---------------------------------------------------------------- forgetting and the gate

  /** No key outlives the last event by more than twice the decay. */
  lemma {:induction false} ExpiriesAreNear(cfg: Config, events: seq<Event>)
    requires cfg.Valid() && Ordered(events) && |events| > 0
    ensures var k, last, d := Run(cfg, events).keys, events[|events| - 1].at, Ms(cfg.Decay());
      && (k.counter.Some? ==> k.counter.value.expiry <= last + d)
      && (k.window.Some? ==> k.window.value.expiry <= last + d)
      && (k.round.Some? ==> k.round.value.expiry <= last + 2 * d)
  {
    var front := events[..|events| - 1];
    if front != [] {
      assert front[|front| - 1].at <= events[|events| - 1].at;
      ExpiriesAreNear(cfg, front);
    }
  }

  /** Twice the decay of quiet after any run leaves nothing: the address is as if never seen. */
  lemma {:induction false} QuietForgetsEverything(cfg: Config, events: seq<Event>, now: int)
    requires cfg.Valid() && Ordered(events)
    requires |events| > 0 ==> now >= events[|events| - 1].at + 2 * Ms(cfg.Decay())
    ensures Visible(Run(cfg, events).keys, now) == EMPTY
  {
    if events != [] {
      ExpiriesAreNear(cfg, events);
    }
  }

  /** The script sees only what Redis still holds, so forgetting is complete. */
  lemma {:induction false} RecordSeesOnlyVisible(cfg: Config, k: Keys, now: int)
    requires cfg.Valid()
    ensures var a, b := Record(cfg, k, now), Record(cfg, Visible(k, now), now);
      a.remaining == b.remaining && a.mark == b.mark && Visible(a.keys, now) == Visible(b.keys, now)
  {
  }

  /** The gate is closed exactly when a failure would not be counted, and then nothing moves. */
  lemma {:induction false} GateAgreesWithScript(cfg: Config, k: Keys, now: int)
    requires cfg.Valid()
    ensures Gate(k, now) == 0 <==> !Record(cfg, k, now).mark.Refused?
    ensures Gate(k, now) != 0 ==> Record(cfg, k, now).keys == k
    ensures var o := Record(cfg, k, now); Gate(o.keys, now) == WholeSeconds(o.remaining)
  {
  }

  /** The reported number of seconds is the least whole number that ends the refusal. */
  lemma {:induction false} WaitingEndsTheRefusal(k: Keys, now: int, wait: nat)
    ensures Gate(k, now + Ms(wait)) == 0 <==> wait >= Gate(k, now)
  {
    if Live(k.window, now) {
      var left := k.window.value.expiry - now;
      assert Gate(k, now) == (left + 999) / 1000;
      assert now + Ms(wait) < k.window.value.expiry <==> Ms(wait) < left;
    }
  }
}
