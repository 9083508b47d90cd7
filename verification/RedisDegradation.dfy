/** Rate-limited warnings about a failing Redis that lose no count. */
module RedisDegradation {
  import opened Prelude

  /** A control and what it was attempting. */
  datatype Key = Key(component: string, action: string)

  datatype ActionState = ActionState(count: nat, lastDegradedAt: real, lastLoggedAt: real, suppressed: nat)

  /** A warning written to the log: when, and how many calls it stands for besides its own. */
  datatype Line = Line(key: Key, at: real, suppressed: nat)

  /** The module's dictionary, its keys in insertion order, and the log so far. */
  datatype Record = Record(order: seq<Key>, state: map<Key, ActionState>, lines: seq<Line>)

  /** One call of `record` and the clock reading it took; readings may go backwards. */
  datatype Call = Call(key: Key, now: real)

  datatype Entry = Entry(count: nat, lastDegradedAt: real)

  const INTERVAL := 60.0
  const FRESH := ActionState(0, 0.0, 0.0, 0)
  const EMPTY := Record([], map[], [])

  function StateOf(r: Record, k: Key): ActionState {
    if k in r.state then r.state[k] else FRESH
  }

  predicate Logs(s: ActionState, now: real) {
    now - s.lastLoggedAt >= INTERVAL
  }

  function Touched(s: ActionState, now: real): ActionState {
    if Logs(s, now) then ActionState(s.count + 1, now, now, 0)
    else ActionState(s.count + 1, now, s.lastLoggedAt, s.suppressed + 1)
  }

  function Next(r: Record, c: Call): Record {
    var s := StateOf(r, c.key);
    Record(if c.key in r.state then r.order else r.order + [c.key],
           r.state[c.key := Touched(s, c.now)],
           if Logs(s, c.now) then r.lines + [Line(c.key, c.now, s.suppressed)] else r.lines)
  }

  function Run(calls: seq<Call>): Record {
    if calls == [] then EMPTY else Next(Run(calls[..|calls| - 1]), calls[|calls| - 1])
  }

  // ---------------------------------------------------------------- what the calls amount to

  function Max2(a: real, b: real): real {
    if a >= b then a else b
  }

  function CallsOf(calls: seq<Call>, k: Key): nat {
    if calls == [] then 0
    else CallsOf(calls[..|calls| - 1], k) + if calls[|calls| - 1].key == k then 1 else 0
  }

  function ComponentCalls(calls: seq<Call>, component: string): nat {
    if calls == [] then 0
    else
      var last := calls[|calls| - 1];
      ComponentCalls(calls[..|calls| - 1], component) + if last.key.component == component then 1 else 0
  }

  /** The lines of one key, in order. */
  function LinesOf(lines: seq<Line>, k: Key): (ls: seq<Line>)
    ensures forall l | l in ls :: l in lines && l.key == k
  {
    if lines == [] then []
    else LinesOf(lines[..|lines| - 1], k) + if lines[|lines| - 1].key == k then [lines[|lines| - 1]] else []
  }

  function Reported(ls: seq<Line>): nat {
    if ls == [] then 0 else Reported(ls[..|ls| - 1]) + ls[|ls| - 1].suppressed
  }

  // ---------------------------------------------------------------- the summary

  function Total(order: seq<Key>, state: map<Key, ActionState>, component: string): nat
    requires forall k | k in order :: k in state
  {
    if order == [] then 0
    else
      var last := order[|order| - 1];
      Total(order[..|order| - 1], state, component) + if last.component == component then state[last].count else 0
  }

  function Latest(order: seq<Key>, state: map<Key, ActionState>, component: string): real
    requires forall k | k in order :: k in state
  {
    if order == [] then 0.0
    else
      var last, rest := order[|order| - 1], Latest(order[..|order| - 1], state, component);
      if last.component == component then Max2(rest, state[last].lastDegradedAt) else rest
  }

  ghost predicate Tidy(r: Record) {
    && (forall k | k in r.order :: k in r.state)
    && (forall k | k in r.state :: k in r.order)
    && (forall i, j | 0 <= i < j < |r.order| :: r.order[i] != r.order[j])
  }

  class Tracker {
    var order: seq<Key>
    var state: map<Key, ActionState>
    var lines: seq<Line>

    constructor ()
      ensures Contents() == EMPTY
    {
      order, state, lines := [], map[], [];
    }

    function Contents(): Record
      reads this
    {
      Record(order, state, lines)
    }

    /** `record`. */
    method Note(component: string, action: string, now: real) returns (shouldLog: bool)
      modifies this
      ensures Contents() == Next(old(Contents()), Call(Key(component, action), now))
      ensures shouldLog <==> lines != old(lines)
    {
      var key := Key(component, action);
      if key !in state {
        state := state[key := FRESH];
        order := order + [key];
      }
      var s := state[key];
      s := s.(count := s.count + 1);
      s := s.(lastDegradedAt := now);
      shouldLog := now - s.lastLoggedAt >= INTERVAL;
      var suppressed := 0;
      if shouldLog {
        suppressed := s.suppressed;
        s := s.(lastLoggedAt := now);
        s := s.(suppressed := 0);
      } else {
        s := s.(suppressed := s.suppressed + 1);
      }
      state := state[key := s];
      if shouldLog {
        lines := lines + [Line(key, now, suppressed)];
      }
    }

    /** `snapshot`. */
    method Snapshot() returns (totals: map<string, Entry>)
      requires forall k | k in order :: k in state
      ensures Summarises(totals, order, state)
    {
      var items, states := order, state;
      totals := map[];
      for i := 0 to |items|
        invariant Summarises(totals, items[..i], states)
      {
        var k, s := items[i], states[items[i]];
        var entry := if k.component in totals then totals[k.component] else Entry(0, 0.0);
        entry := Entry(entry.count + s.count, Max2(entry.lastDegradedAt, s.lastDegradedAt));
        SummaryGrows(totals, items[..i], states, k, entry);
        totals := totals[k.component := entry];
        assert items[..i + 1] == items[..i] + [k];
      }
      assert items[..|items|] == items;
    }
  }

  predicate Known(order: seq<Key>, component: string) {
    exists k | k in order :: k.component == component
  }

  /** What `snapshot` returns: each component that has degraded, with its total count and latest time. */
  ghost predicate Summarises(totals: map<string, Entry>, order: seq<Key>, state: map<Key, ActionState>)
    requires forall k | k in order :: k in state
  {
    && (forall c :: c in totals <==> Known(order, c))
    && (forall c | c in totals :: totals[c] == Entry(Total(order, state, c), Latest(order, state, c)))
  }

  lemma {:induction false} Unknown(order: seq<Key>, state: map<Key, ActionState>, component: string)
    requires (forall k | k in order :: k in state) && !Known(order, component)
    ensures Total(order, state, component) == 0 && Latest(order, state, component) == 0.0
  {
    if order != [] {
      assert order[|order| - 1] in order && forall k | k in order[..|order| - 1] :: k in order;
      Unknown(order[..|order| - 1], state, component);
    }
  }

  lemma {:induction false} OneMoreKey(order: seq<Key>, state: map<Key, ActionState>, k: Key, c: string)
    requires k in state && forall x | x in order :: x in state
    ensures Known(order + [k], c) <==> Known(order, c) || c == k.component
    ensures Total(order + [k], state, c) == Total(order, state, c) + if k.component == c then state[k].count else 0
    ensures k.component != c ==> Latest(order + [k], state, c) == Latest(order, state, c)
    ensures k.component == c ==> Latest(order + [k], state, c) == Max2(Latest(order, state, c), state[k].lastDegradedAt)
  {
    var grown := order + [k];
    assert grown[..|order|] == order && k in grown;
    if Known(order, c) {
      var x :| x in order && x.component == c;
      assert x in grown;
    }
  }

  lemma {:induction false} SummaryGrows(
    totals: map<string, Entry>, order: seq<Key>, state: map<Key, ActionState>, k: Key, entry: Entry)
    requires k in state && (forall x | x in order :: x in state) && Summarises(totals, order, state)
    requires var e := if k.component in totals then totals[k.component] else Entry(0, 0.0);
      entry == Entry(e.count + state[k].count, Max2(e.lastDegradedAt, state[k].lastDegradedAt))
    ensures Summarises(totals[k.component := entry], order + [k], state)
  {
    var t, grown := totals[k.component := entry], order + [k];
    forall c ensures c in t <==> Known(grown, c) { OneMoreKey(order, state, k, c); }
    forall c | c in t ensures t[c] == Entry(Total(grown, state, c), Latest(grown, state, c)) {
      OneMoreKey(order, state, k, c);
      if c !in totals {
        Unknown(order, state, c);
      }
    }
  }

  // ---------------------------------------------------------------- every call is accounted for

  /** When the last of these lines was written; zero if there is none. */
  function LastLine(ls: seq<Line>): real {
    if ls == [] then 0.0 else ls[|ls| - 1].at
  }

  /** `k`'s lines are at least `INTERVAL` apart, and the state remembers the last. */
  ghost predicate Spaced(ls: seq<Line>, s: ActionState) {
    && (forall i, j | 0 <= i < j < |ls| :: ls[j].at - ls[i].at >= INTERVAL * (j - i) as real)
    && s.lastLoggedAt == LastLine(ls)
  }

  ghost predicate Accounted(r: Record, k: Key, calls: nat) {
    var ls := LinesOf(r.lines, k);
    && StateOf(r, k).count == calls
    && calls == |ls| + Reported(ls) + StateOf(r, k).suppressed
    && (k in r.state <==> calls > 0)
  }

  lemma {:induction false} OneMoreLine(lines: seq<Line>, l: Line, k: Key)
    ensures LinesOf(lines + [l], k) == LinesOf(lines, k) + if l.key == k then [l] else []
  {
    assert (lines + [l])[..|lines|] == lines;
  }

  lemma {:induction false} ReportedGrows(ls: seq<Line>, l: Line)
    ensures Reported(ls + [l]) == Reported(ls) + l.suppressed
  {
    assert (ls + [l])[..|ls|] == ls;
  }

  lemma {:induction false} AccountedStep(r: Record, c: Call, k: Key, calls: nat)
    requires Accounted(r, k, calls)
    ensures Accounted(Next(r, c), k, calls + if c.key == k then 1 else 0)
  {
    LinesAfter(r, c, k);
    if c.key == k && Logs(StateOf(r, k), c.now) {
      ReportedGrows(LinesOf(r.lines, k), Line(k, c.now, StateOf(r, k).suppressed));
    } else {
      assert LinesOf(r.lines, k) + [] == LinesOf(r.lines, k);
    }
  }

  lemma {:induction false} SpacedGrows(ls: seq<Line>, s: ActionState, line: Line)
    requires Spaced(ls, s) && Logs(s, line.at)
    ensures Spaced(ls + [line], Touched(s, line.at))
  {
    var grown := ls + [line];
    forall i, j | 0 <= i < j < |grown| ensures grown[j].at - grown[i].at >= INTERVAL * (j - i) as real {
      if j == |ls| {
        assert ls[j - 1].at - ls[i].at >= INTERVAL * (j - 1 - i) as real;
      }
    }
  }

  lemma {:induction false} SpacedStep(r: Record, c: Call, k: Key)
    requires Spaced(LinesOf(r.lines, k), StateOf(r, k))
    ensures Spaced(LinesOf(Next(r, c).lines, k), StateOf(Next(r, c), k))
  {
    LinesAfter(r, c, k);
    if c.key == k && Logs(StateOf(r, k), c.now) {
      SpacedGrows(LinesOf(r.lines, k), StateOf(r, k), Line(k, c.now, StateOf(r, k).suppressed));
    }
  }

  lemma {:induction false} LinesAfter(r: Record, c: Call, k: Key)
    ensures var s := StateOf(r, k);
      && StateOf(Next(r, c), k) == (if c.key == k then Touched(s, c.now) else s)
      && LinesOf(Next(r, c).lines, k)
         == LinesOf(r.lines, k) + if c.key == k && Logs(s, c.now) then [Line(k, c.now, s.suppressed)] else []
  {
    OneMoreLine(r.lines, Line(c.key, c.now, StateOf(r, c.key).suppressed), k);
  }

  /** Whatever the clock does: calls are lines, plus what the lines report, plus what the next one will. */
  lemma {:induction false} EveryCallIsAccountedFor(calls: seq<Call>, k: Key)
    ensures var r := Run(calls);
      var ls := LinesOf(r.lines, k);
      CallsOf(calls, k) == |ls| + Reported(ls) + StateOf(r, k).suppressed
    ensures Accounted(Run(calls), k, CallsOf(calls, k))
  {
    if calls != [] {
      EveryCallIsAccountedFor(calls[..|calls| - 1], k);
      AccountedStep(Run(calls[..|calls| - 1]), calls[|calls| - 1], k, CallsOf(calls[..|calls| - 1], k));
    }
  }

  /** Lines of one key are at least a minute apart, so no stretch of T seconds holds more than T / 60 + 1. */
  lemma {:induction false} LinesAreSpaced(calls: seq<Call>, k: Key)
    ensures var ls := LinesOf(Run(calls).lines, k);
      forall i, j | 0 <= i < j < |ls| :: ls[j].at - ls[i].at >= 60.0 * (j - i) as real
    ensures Spaced(LinesOf(Run(calls).lines, k), StateOf(Run(calls), k))
  {
    if calls != [] {
      LinesAreSpaced(calls[..|calls| - 1], k);
      SpacedStep(Run(calls[..|calls| - 1]), calls[|calls| - 1], k);
    }
  }

  /** A call writes a line exactly when the last line of its key is a minute old or more, and that line reports every
      call since, whatever the clock has done before. */
  lemma {:induction false} LineIsWrittenIff(calls: seq<Call>, c: Call) returns (since: nat)
    ensures var ls := LinesOf(Run(calls).lines, c.key); since == CallsOf(calls, c.key) - |ls| - Reported(ls)
    ensures var lines := Run(calls).lines;
      Run(calls + [c]).lines ==
        if c.now - LastLine(LinesOf(lines, c.key)) >= 60.0 then lines + [Line(c.key, c.now, since)] else lines
  {
    since := StateOf(Run(calls), c.key).suppressed;
    assert (calls + [c])[..|calls|] == calls;
    EveryCallIsAccountedFor(calls, c.key);
    LinesAreSpaced(calls, c.key);
  }

  /** So the first call of a key is always written, by any clock past its first minute. */
  lemma {:induction false} FirstCallIsWritten(calls: seq<Call>, c: Call)
    requires CallsOf(calls, c.key) == 0 && c.now >= 60.0
    ensures Run(calls + [c]).lines == Run(calls).lines + [Line(c.key, c.now, 0)]
  {
    EveryCallIsAccountedFor(calls, c.key);
    var since := LineIsWrittenIff(calls, c);
  }

  // ---------------------------------------------------------------- the summary is the calls

  lemma {:induction false} TidyStep(r: Record, c: Call)
    requires Tidy(r)
    ensures Tidy(Next(r, c))
  {
    assert c.key !in r.state ==> c.key !in r.order;
  }

  lemma {:induction false} RunIsTidy(calls: seq<Call>)
    ensures Tidy(Run(calls))
  {
    if calls != [] {
      RunIsTidy(calls[..|calls| - 1]);
      TidyStep(Run(calls[..|calls| - 1]), calls[|calls| - 1]);
    }
  }

  lemma {:induction false} TotalElsewhere(
    order: seq<Key>, state: map<Key, ActionState>, k: Key, s: ActionState, component: string)
    requires (forall x | x in order :: x in state) && k !in order
    ensures Total(order, state[k := s], component) == Total(order, state, component)
  {
    if order != [] {
      TotalElsewhere(order[..|order| - 1], state, k, s, component);
    }
  }

  lemma {:induction false} TotalMoves(
    order: seq<Key>, state: map<Key, ActionState>, k: Key, s: ActionState, component: string)
    requires (forall x | x in order :: x in state) && k in order && k.component == component
    requires forall i, j | 0 <= i < j < |order| :: order[i] != order[j]
    ensures Total(order, state[k := s], component) == Total(order, state, component) - state[k].count + s.count
  {
    var front, last := order[..|order| - 1], order[|order| - 1];
    assert order == front + [last];
    if last == k {
      TotalElsewhere(front, state, k, s, component);
    } else {
      TotalMoves(front, state, k, s, component);
    }
  }

  lemma {:induction false} TotalForeign(
    order: seq<Key>, state: map<Key, ActionState>, k: Key, s: ActionState, component: string)
    requires (forall x | x in order :: x in state) && k.component != component
    ensures Total(order, state[k := s], component) == Total(order, state, component)
  {
    if order != [] {
      TotalForeign(order[..|order| - 1], state, k, s, component);
    }
  }

  lemma {:induction false} TotalStep(r: Record, c: Call, component: string)
    requires Tidy(r) && Tidy(Next(r, c))
    ensures Total(Next(r, c).order, Next(r, c).state, component) ==
      Total(r.order, r.state, component) + if c.key.component == component then 1 else 0
  {
    var k, s := c.key, Touched(StateOf(r, c.key), c.now);
    if k !in r.state {
      assert (r.order + [k])[..|r.order|] == r.order;
      TotalElsewhere(r.order, r.state, k, s, component);
    } else if k.component == component {
      TotalMoves(r.order, r.state, k, s, component);
    } else {
      TotalForeign(r.order, r.state, k, s, component);
    }
  }

  ghost predicate Counts(r: Record, component: string, n: nat) {
    Tidy(r) && Total(r.order, r.state, component) == n && (Known(r.order, component) <==> n > 0)
  }

  lemma {:induction false} CountsStep(r: Record, c: Call, component: string, n: nat)
    requires Counts(r, component, n)
    ensures Counts(Next(r, c), component, n + if c.key.component == component then 1 else 0)
  {
    TidyStep(r, c);
    TotalStep(r, c, component);
    KnownStep(r, c, component);
  }

  /** The count `snapshot` shows for a component is exactly how often it degraded. */
  lemma {:induction false} SnapshotCountsEveryCall(calls: seq<Call>, component: string)
    ensures Counts(Run(calls), component, ComponentCalls(calls, component))
  {
    if calls != [] {
      var front, c := calls[..|calls| - 1], calls[|calls| - 1];
      SnapshotCountsEveryCall(front, component);
      CountsStep(Run(front), c, component, ComponentCalls(front, component));
    }
  }

  lemma {:induction false} KnownStep(r: Record, c: Call, component: string)
    requires Tidy(r)
    ensures Known(Next(r, c).order, component) <==> Known(r.order, component) || c.key.component == component
  {
    var t := Next(r, c);
    if Known(r.order, component) {
      var k :| k in r.order && k.component == component;
      assert k in t.order;
    }
    if c.key.component == component {
      assert c.key in t.order;
    }
  }

  // ---------------------------------------------------------------- and its time is the latest

  /** Readings that start at zero or later and never go back. */
  ghost predicate Forward(calls: seq<Call>) {
    && (calls != [] ==> calls[0].now >= 0.0)
    && forall i, j | 0 <= i < j < |calls| :: calls[i].now <= calls[j].now
  }

  lemma {:induction false} LatestCovers(order: seq<Key>, state: map<Key, ActionState>, k: Key)
    requires (forall x | x in order :: x in state) && k in order
    ensures state[k].lastDegradedAt <= Latest(order, state, k.component)
  {
    var front, last := order[..|order| - 1], order[|order| - 1];
    assert order == front + [last];
    if k != last {
      LatestCovers(front, state, k);
    }
  }

  lemma {:induction false} LatestBelow(order: seq<Key>, state: map<Key, ActionState>, component: string, bound: real)
    requires (forall x | x in order :: x in state) && bound >= 0.0
    requires forall k | k in order :: state[k].lastDegradedAt <= bound
    ensures Latest(order, state, component) <= bound
  {
    if order != [] {
      LatestBelow(order[..|order| - 1], state, component, bound);
    }
  }

  /** The reading of the component's last call, or zero. */
  function LastReading(calls: seq<Call>, component: string): real {
    if calls == [] then 0.0
    else if calls[|calls| - 1].key.component == component then calls[|calls| - 1].now
    else LastReading(calls[..|calls| - 1], component)
  }

  lemma {:induction false} NothingIsLater(calls: seq<Call>, k: Key)
    requires Forward(calls) && calls != []
    ensures 0.0 <= StateOf(Run(calls), k).lastDegradedAt <= calls[|calls| - 1].now
  {
    var front, c := calls[..|calls| - 1], calls[|calls| - 1];
    if front != [] {
      NothingIsLater(front, k);
    }
  }

  lemma {:induction false} LatestForeign(
    order: seq<Key>, state: map<Key, ActionState>, k: Key, s: ActionState, component: string)
    requires (forall x | x in order :: x in state) && k.component != component
    ensures Latest(order, state[k := s], component) == Latest(order, state, component)
  {
    if order != [] {
      LatestForeign(order[..|order| - 1], state, k, s, component);
    }
  }

  lemma {:induction false} LastCallIsLatest(r: Record, c: Call)
    requires (forall k | k in r.order :: k in r.state) && c.now >= 0.0
    requires forall k | k in r.order :: r.state[k].lastDegradedAt <= c.now
    requires c.key in r.order && r.state[c.key].lastDegradedAt == c.now
    ensures Latest(r.order, r.state, c.key.component) == c.now
  {
    LatestCovers(r.order, r.state, c.key);
    LatestBelow(r.order, r.state, c.key.component, c.now);
  }

  /** On a clock that never goes back, the time `snapshot` shows is that of the component's last call. */
  lemma {:induction false} SnapshotShowsTheLastCall(calls: seq<Call>, component: string)
    requires Forward(calls)
    ensures Tidy(Run(calls))
    ensures Latest(Run(calls).order, Run(calls).state, component) == LastReading(calls, component)
  {
    RunIsTidy(calls);
    if calls != [] {
      var front, c := calls[..|calls| - 1], calls[|calls| - 1];
      if c.key.component == component {
        forall k | k in Run(calls).order ensures Run(calls).state[k].lastDegradedAt <= c.now {
          NothingIsLater(calls, k);
        }
        LastCallIsLatest(Run(calls), c);
      } else {
        SnapshotShowsTheLastCall(front, component);
        var r := Run(front);
        LatestForeign(r.order, r.state, c.key, Touched(StateOf(r, c.key), c.now), component);
        assert (r.order + [c.key])[..|r.order|] == r.order;
      }
    }
  }
}
