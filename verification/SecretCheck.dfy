/** The startup check on key material: template markers, few characters, one block repeated. */
module SecretCheck {
  import opened Prelude
  import opened PyStrings

  predicate Contains(hay: string, needle: string) {
    Find(hay, needle, 0) != -1
  }

  // ---------------------------------------------------------------- the check

  const MARKERS: seq<string> := [
    "change", "replace", "placeholder", "example", "your-secret", "your_secret", "yoursecret", "insecure",
    "do-not-use", "donotuse", "dev-only", "min-32-chars"]

  const MIN_DISTINCT := 8

  datatype Reason = HasMarker(marker: string) | FewCharacters(distinct: nat) | RepeatedBlock

  function Characters(v: string): set<char> {
    set c | c in v
  }

  /** The doubled-string test. */
  predicate LooksRepeated(v: string) {
    Find(v + v, v, 1) != |v|
  }

  function FirstMarker(lowered: string, markers: seq<string>): (m: Option<string>)
    ensures m.None? <==> forall x | x in markers :: !Contains(lowered, x)
    ensures m.Some? ==> m.value in markers && Contains(lowered, m.value)
  {
    if markers == [] then None
    else if Contains(lowered, markers[0]) then Some(markers[0])
    else FirstMarker(lowered, markers[1..])
  }

  /** `placeholder_secret_reason`; `lowered` is `value.lower()`. */
  function PlaceholderReason(value: string, lowered: string): Option<Reason> {
    var marker := FirstMarker(lowered, MARKERS);
    if marker.Some? then Some(HasMarker(marker.value))
    else if |Characters(value)| < MIN_DISTINCT then Some(FewCharacters(|Characters(value)|))
    else if LooksRepeated(value) then Some(RepeatedBlock)
    else None
  }

  // ---------------------------------------------------------------- periodicity

  function Repeat(block: string, times: nat): string {
    if times == 0 then "" else Repeat(block, times - 1) + block
  }

  /** `v` is a block written at least twice; a shorter one, unless `v` is empty. */
  ghost predicate IsRepetition(v: string, block: string, times: nat) {
    times >= 2 && v == Repeat(block, times)
  }

  lemma {:induction false} RepeatAdd(block: string, a: nat, b: nat)
    ensures Repeat(block, a) + Repeat(block, b) == Repeat(block, a + b)
  {
    if b == 0 {
      assert Repeat(block, a) + "" == Repeat(block, a);
    } else {
      RepeatAdd(block, a, b - 1);
      assert Repeat(block, a) + (Repeat(block, b - 1) + block) == (Repeat(block, a) + Repeat(block, b - 1)) + block;
    }
  }

  lemma {:induction false} RepeatLength(block: string, times: nat)
    ensures times >= 1 ==> |Repeat(block, times)| >= |block|
    ensures times >= 2 && block != "" ==> |Repeat(block, times)| > |block|
    ensures block == "" ==> Repeat(block, times) == ""
  {
    if times > 0 {
      RepeatLength(block, times - 1);
    }
  }

  lemma {:induction false} RepeatOnce(block: string)
    ensures Repeat(block, 1) == block
  {
    assert Repeat(block, 0) + block == block;
  }

  /** Reading `v` from `p` in its own double is swapping its two parts. */
  lemma {:induction false} OccurrenceIsSwap(v: string, p: nat)
    requires p <= |v|
    ensures OccursAt(v + v, v, p) <==> v[p..] + v[..p] == v
  {
    assert (v + v)[p..p + |v|] == v[p..] + v[..p];
  }

  lemma {:induction false} SharedPrefix(x: string, y: string)
    requires x + y == y + x && |x| <= |y|
    ensures y == x + y[|x|..] && x + y[|x|..] == y[|x|..] + x
  {
    var z := y[|x|..];
    assert y[..|x|] == (y + x)[..|x|] == (x + y)[..|x|] == x;
    assert y == y[..|x|] + z;
    assert x + (x + z) == (x + z) + x;
    assert (x + (x + z))[|x|..] == x + z;
    assert ((x + z) + x)[|x|..] == z + x;
  }

  /** Two nonempty strings that read the same in either order are repetitions of one block. */
  lemma {:induction false} CommutingStringsShareABlock(x: string, y: string) returns (block: string, a: nat, b: nat)
    requires x != "" && y != "" && x + y == y + x
    ensures block != "" && a >= 1 && b >= 1 && x == Repeat(block, a) && y == Repeat(block, b)
    decreases |x| + |y|
  {
    if |x| == |y| {
      SharedPrefix(x, y);
      block, a, b := x, 1, 1;
      RepeatOnce(x);
    } else if |x| < |y| {
      SharedPrefix(x, y);
      block, a, b := CommutingStringsShareABlock(x, y[|x|..]);
      RepeatAdd(block, a, b);
      b := a + b;
    } else {
      SharedPrefix(y, x);
      block, a, b := CommutingStringsShareABlock(x[|y|..], y);
      RepeatAdd(block, b, a);
      a := b + a;
    }
  }

  lemma {:induction false} RepeatFirst(block: string, times: nat)
    requires times >= 1
    ensures Repeat(block, times) == block + Repeat(block, times - 1)
  {
    RepeatAdd(block, 1, times - 1);
    RepeatOnce(block);
  }

  /** A repetition reappears in its own double after one block. */
  lemma {:induction false} RepetitionReappears(block: string, times: nat)
    requires times >= 1
    ensures OccursAt(Repeat(block, times) + Repeat(block, times), Repeat(block, times), |block|)
  {
    var v, rest := Repeat(block, times), Repeat(block, times - 1);
    RepeatFirst(block, times);
    RepeatLength(block, times);
    assert v[|block|..] == rest && v[..|block|] == block;
    OccurrenceIsSwap(v, |block|);
  }

  /** What the test finds in a nonempty string is the length of its shortest block, the whole string counting
      as a block written once. */
  lemma {:induction false} DoublingFindsShortestBlock(v: string) returns (p: nat, times: nat)
    requires v != ""
    ensures p == Find(v + v, v, 1) && 1 <= p <= |v|
    ensures times >= 1 && v == Repeat(v[..p], times) && (p < |v| <==> times >= 2)
    ensures forall block, k | IsRepetition(v, block, k) :: p <= |block| < |v|
  {
    OccurrenceIsSwap(v, |v|);
    assert v[|v|..] + v[..|v|] == v;
    var found := Find(v + v, v, 1);
    assert OccursAt(v + v, v, |v|);
    p := found;
    forall block, k | IsRepetition(v, block, k) ensures p <= |block| < |v| {
      RepetitionReappears(block, k);
      RepeatLength(block, k);
    }
    times := ShortestBlock(v, p);
  }

  lemma {:induction false} ShortestBlock(v: string, p: nat) returns (times: nat)
    requires 1 <= p <= |v| && OccursAt(v + v, v, p) && forall j | 1 <= j < p :: !OccursAt(v + v, v, j)
    ensures times >= 1 && v == Repeat(v[..p], times) && (p < |v| <==> times >= 2)
  {
    OccurrenceIsSwap(v, p);
    if p == |v| {
      times := 1;
      assert v[..p] == v;
      RepeatOnce(v);
    } else {
      var block, a, b := CommutingStringsShareABlock(v[..p], v[p..]);
      assert v == v[..p] + v[p..];
      RepeatAdd(block, a, b);
      times := a + b;
      RepetitionReappears(block, times);
      RepeatLength(block, a);
      RepeatFirst(block, a);
      assert p == |block|;
      assert v[..p] == block;
    }
  }

  /** The doubled-string test is exact: it fires exactly on blocks written two or more times. */
  lemma {:induction false} DoublingFindsRepetition(v: string)
    ensures LooksRepeated(v) <==> exists block, times :: IsRepetition(v, block, times)
  {
    if v == "" {
      assert Repeat("", 2) == "" && IsRepetition(v, "", 2);
      return;
    }
    var p, times := DoublingFindsShortestBlock(v);
    if p < |v| {
      assert IsRepetition(v, v[..p], times);
    }
  }

  ghost predicate Within(hay: string, needle: string) {
    exists i :: OccursAt(hay, needle, i)
  }

  lemma {:induction false} ContainsIsWithin(hay: string, needle: string)
    ensures Contains(hay, needle) <==> Within(hay, needle)
  {
  }

  /** What the check says: the first marker that is in the value, else how few characters it has, else that it is a
      block repeated, else nothing. */
  lemma {:induction false} ReasonExactly(value: string, lowered: string)
    ensures var r := PlaceholderReason(value, lowered);
      if exists m | m in MARKERS :: Within(lowered, m) then
        exists k | 0 <= k < |MARKERS| ::
          r == Some(HasMarker(MARKERS[k])) && Within(lowered, MARKERS[k])
          && forall j | 0 <= j < k :: !Within(lowered, MARKERS[j])
      else if |set c | c in value| < 8 then r == Some(FewCharacters(|set c | c in value|))
      else if exists block, times :: IsRepetition(value, block, times) then r == Some(RepeatedBlock)
      else r == None
  {
    forall m ensures Contains(lowered, m) <==> Within(lowered, m) { ContainsIsWithin(lowered, m); }
    var k := FirstOf(lowered, MARKERS);
    DoublingFindsRepetition(value);
    assert Characters(value) == set c | c in value;
  }

  lemma {:induction false} FirstOf(lowered: string, markers: seq<string>) returns (k: nat)
    ensures FirstMarker(lowered, markers).Some? ==>
      && k < |markers| && FirstMarker(lowered, markers) == Some(markers[k]) && Contains(lowered, markers[k])
      && forall j | 0 <= j < k :: !Contains(lowered, markers[j])
  {
    k := 0;
    if markers != [] && !Contains(lowered, markers[0]) {
      var n := FirstOf(lowered, markers[1..]);
      k := n + 1;
      assert forall j | 0 < j < k && j <= |markers[1..]| :: markers[j] == markers[1..][j - 1];
    }
  }

  /** A secret passes exactly when it is free of markers, has at least eight different characters and is not a
      block repeated. */
  lemma {:induction false} AcceptedExactly(value: string, lowered: string)
    ensures PlaceholderReason(value, lowered).None? <==>
      && (forall m | m in [
            "change", "replace", "placeholder", "example", "your-secret", "your_secret", "yoursecret", "insecure",
            "do-not-use", "donotuse", "dev-only", "min-32-chars"] :: !Within(lowered, m))
      && |set c | c in value| >= 8
      && !exists block, times :: IsRepetition(value, block, times)
  {
    ReasonExactly(value, lowered);
  }
}
