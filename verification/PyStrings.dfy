/** The Python string operations the modelled code relies on. */
module PyStrings {
  predicate OccursAt(hay: string, needle: string, i: int) {
    0 <= i && i + |needle| <= |hay| && hay[i..i + |needle|] == needle
  }

  /** `hay.find(needle, start)`: the first occurrence at or after `start`, or -1. */
  function Find(hay: string, needle: string, start: nat): (i: int)
    ensures i == -1 ==> forall j | j >= start :: !OccursAt(hay, needle, j)
    ensures i != -1 ==> i >= start && OccursAt(hay, needle, i) && forall j | start <= j < i :: !OccursAt(hay, needle, j)
    decreases |hay| - start
  {
    if start + |needle| > |hay| then -1
    else if OccursAt(hay, needle, start) then start
    else Find(hay, needle, start + 1)
  }

  /** Leftmost non-overlapping occurrences at or after `start`. */
  function CountFrom(hay: string, needle: string, start: nat): nat
    requires needle != ""
    decreases |hay| - start
  {
    var i := Find(hay, needle, start);
    if i == -1 then 0 else 1 + CountFrom(hay, needle, i + |needle|)
  }

  /** `hay.count(needle)`; the empty string is counted at every gap. */
  function Count(hay: string, needle: string): nat {
    if needle == "" then |hay| + 1 else CountFrom(hay, needle, 0)
  }

  /** `hay.replace(old, new, 1)`. */
  function ReplaceFirst(hay: string, old': string, new': string): string {
    var i := Find(hay, old', 0);
    if i == -1 then hay else hay[..i] + new' + hay[i + |old'|..]
  }

  lemma {:induction false} CountZero(hay: string, needle: string)
    ensures Count(hay, needle) == 0 <==> Find(hay, needle, 0) == -1
  {
    if needle == "" {
      assert hay[0..0] == needle;
      assert OccursAt(hay, needle, 0);
    }
  }

  /** Counted once: a first occurrence and none after it. */
  lemma {:induction false} CountOnce(hay: string, needle: string)
    requires needle != ""
    ensures var i := Find(hay, needle, 0);
      Count(hay, needle) == 1 <==> i != -1 && Find(hay, needle, i + |needle|) == -1
  {
    var i := Find(hay, needle, 0);
    if i != -1 {
      assert CountFrom(hay, needle, 0) == 1 + CountFrom(hay, needle, i + |needle|);
    }
  }

  /** Two occurrences that do not overlap are both counted. */
  lemma {:induction false} CountsApart(hay: string, needle: string, i: nat, j: nat)
    requires needle != "" && OccursAt(hay, needle, i) && OccursAt(hay, needle, j) && i + |needle| <= j
    ensures Count(hay, needle) >= 2
  {
    var m := Find(hay, needle, 0);
    assert m != -1 && m <= i;
    assert Find(hay, needle, m + |needle|) != -1;
    CountOnce(hay, needle);
    CountZero(hay, needle);
  }

  /** Places in ascending order, none overlapping the next, where the needle stands. */
  ghost predicate Apart(hay: string, needle: string, places: seq<nat>) {
    && (forall k | 0 <= k < |places| :: OccursAt(hay, needle, places[k]))
    && (forall i, j | 0 <= i < j < |places| :: places[i] + |needle| <= places[j] && places[i] < places[j])
  }

  /** No choice of places beats taking each as soon as it comes. */
  lemma {:induction false} NoneBeatsLeftmost(hay: string, needle: string, start: nat, places: seq<nat>)
    requires needle != "" && Apart(hay, needle, places) && (places != [] ==> start <= places[0])
    ensures |places| <= CountFrom(hay, needle, start)
    decreases |places|
  {
    if places != [] {
      var i := FoundBefore(hay, needle, start, places[0]);
      ApartTail(hay, needle, places);
      NoneBeatsLeftmost(hay, needle, i + |needle|, places[1..]);
    }
  }

  lemma {:induction false} FoundBefore(hay: string, needle: string, start: nat, p: nat) returns (i: nat)
    requires needle != "" && OccursAt(hay, needle, p) && start <= p
    ensures start <= i <= p && OccursAt(hay, needle, i)
    ensures CountFrom(hay, needle, start) == 1 + CountFrom(hay, needle, i + |needle|)
  {
    assert Find(hay, needle, start) != -1;
    i := Find(hay, needle, start);
  }

  lemma {:induction false} ApartTail(hay: string, needle: string, places: seq<nat>)
    requires Apart(hay, needle, places) && places != []
    ensures Apart(hay, needle, places[1..]) && (|places| > 1 ==> places[0] + |needle| <= places[1])
  {
  }

  lemma {:induction false} ApartHead(hay: string, needle: string, i: nat, rest: seq<nat>)
    requires needle != "" && OccursAt(hay, needle, i) && Apart(hay, needle, rest)
    requires rest != [] ==> i + |needle| <= rest[0]
    ensures Apart(hay, needle, [i] + rest)
  {
    var places := [i] + rest;
    forall j, k | 0 <= j < k < |places| ensures places[j] + |needle| <= places[k] && places[j] < places[k] {
      if j == 0 && k > 1 {
        assert rest[0] < rest[k - 1];
      }
    }
  }

  lemma {:induction false} LeftmostPlaces(hay: string, needle: string, start: nat) returns (places: seq<nat>)
    requires needle != ""
    ensures Apart(hay, needle, places) && |places| == CountFrom(hay, needle, start)
    ensures places != [] ==> start <= places[0]
    decreases |hay| - start
  {
    var i := Find(hay, needle, start);
    if i == -1 {
      places := [];
    } else {
      var rest := LeftmostPlaces(hay, needle, i + |needle|);
      ApartHead(hay, needle, i, rest);
      places := [i] + rest;
    }
  }

  lemma {:induction false} Gaps(hay: string, n: nat) returns (places: seq<nat>)
    requires n <= |hay| + 1
    ensures |places| == n && Apart(hay, "", places) && forall k | 0 <= k < n :: places[k] == k
  {
    if n == 0 {
      places := [];
    } else {
      var fewer := Gaps(hay, n - 1);
      assert hay[n - 1..n - 1] == "";
      places := fewer + [n - 1];
    }
  }

  lemma {:induction false} GapsAreDistinct(hay: string, places: seq<nat>, k: nat)
    requires Apart(hay, "", places) && k < |places|
    ensures k <= places[k] <= |hay|
  {
    if k > 0 {
      GapsAreDistinct(hay, places, k - 1);
    }
  }

  /** `hay.count(needle)` is the largest number of places that do not overlap, for the empty needle too. */
  lemma {:induction false} CountIsTheMost(hay: string, needle: string) returns (places: seq<nat>)
    ensures Apart(hay, needle, places) && |places| == Count(hay, needle)
    ensures forall other | Apart(hay, needle, other) :: |other| <= Count(hay, needle)
  {
    if needle == "" {
      places := Gaps(hay, |hay| + 1);
      forall other | Apart(hay, needle, other) ensures |other| <= |hay| + 1 {
        if other != [] {
          GapsAreDistinct(hay, other, |other| - 1);
        }
      }
    } else {
      places := LeftmostPlaces(hay, needle, 0);
      forall other | Apart(hay, needle, other) ensures |other| <= Count(hay, needle) {
        NoneBeatsLeftmost(hay, needle, 0, other);
      }
    }
  }

  /** `hay.replace(old, new, 1)` changes the first place and nothing else. */
  lemma {:induction false} ReplacesTheFirst(hay: string, old': string, new': string, p: nat) returns (i: nat)
    requires OccursAt(hay, old', p)
    ensures OccursAt(hay, old', i) && forall j | 0 <= j < i :: !OccursAt(hay, old', j)
    ensures ReplaceFirst(hay, old', new') == hay[..i] + new' + hay[i + |old'|..]
  {
    assert Find(hay, old', 0) != -1;
    i := Find(hay, old', 0);
  }
}
