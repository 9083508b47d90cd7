/** Applying one mutation to one file and taking it back. */
module MutateTool {
  import opened Prelude
  import opened PyStrings

  /** A sha256 digest, taken to tell any two contents apart. */
  datatype Digest = Digest(content: string)

  datatype Meta = Meta(before: string, after: string, mutated: Digest)

  /** The file, its backup and the sidecar beside it. */
  datatype Files = Files(target: string, backup: Option<string>, meta: Option<Meta>)

  datatype Refusal = NotFound | Ambiguous(times: nat) | Unchanged | NoBackup | NotStated(times: nat)

  datatype Result = Done(files: Files) | Refused(why: Refusal)

  function Apply(f: Files, before: string, after: string): Result {
    var n := Count(f.target, before);
    if n == 0 then Refused(NotFound)
    else if n > 1 then Refused(Ambiguous(n))
    else
      var mutated := ReplaceFirst(f.target, before, after);
      if mutated == f.target then Refused(Unchanged)
      else Done(Files(mutated, Some(f.target), Some(Meta(before, after, Digest(mutated)))))
  }

  function Restore(f: Files): Result {
    if f.backup.None? then Refused(NoBackup)
    else if f.meta.None? || Digest(f.target) == f.meta.value.mutated then
      Done(Files(f.backup.value, None, None))
    else
      var n := Count(f.target, f.meta.value.after);
      if n != 1 then Refused(NotStated(n))
      else Done(Files(ReplaceFirst(f.target, f.meta.value.after, f.meta.value.before), None, None))
  }

  /** The three files on disk, written and unlinked in the order the tool does it. */
  class Workspace {
    var target: string
    var backup: Option<string>
    var meta: Option<Meta>

    constructor (target: string)
      ensures Snapshot() == Files(target, None, None)
    {
      this.target, backup, meta := target, None, None;
    }

    function Snapshot(): Files
      reads this
    {
      Files(target, backup, meta)
    }

    /** `apply_mutation`: every check passes before anything is written. */
    method ApplyMutation(before: string, after: string) returns (refusal: Option<Refusal>)
      modifies this
      ensures match Apply(old(Snapshot()), before, after)
        case Done(files) => refusal == None && Snapshot() == files
        case Refused(why) => refusal == Some(why) && Snapshot() == old(Snapshot())
    {
      var source := target;
      var occurrences := Count(source, before);
      if occurrences == 0 {
        return Some(NotFound);
      }
      if occurrences > 1 {
        return Some(Ambiguous(occurrences));
      }
      var mutated := ReplaceFirst(source, before, after);
      if mutated == source {
        return Some(Unchanged);
      }
      backup := Some(target);
      target := mutated;
      meta := Some(Meta(before, after, Digest(target)));
      return None;
    }

    /** `restore`. */
    method RestoreTarget() returns (refusal: Option<Refusal>)
      modifies this
      ensures match Restore(old(Snapshot()))
        case Done(files) => refusal == None && Snapshot() == files
        case Refused(why) => refusal == Some(why) && Snapshot() == old(Snapshot())
    {
      if backup.None? {
        return Some(NoBackup);
      }
      if meta.None? {
        target := backup.value;
        backup := None;
        return None;
      }
      var m := meta.value;
      if Digest(target) == m.mutated {
        target := backup.value;
        backup := None;
        meta := None;
        return None;
      }
      var occurrences := Count(target, m.after);
      if occurrences != 1 {
        return Some(NotStated(occurrences));
      }
      target := ReplaceFirst(target, m.after, m.before);
      backup := None;
      meta := None;
      return None;
    }
  }

  // ---------------------------------------------------------------- applying

  lemma {:induction false} SplitAt(hay: string, needle: string, i: nat)
    requires OccursAt(hay, needle, i)
    ensures hay == hay[..i] + needle + hay[i + |needle|..]
  {
  }

  lemma {:induction false} SameContext(a: string, x: string, y: string, b: string)
    ensures a + x + b == a + y + b <==> x == y
  {
    if a + x + b == a + y + b {
      assert |x| == |y|;
      assert (a + x + b)[|a|..|a| + |x|] == x;
      assert (a + y + b)[|a|..|a| + |y|] == y;
    }
  }

  /** A mutation is applied exactly when its anchor is counted once and differs from its replacement; then the
      file is the old text with that one place changed, and the backup is the old text. */
  lemma {:induction false} ApplyExactly(f: Files, before: string, after: string)
    ensures Apply(f, before, after).Done? <==> Count(f.target, before) == 1 && before != after
    ensures Apply(f, before, after).Done? ==>
      var i := Find(f.target, before, 0);
      && OccursAt(f.target, before, i)
      && Apply(f, before, after).files.target == f.target[..i] + after + f.target[i + |before|..]
      && Apply(f, before, after).files.target != f.target
      && Apply(f, before, after).files.backup == Some(f.target)
  {
    CountZero(f.target, before);
    if Count(f.target, before) == 1 {
      var i := Find(f.target, before, 0);
      SplitAt(f.target, before, i);
      SameContext(f.target[..i], after, before, f.target[i + |before|..]);
    }
  }

  /** Apply, touch nothing, restore: the file is the original and nothing is left beside it. */
  lemma {:induction false} RoundTrip(f: Files, before: string, after: string)
    requires Apply(f, before, after).Done?
    ensures Restore(Apply(f, before, after).files) == Done(Files(f.target, None, None))
  {
  }

  // ---------------------------------------------------------------- when each is refused

  /** The text stands somewhere in the file. */
  ghost predicate Stands(hay: string, needle: string) {
    exists i :: OccursAt(hay, needle, i)
  }

  /** It stands at two places that do not overlap. */
  ghost predicate StandsTwice(hay: string, needle: string) {
    exists i: nat, j: nat :: OccursAt(hay, needle, i) && OccursAt(hay, needle, j) && i < j && i + |needle| <= j
  }

  lemma {:induction false} CountTells(hay: string, needle: string)
    ensures Count(hay, needle) == 0 <==> !Stands(hay, needle)
    ensures Count(hay, needle) > 1 <==> StandsTwice(hay, needle)
  {
    var places := CountIsTheMost(hay, needle);
    if i :| OccursAt(hay, needle, i) {
      assert Apart(hay, needle, [i]);
    }
    if i: nat, j: nat :| OccursAt(hay, needle, i) && OccursAt(hay, needle, j) && i < j && i + |needle| <= j {
      assert Apart(hay, needle, [i, j]);
    }
    if |places| > 0 {
      assert OccursAt(hay, needle, places[0]);
    }
    if |places| > 1 {
      assert OccursAt(hay, needle, places[1]) && places[0] + |needle| <= places[1];
    }
  }

  /** The file with the first place where `x` stands turned into `y`. */
  ghost predicate FirstReplaced(hay: string, x: string, y: string, result: string) {
    exists i: nat ::
      && OccursAt(hay, x, i) && (forall j | 0 <= j < i :: !OccursAt(hay, x, j))
      && result == hay[..i] + y + hay[i + |x|..]
  }

  lemma {:induction false} ReplacedFirst(hay: string, x: string, y: string)
    requires Stands(hay, x)
    ensures FirstReplaced(hay, x, y, ReplaceFirst(hay, x, y))
  {
    var p :| OccursAt(hay, x, p);
    var i := ReplacesTheFirst(hay, x, y, p);
  }

  /** Applying: refused, with the reason, when the anchor is not there, stands at two places, or is its own
      replacement; and otherwise done at its first place, with a backup of the file as it was and a note of both. */
  lemma {:induction false} AppliesOrSaysWhy(f: Files, before: string, after: string)
    ensures var r := Apply(f, before, after);
      if !Stands(f.target, before) then r == Refused(NotFound)
      else if StandsTwice(f.target, before) then r == Refused(Ambiguous(Count(f.target, before)))
      else if before == after then r == Refused(Unchanged)
      else
        && r.Done? && FirstReplaced(f.target, before, after, r.files.target) && r.files.backup == Some(f.target)
        && r.files.meta == Some(Meta(before, after, Digest(r.files.target)))
  {
    CountTells(f.target, before);
    ApplyExactly(f, before, after);
    if Stands(f.target, before) {
      ReplacedFirst(f.target, before, after);
    }
  }

  /** Restoring: refused when there is no backup; the backup when there is no note beside it or the file is as the
      mutation left it; and otherwise refused when the mutated text is not there or stands at two places, and done at
      its first place when not. Both files beside it go exactly when it is done. */
  lemma {:induction false} RestoresOrSaysWhy(f: Files)
    ensures var r := Restore(f);
      if f.backup.None? then r == Refused(NoBackup)
      else if f.meta.None? || f.meta.value.mutated == Digest(f.target) then r == Done(Files(f.backup.value, None, None))
      else
        var m := f.meta.value;
        if !Stands(f.target, m.after) then r == Refused(NotStated(0))
        else if StandsTwice(f.target, m.after) then
          r == Refused(NotStated(Count(f.target, m.after))) && Count(f.target, m.after) > 1
        else
          && r.Done? && FirstReplaced(f.target, m.after, m.before, r.files.target)
          && r.files.backup == None && r.files.meta == None
  {
    if f.meta.Some? {
      var m := f.meta.value;
      CountTells(f.target, m.after);
      if Stands(f.target, m.after) {
        ReplacedFirst(f.target, m.after, m.before);
      }
      if f.backup.Some? && m.mutated != Digest(f.target) {
        RestoreByCount(f);
      }
    }
  }

  lemma {:induction false} RestoreByCount(f: Files)
    requires f.backup.Some? && f.meta.Some? && f.meta.value.mutated != Digest(f.target)
    ensures var m := f.meta.value;
      var n := Count(f.target, m.after);
      Restore(f) == if n != 1 then Refused(NotStated(n))
                    else Done(Files(ReplaceFirst(f.target, m.after, m.before), None, None))
  {
  }

  // ---------------------------------------------------------------- several applies before a restore

  datatype Mutation = Mutation(before: string, after: string)

  /** Each in turn; one that is refused changes nothing. */
  function ApplyAll(f: Files, ms: seq<Mutation>): Files {
    if ms == [] then f
    else
      var sofar, m := ApplyAll(f, ms[..|ms| - 1]), ms[|ms| - 1];
      var r := Apply(sofar, m.before, m.after);
      if r.Done? then r.files else sofar
  }

  predicate TakesEffect(f: Files, ms: seq<Mutation>, i: nat)
    requires i < |ms|
  {
    Apply(ApplyAll(f, ms[..i]), ms[i].before, ms[i].after).Done?
  }

  /** The backup is of the file before the last mutation that took effect, so that is what a restore gives back: the
      first text exactly if the mutations before that one had left the file as it was. */
  lemma {:induction false} RestoreUndoesTheLast(f: Files, ms: seq<Mutation>, i: nat)
    requires i < |ms| && TakesEffect(f, ms, i) && forall j | i < j < |ms| :: !TakesEffect(f, ms, j)
    ensures Restore(ApplyAll(f, ms)) == Done(Files(ApplyAll(f, ms[..i]).target, None, None))
    ensures Restore(ApplyAll(f, ms)) == Done(Files(f.target, None, None)) <==> ApplyAll(f, ms[..i]).target == f.target
  {
    var front, m := ms[..|ms| - 1], ms[|ms| - 1];
    if i == |ms| - 1 {
      RoundTrip(ApplyAll(f, front), m.before, m.after);
    } else {
      assert !TakesEffect(f, ms, |ms| - 1);
      forall j | 0 <= j < |front| ensures TakesEffect(f, front, j) == TakesEffect(f, ms, j) {
        assert front[..j] == ms[..j];
      }
      assert front[..i] == ms[..i];
      RestoreUndoesTheLast(f, front, i);
    }
  }

  lemma {:induction false} AnchorIsAll(f: Files, x: string, y: string)
    requires f.target == x && x != y && x != ""
    ensures Apply(f, x, y) == Done(Files(y, Some(x), Some(Meta(x, y, Digest(y)))))
  {
    assert x[0..|x|] == x;
    assert OccursAt(x, x, 0) && Find(x, x, 0) == 0 && Find(x, x, |x|) == -1;
    CountOnce(x, x);
    assert ReplaceFirst(x, x, y) == y;
  }

  /** Apply twice and restore: the first text is gone, whatever it was. */
  lemma {:induction false} TwoAppliesLoseTheOriginal(x: string, y: string, z: string)
    requires x != "" && y != "" && x != y && y != z
    ensures var f := Files(x, None, None);
      Restore(ApplyAll(f, [Mutation(x, y), Mutation(y, z)])) == Done(Files(y, None, None))
  {
    var f, ms := Files(x, None, None), [Mutation(x, y), Mutation(y, z)];
    AnchorIsAll(f, x, y);
    var once := Apply(f, x, y).files;
    assert ms[..1] == [ms[0]] && ms[..1][..0] == [];
    assert ApplyAll(f, ms[..1][..0]) == f;
    assert ApplyAll(f, ms[..1]) == once;
    AnchorIsAll(once, y, z);
    RestoreUndoesTheLast(f, ms, 1);
  }

  // ---------------------------------------------------------------- restoring around other edits

  ghost predicate OnlyAt(hay: string, needle: string, i: nat) {
    OccursAt(hay, needle, i) && forall j | OccursAt(hay, needle, j) :: j == i
  }

  /** The empty text stands at one place only in an empty file. */
  lemma {:induction false} OnlyGap(hay: string, i: nat)
    requires OnlyAt(hay, "", i)
    ensures hay == "" && i == 0
  {
    assert hay[0..0] == "" && hay[|hay|..|hay|] == "";
    assert OccursAt(hay, "", 0) && OccursAt(hay, "", |hay|);
  }

  lemma {:induction false} OnlyAtCountsOne(hay: string, needle: string, i: nat)
    requires OnlyAt(hay, needle, i)
    ensures Find(hay, needle, 0) == i && Count(hay, needle) == 1
  {
    if needle == "" {
      OnlyGap(hay, i);
      return;
    }
    assert Find(hay, needle, 0) == i;
    assert Find(hay, needle, i + |needle|) == -1;
    CountOnce(hay, needle);
  }

  /** Edits made around the mutation survive: if the mutated text stands at one place only, counting overlaps,
      restoring changes that place back and nothing else. */
  lemma {:induction false} RestoreKeepsOtherEdits(f: Files, a: string, b: string)
    requires f.backup.Some? && f.meta.Some?
    requires f.target == a + f.meta.value.after + b && Digest(f.target) != f.meta.value.mutated
    requires OnlyAt(f.target, f.meta.value.after, |a|)
    ensures Restore(f) == Done(Files(a + f.meta.value.before + b, None, None))
  {
    var after := f.meta.value.after;
    OnlyAtCountsOne(f.target, after, |a|);
    assert f.target[..|a|] == a && f.target[|a| + |after|..] == b;
  }

  /** The text can overlap a shifted copy of itself. */
  ghost predicate SelfOverlapsBy(s: string, k: nat) {
    0 < k < |s| && s[k..] == s[..|s| - k]
  }

  lemma {:induction false} OverlapGivesBorder(hay: string, s: string, i: nat, j: nat)
    requires OccursAt(hay, s, i) && OccursAt(hay, s, j) && i < j < i + |s|
    ensures SelfOverlapsBy(s, j - i)
  {
    var k := j - i;
    assert s[k..] == hay[j..i + |s|];
    assert s[..|s| - k] == hay[j..j + |s|][..|s| - k] == hay[j..i + |s|];
  }

  lemma {:induction false} BorderGivesOverlap(s: string, k: nat)
    requires SelfOverlapsBy(s, k)
    ensures var hay := s[..k] + s; OccursAt(hay, s, 0) && OccursAt(hay, s, k) && Count(hay, s) == 1
  {
    var hay := s[..k] + s;
    assert s == s[..k] + s[k..];
    assert hay[..|s|] == s[..k] + s[..|s| - k];
    assert hay[0..|s|] == s;
    assert hay[k..k + |s|] == s;
    assert Find(hay, s, 0) == 0;
    assert Find(hay, s, |s|) == -1;
    CountOnce(hay, s);
  }

  /** Being counted once pins down the place to reverse, whatever the file has become, exactly when the mutated
      text cannot overlap itself. */
  lemma {:induction false} OnceIsUnambiguousIff(s: string)
    ensures (forall hay, i, j | Count(hay, s) == 1 && OccursAt(hay, s, i) && OccursAt(hay, s, j) :: i == j)
       <==> (forall k :: !SelfOverlapsBy(s, k))
  {
    if k :| SelfOverlapsBy(s, k) {
      BorderGivesOverlap(s, k);
    } else {
      forall hay, i, j | Count(hay, s) == 1 && OccursAt(hay, s, i) && OccursAt(hay, s, j) ensures i == j {
        if i < j {
          Collide(hay, s, i, j);
        } else if j < i {
          Collide(hay, s, j, i);
        }
      }
    }
  }

  lemma {:induction false} Collide(hay: string, s: string, i: nat, j: nat)
    requires Count(hay, s) == 1 && OccursAt(hay, s, i) && OccursAt(hay, s, j) && i < j
    ensures SelfOverlapsBy(s, j - i)
  {
    if i + |s| <= j {
      CountsApart(hay, s, i, j);
    } else {
      OverlapGivesBorder(hay, s, i, j);
    }
  }

  /** With a text that does overlap itself the tool goes ahead and can reverse the wrong place: the mutation
      turned X into aba, an edit then put ab in front, and the restore gives Xba where the edit meant abX. */
  lemma {:induction false} OverlapRestoresTheWrongPlace()
    ensures var meta := Meta("X", "aba", Digest("aba"));
      && Apply(Files("X", None, None), "X", "aba") == Done(Files("aba", Some("X"), Some(meta)))
      && Restore(Files("ab" + "aba", Some("X"), Some(meta))) == Done(Files("X" + "ba", None, None))
  {
    assert OccursAt("X", "X", 0);
    assert Find("X", "X", 0) == 0 && Find("X", "X", 1) == -1;
    CountOnce("X", "X");
    assert ReplaceFirst("X", "X", "aba") == "aba";
    var edited := "ab" + "aba";
    assert edited[0..3] == "aba" && edited[3..] == "ba";
    assert Find(edited, "aba", 0) == 0 && Find(edited, "aba", 3) == -1;
    CountOnce(edited, "aba");
    assert ReplaceFirst(edited, "aba", "X") == "X" + "ba";
    assert |edited| != |"aba"|;
  }
}
