/** `compare_snapshots`: the diff between the previous and the current snapshot. */
module SnapshotDiff {
  import opened Roster

  /** A grade change, `(old_grade, new_grade)`. */
  datatype GradeChange = GradeChange(before: string, after: string)

  /** `(added, removed, modified)`. */
  datatype Diff = Diff(added: set<string>, removed: set<string>, changed: map<string, GradeChange>)

  function CompareSnapshots(oldStaff: Snapshot, newStaff: Snapshot): (d: Diff)
    ensures forall n :: n in d.added <==> n in newStaff && n !in oldStaff
    ensures forall n :: n in d.removed <==> n in oldStaff && n !in newStaff
    ensures forall n :: n in d.changed <==> n in oldStaff && n in newStaff && oldStaff[n] != newStaff[n]
    ensures forall n :: n in d.changed ==> d.changed[n] == GradeChange(oldStaff[n], newStaff[n])
  {
    var shared := oldStaff.Keys * newStaff.Keys;
    Diff(newStaff.Keys - oldStaff.Keys, oldStaff.Keys - newStaff.Keys,
         map n | n in shared && oldStaff[n] != newStaff[n] :: GradeChange(oldStaff[n], newStaff[n]))
  }

  /** `if added or removed or grade_changed` is false. */
  predicate IsEmpty(d: Diff)
  {
    d.added == {} && d.removed == {} && d.changed == map[]
  }

  /** Names present on both sides with the same grade. */
  function Unchanged(oldStaff: Snapshot, newStaff: Snapshot): (same: set<string>)
  {
    set n | n in oldStaff && n in newStaff && oldStaff[n] == newStaff[n]
  }

  /** Every `(old_grade, new_grade)` pair reversed. */
  function Flip(c: map<string, GradeChange>): (f: map<string, GradeChange>)
    ensures f.Keys == c.Keys
  {
    map n | n in c :: GradeChange(c[n].after, c[n].before)
  }

  /** The three parts and the unchanged names are pairwise disjoint and together cover both snapshots. */
  lemma DiffPartition(oldStaff: Snapshot, newStaff: Snapshot)
    ensures var d := CompareSnapshots(oldStaff, newStaff);
      && d.added !! d.removed
      && d.added !! d.changed.Keys
      && d.removed !! d.changed.Keys
      && Unchanged(oldStaff, newStaff) !! d.added + d.removed + d.changed.Keys
      && d.added + d.removed + d.changed.Keys + Unchanged(oldStaff, newStaff) == oldStaff.Keys + newStaff.Keys
  {
  }

  /** Diffing backwards swaps added and removed and reverses every grade change. */
  lemma DiffSwap(oldStaff: Snapshot, newStaff: Snapshot)
    ensures var d := CompareSnapshots(oldStaff, newStaff);
      CompareSnapshots(newStaff, oldStaff) == Diff(d.removed, d.added, Flip(d.changed))
  {
    var d := CompareSnapshots(oldStaff, newStaff);
    var e := CompareSnapshots(newStaff, oldStaff);
    assert e.added == d.removed;
    assert e.removed == d.added;
    assert e.changed == Flip(d.changed);
  }

  /** A snapshot diffed against itself is empty. */
  lemma DiffOfSelf(x: Snapshot)
    ensures CompareSnapshots(x, x) == Diff({}, {}, map[])
  {
    var d := CompareSnapshots(x, x);
    assert d.added == {};
    assert d.removed == {};
    assert d.changed == map[];
  }

  /** The diff is empty exactly when the snapshots are equal, so an alert is due exactly on a change. */
  lemma DiffEmptyIff(oldStaff: Snapshot, newStaff: Snapshot)
    ensures IsEmpty(CompareSnapshots(oldStaff, newStaff)) <==> oldStaff == newStaff
  {
    var d := CompareSnapshots(oldStaff, newStaff);
    if IsEmpty(d) {
      assert forall n :: n !in d.added && n !in d.removed && n !in d.changed;
      assert oldStaff.Keys == newStaff.Keys;
      assert forall n :: n in oldStaff ==> oldStaff[n] == newStaff[n];
    } else if oldStaff == newStaff {
      DiffOfSelf(oldStaff);
    }
  }

  /** Counting names: `|oldStaff| + |added| == |newStaff| + |removed|`. */
  lemma DiffSizes(oldStaff: Snapshot, newStaff: Snapshot)
    ensures var d := CompareSnapshots(oldStaff, newStaff);
      |oldStaff| + |d.added| == |newStaff| + |d.removed|
  {
    var d := CompareSnapshots(oldStaff, newStaff);
    assert d.added == newStaff.Keys - oldStaff.Keys;
    assert d.removed == oldStaff.Keys - newStaff.Keys;
    CardinalityOfDifferences(oldStaff.Keys, newStaff.Keys);
  }

  lemma CardinalityOfDifferences(a: set<string>, b: set<string>)
    ensures |a| + |b - a| == |b| + |a - b|
  {
    assert a == (a * b) + (a - b) && (a * b) !! (a - b);
    assert b == (a * b) + (b - a) && (a * b) !! (b - a);
  }
}
