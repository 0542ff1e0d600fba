/** Concrete runs of the diff, the grouping and the alert lines on small rosters. */
module Scenarios {
  import opened Roster
  import opened SnapshotDiff
  import opened Grouping
  import opened Rendering

  /** Two moderators and an administrator: grades in page order, names sorted inside each grade. */
  lemma GroupingExample()
    ensures GroupStaffByGrade([Member("c", "Mod"), Member("b", "Admin"), Member("a", "Mod")])
      == [Group("Mod", ["a", "c"]), Group("Admin", ["b"])]
  {
    var b := [Group("Mod", ["c", "a"]), Group("Admin", ["b"])];
    BucketExample();
    assert SortGroups(b)[0] == Group("Mod", Ordering.SortNames(["c", "a"]));
    assert SortGroups(b)[1] == Group("Admin", Ordering.SortNames(["b"]));
    SortExample();
  }

  /** The first loop files c and a under Mod, b under Admin, in page order. */
  lemma BucketExample()
    ensures Bucket([Member("c", "Mod"), Member("b", "Admin"), Member("a", "Mod")])
      == [Group("Mod", ["c", "a"]), Group("Admin", ["b"])]
  {
    var r := [Member("c", "Mod"), Member("b", "Admin"), Member("a", "Mod")];
    var b1 := [Group("Mod", ["c"])];
    var b2 := b1 + [Group("Admin", ["b"])];
    assert r[..2][..1][..0] == [];
    assert Bucket(r[..2][..1]) == AddMember([], Member("c", "Mod")) == b1;
    assert r[..2][..1] == [Member("c", "Mod")];
    assert GroupIndex(b1, "Admin") == 1;
    assert Bucket(r[..2]) == AddMember(b1, Member("b", "Admin")) == b2;
    assert GroupIndex(b2, "Mod") == 0;
    assert b2[0].members + ["a"] == ["c", "a"];
    assert b2[0 := Group("Mod", ["c", "a"])] == [Group("Mod", ["c", "a"]), Group("Admin", ["b"])];
    assert Bucket(r) == AddMember(b2, Member("a", "Mod"));
  }

  lemma SortExample()
    ensures Ordering.SortNames(["c", "a"]) == ["a", "c"]
    ensures Ordering.SortNames(["b"]) == ["b"]
  {
    assert Ordering.LexLe("a", "c");
  }

  /** First run: every fetched name is added, and its line goes from N/A to its grade. */
  lemma FirstRunAddsEveryone()
    ensures CompareSnapshots(map[], map["alice" := "Helper"]) == Diff({"alice"}, {}, map[])
    ensures AddedLine("alice", map["alice" := "Helper"]) == TransitionLine("alice", "N/A", "Helper")
  {
    var d := CompareSnapshots(map[], map["alice" := "Helper"]);
    assert d.added == {"alice"};
    assert d.changed == map[];
  }

  /** A departed member's line goes from the last stored grade to the looked-up rank. */
  lemma DepartureShowsLookedUpRank()
    ensures CompareSnapshots(map["bob" := "Admin"], map[]) == Diff({}, {"bob"}, map[])
    ensures RemovedLine("bob", map["bob" := "Admin"], RemovedRankMap({"bob"}, ["bob"], n => RankFound("Member")))
      == TransitionLine("bob", "Admin", "Member")
  {
    var d := CompareSnapshots(map["bob" := "Admin"], map[]);
    assert d.removed == {"bob"};
    assert d.changed == map[];
  }

  /** A grade change is reported with both grades verbatim. */
  lemma PromotionShowsBothGrades()
    ensures CompareSnapshots(map["carl" := "Helper"], map["carl" := "Admin"])
      == Diff({}, {}, map["carl" := GradeChange("Helper", "Admin")])
    ensures ChangedLine("carl", GradeChange("Helper", "Admin")) == TransitionLine("carl", "Helper", "Admin")
  {
    var d := CompareSnapshots(map["carl" := "Helper"], map["carl" := "Admin"]);
    assert "carl" in d.changed;
    assert d.changed == map["carl" := GradeChange("Helper", "Admin")];
  }
}
