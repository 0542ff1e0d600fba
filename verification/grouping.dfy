/**
 * `group_staff_by_grade`: a `defaultdict(list)` filled in roster order
 * (`grouped[grade].append(name)`), then every list sorted. Grades keep the
 * order in which the dictionary first saw them.
 */
module Grouping {
  import opened Roster
  import opened Ordering

  /** One `grade: [names]` entry of the grouped dictionary. */
  datatype Group = Group(grade: string, members: seq<string>)

  function Grades(gs: seq<Group>): (g: seq<string>)
    ensures |g| == |gs|
    ensures forall k :: 0 <= k < |gs| ==> g[k] == gs[k].grade
  {
    if gs == [] then [] else [gs[0].grade] + Grades(gs[1..])
  }

  /** All group lists one after the other. */
  function Flatten(gs: seq<Group>): (names: seq<string>)
  {
    if gs == [] then [] else gs[0].members + Flatten(gs[1..])
  }

  /** The position of the entry for `grade`, or `|gs|` when there is none yet. */
  function GroupIndex(gs: seq<Group>, grade: string): (k: nat)
    ensures k <= |gs|
    ensures k < |gs| ==> gs[k].grade == grade
    ensures forall j :: 0 <= j < k ==> gs[j].grade != grade
  {
    if gs == [] then 0 else if gs[0].grade == grade then 0 else 1 + GroupIndex(gs[1..], grade)
  }

  /** `grouped[m.grade].append(m.name)`: a missing key is appended last. */
  function AddMember(gs: seq<Group>, m: Member): (grown: seq<Group>)
  {
    var k := GroupIndex(gs, m.grade);
    if k < |gs| then gs[k := Group(m.grade, gs[k].members + [m.name])]
    else gs + [Group(m.grade, [m.name])]
  }

  /** The grouped dictionary after the first loop, lists still in roster order. */
  function Bucket(r: Roster): (groups: seq<Group>)
  {
    if r == [] then [] else AddMember(Bucket(r[..|r| - 1]), r[|r| - 1])
  }

  /** The second loop, `names.sort()` on every list. */
  function SortGroups(gs: seq<Group>): (sorted: seq<Group>)
    ensures |sorted| == |gs|
    ensures forall k :: 0 <= k < |gs| ==> sorted[k].grade == gs[k].grade
    ensures forall k :: 0 <= k < |gs| ==> Sorted(sorted[k].members)
    ensures forall k :: 0 <= k < |gs| ==> multiset(sorted[k].members) == multiset(gs[k].members)
  {
    seq(|gs|, k requires 0 <= k < |gs| => Group(gs[k].grade, SortNames(gs[k].members)))
  }

  /** The grouped roster: one entry per grade in first-seen order, each list sorted. */
  function GroupStaffByGrade(r: Roster): (gs: seq<Group>)
    // the lists hold one entry per roster entry
    ensures |Flatten(gs)| == |r|
  {
    BucketFlatten(r);
    SortGroupsFlatten(Bucket(r));
    assert |multiset(Flatten(Bucket(r)))| == |multiset(Names(r))|;
    SortGroups(Bucket(r))
  }

  /** What `group_staff_by_grade` promises about its result. */
  lemma GroupStaffByGradeShape(r: Roster)
    ensures var gs := GroupStaffByGrade(r);
      // a name sits in the group of its grade, and in no other
      && (forall k, n :: 0 <= k < |gs| ==> (n in gs[k].members <==> Member(n, gs[k].grade) in r))
      // one group per grade of the roster
      && (forall g :: g in Grades(gs) <==> HasGrade(r, g))
      && (forall a, c :: 0 <= a < c < |gs| ==> gs[a].grade != gs[c].grade)
      // groups in the order their grade first occurs
      && InFirstSeenOrder(gs, r)
      // every list sorted, none empty
      && (forall k :: 0 <= k < |gs| ==> Sorted(gs[k].members) && |gs[k].members| > 0)
      // together the lists hold exactly the roster's names, as often as the roster does
      && multiset(Flatten(gs)) == multiset(Names(r))
  {
    var b := Bucket(r);
    BucketShape(r);
    BucketFirstSeen(r);
    BucketFlatten(r);
    SortedGroupsMembers(b, r);
    SortedGroupsGrades(b, r);
    SortGroupsFlatten(b);
  }

  /** Sorting each list keeps which names each group holds. */
  lemma SortedGroupsMembers(b: seq<Group>, r: Roster)
    requires Shaped(b, r)
    ensures var gs := SortGroups(b);
      && (forall k, n :: 0 <= k < |gs| ==> (n in gs[k].members <==> Member(n, gs[k].grade) in r))
      && (forall k :: 0 <= k < |gs| ==> |gs[k].members| > 0)
  {
    var gs := SortGroups(b);
    forall k, n | 0 <= k < |gs|
      ensures n in gs[k].members <==> Member(n, gs[k].grade) in r
    {
      NamesWithGradeMembers(r, b[k].grade);
      assert n in gs[k].members <==> n in multiset(b[k].members);
    }
    forall k | 0 <= k < |gs|
      ensures |gs[k].members| > 0
    {
      assert |multiset(gs[k].members)| == |multiset(b[k].members)|;
    }
  }

  /** Sorting each list keeps the grades and their order. */
  lemma SortedGroupsGrades(b: seq<Group>, r: Roster)
    requires Shaped(b, r) && InFirstSeenOrder(b, r)
    ensures var gs := SortGroups(b);
      && (forall g :: g in Grades(gs) <==> HasGrade(r, g))
      && (forall a, c :: 0 <= a < c < |gs| ==> gs[a].grade != gs[c].grade)
      && InFirstSeenOrder(gs, r)
  {
    assert Grades(SortGroups(b)) == Grades(b);
  }

  /** The first loop's invariant: one group per grade seen, holding that grade's names in roster order. */
  ghost predicate Shaped(b: seq<Group>, r: Roster)
  {
    && (forall k :: 0 <= k < |b| ==> b[k].members == NamesWithGrade(r, b[k].grade))
    && (forall k :: 0 <= k < |b| ==> |b[k].members| > 0)
    && (forall a, c :: 0 <= a < c < |b| ==> b[a].grade != b[c].grade)
    && (forall g :: g in Grades(b) <==> HasGrade(r, g))
  }

  /** Groups appear in the order in which their grade first occurs in the roster. */
  ghost predicate InFirstSeenOrder(gs: seq<Group>, r: Roster)
  {
    forall a, c :: 0 <= a < c < |gs| ==>
      HasGrade(r, gs[a].grade) && HasGrade(r, gs[c].grade) &&
      FirstIndex(r, gs[a].grade) < FirstIndex(r, gs[c].grade)
  }

  lemma BucketSnoc(p: Roster, m: Member)
    ensures Bucket(p + [m]) == AddMember(Bucket(p), m)
  {
    assert (p + [m])[..|p|] == p;
  }

  /** One step of the first loop keeps its invariant. */
  lemma AddMemberShape(b: seq<Group>, p: Roster, m: Member)
    requires Shaped(b, p)
    ensures Shaped(AddMember(b, m), p + [m])
  {
    var r := p + [m];
    var b' := AddMember(b, m);
    GroupsOfAddMember(b, p, m);
    forall g
      ensures g in Grades(b') <==> HasGrade(r, g)
    {
      HasGradeSnoc(p, m, g);
    }
  }

  /** The lists after one step of the first loop: the new name joins its grade's list. */
  lemma GroupsOfAddMember(b: seq<Group>, p: Roster, m: Member)
    requires Shaped(b, p)
    ensures var b' := AddMember(b, m);
      && (forall j :: 0 <= j < |b'| ==> b'[j].members == NamesWithGrade(p + [m], b'[j].grade))
      && (forall j :: 0 <= j < |b'| ==> |b'[j].members| > 0)
      && (forall a, c :: 0 <= a < c < |b'| ==> b'[a].grade != b'[c].grade)
      && (forall g :: g in Grades(b') <==> g in Grades(b) || g == m.grade)
  {
    if GroupIndex(b, m.grade) < |b| {
      JoinExistingGroup(b, p, m);
    } else {
      OpenNewGroup(b, p, m);
    }
  }

  lemma JoinExistingGroup(b: seq<Group>, p: Roster, m: Member)
    requires Shaped(b, p)
    requires GroupIndex(b, m.grade) < |b|
    ensures var b' := AddMember(b, m);
      && (forall j :: 0 <= j < |b'| ==> b'[j].members == NamesWithGrade(p + [m], b'[j].grade))
      && (forall j :: 0 <= j < |b'| ==> |b'[j].members| > 0)
      && Grades(b') == Grades(b)
  {
    var r := p + [m];
    var k := GroupIndex(b, m.grade);
    var b' := AddMember(b, m);
    assert |b'| == |b| && b'[k] == Group(m.grade, b[k].members + [m.name]);
    forall j | 0 <= j < |b'|
      ensures b'[j].grade == b[j].grade
      ensures b'[j].members == NamesWithGrade(r, b'[j].grade)
    {
      NamesWithGradeSnoc(p, m, b[j].grade);
      if j != k {
        assert b'[j] == b[j];
        assert b[j].grade != m.grade;
      }
    }
    assert Grades(b') == Grades(b);
  }

  lemma OpenNewGroup(b: seq<Group>, p: Roster, m: Member)
    requires Shaped(b, p)
    requires GroupIndex(b, m.grade) == |b|
    ensures var b' := AddMember(b, m);
      && (forall j :: 0 <= j < |b'| ==> b'[j].members == NamesWithGrade(p + [m], b'[j].grade))
      && (forall j :: 0 <= j < |b'| ==> |b'[j].members| > 0)
      && Grades(b') == Grades(b) + [m.grade]
  {
    assert m.grade !in Grades(b);
    assert !HasGrade(p, m.grade);
    NamesWithGradeMembers(p, m.grade);
    NewGroupLists(b, p, m);
  }

  /** Appending a group for an unseen grade keeps the other lists and starts the new one with the new name. */
  lemma NewGroupLists(b: seq<Group>, p: Roster, m: Member)
    requires forall k :: 0 <= k < |b| ==> b[k].members == NamesWithGrade(p, b[k].grade)
    requires forall k :: 0 <= k < |b| ==> |b[k].members| > 0
    requires forall k :: 0 <= k < |b| ==> b[k].grade != m.grade
    requires NamesWithGrade(p, m.grade) == []
    requires GroupIndex(b, m.grade) == |b|
    ensures var b' := AddMember(b, m);
      && (forall j :: 0 <= j < |b'| ==> b'[j].members == NamesWithGrade(p + [m], b'[j].grade))
      && (forall j :: 0 <= j < |b'| ==> |b'[j].members| > 0)
      && Grades(b') == Grades(b) + [m.grade]
  {
    var r := p + [m];
    var b' := AddMember(b, m);
    assert b' == b + [Group(m.grade, [m.name])];
    forall j | 0 <= j < |b'|
      ensures b'[j].members == NamesWithGrade(r, b'[j].grade)
    {
      if j < |b| {
        NamesWithGradeSnoc(p, m, b[j].grade);
        assert b'[j] == b[j];
      } else {
        NamesWithGradeSnoc(p, m, m.grade);
      }
    }
    assert Grades(b') == Grades(b) + [m.grade];
  }

  lemma FirstIndexExtend(p: Roster, m: Member, g: string)
    requires HasGrade(p, g)
    ensures HasGrade(p + [m], g) && FirstIndex(p + [m], g) == FirstIndex(p, g)
  {
    var r := p + [m];
    var i := FirstIndex(p, g);
    assert r[i].grade == g;
    var i' := FirstIndex(r, g);
    assert i' <= i;
    assert p[i'].grade == g;
  }

  /** One step of the first loop keeps the first-seen order: a new grade goes last. */
  lemma AddMemberOrder(b: seq<Group>, p: Roster, m: Member)
    requires Shaped(b, p) && InFirstSeenOrder(b, p)
    ensures InFirstSeenOrder(AddMember(b, m), p + [m])
  {
    var r := p + [m];
    var b' := AddMember(b, m);
    forall a | 0 <= a < |b|
      ensures HasGrade(r, b[a].grade) && FirstIndex(r, b[a].grade) == FirstIndex(p, b[a].grade)
    {
      assert b[a].grade in Grades(b);
      FirstIndexExtend(p, m, b[a].grade);
    }
    if GroupIndex(b, m.grade) < |b| {
      assert forall j :: 0 <= j < |b| ==> b'[j].grade == b[j].grade;
    } else {
      NewGradeLast(b, p, m);
    }
  }

  lemma NewGradeLast(b: seq<Group>, p: Roster, m: Member)
    requires Shaped(b, p) && InFirstSeenOrder(b, p)
    requires GroupIndex(b, m.grade) == |b|
    requires forall a :: 0 <= a < |b| ==>
      HasGrade(p + [m], b[a].grade) && FirstIndex(p + [m], b[a].grade) == FirstIndex(p, b[a].grade)
    ensures InFirstSeenOrder(AddMember(b, m), p + [m])
  {
    var r := p + [m];
    var b' := AddMember(b, m);
    assert m.grade !in Grades(b);
    assert !HasGrade(p, m.grade);
    assert r[|p|].grade == m.grade;
    assert FirstIndex(r, m.grade) == |p|;
    assert b' == b + [Group(m.grade, [m.name])];
    forall a, c | 0 <= a < c < |b'|
      ensures HasGrade(r, b'[a].grade) && HasGrade(r, b'[c].grade)
      ensures FirstIndex(r, b'[a].grade) < FirstIndex(r, b'[c].grade)
    {
      assert b'[a] == b[a];
      assert b[a].grade in Grades(b);
      if c < |b| {
        assert b'[c] == b[c];
      } else {
        assert FirstIndex(p, b[a].grade) < |p|;
      }
    }
  }

  /** The first loop keeps its invariant. */
  lemma {:induction false} BucketShape(r: Roster)
    ensures Shaped(Bucket(r), r)
  {
    if r != [] {
      var p := r[..|r| - 1];
      BucketShape(p);
      assert r == p + [r[|r| - 1]];
      BucketSnoc(p, r[|r| - 1]);
      AddMemberShape(Bucket(p), p, r[|r| - 1]);
    }
  }

  /** The first loop lists the grades in first-seen order. */
  lemma {:induction false} BucketFirstSeen(r: Roster)
    ensures InFirstSeenOrder(Bucket(r), r)
  {
    if r != [] {
      var p := r[..|r| - 1];
      BucketShape(p);
      BucketFirstSeen(p);
      assert r == p + [r[|r| - 1]];
      BucketSnoc(p, r[|r| - 1]);
      AddMemberOrder(Bucket(p), p, r[|r| - 1]);
    }
  }

  /** The first loop files every name exactly once. */
  lemma {:induction false} BucketFlatten(r: Roster)
    ensures multiset(Flatten(Bucket(r))) == multiset(Names(r))
  {
    if r != [] {
      var p := r[..|r| - 1];
      var m := r[|r| - 1];
      var b := Bucket(p);
      BucketFlatten(p);
      assert r == p + [m];
      BucketSnoc(p, m);
      assert Names(r) == Names(p) + [m.name];
      var k := GroupIndex(b, m.grade);
      if k < |b| {
        FlattenGrowAt(b, k, m.name);
      } else {
        FlattenAppend(b, Group(m.grade, [m.name]));
      }
    }
  }

  lemma {:induction false} FlattenAppend(gs: seq<Group>, g: Group)
    ensures Flatten(gs + [g]) == Flatten(gs) + g.members
  {
    if gs != [] {
      assert (gs + [g])[1..] == gs[1..] + [g];
      FlattenAppend(gs[1..], g);
    } else {
      assert Flatten([g]) == g.members + Flatten([]);
    }
  }

  lemma {:induction false} FlattenGrowAt(gs: seq<Group>, k: nat, n: string)
    requires k < |gs|
    ensures multiset(Flatten(gs[k := Group(gs[k].grade, gs[k].members + [n])]))
         == multiset(Flatten(gs)) + multiset{n}
  {
    var gs' := gs[k := Group(gs[k].grade, gs[k].members + [n])];
    if k > 0 {
      assert gs'[1..] == gs[1..][k - 1 := Group(gs[k].grade, gs[k].members + [n])];
      FlattenGrowAt(gs[1..], k - 1, n);
    } else {
      assert gs'[1..] == gs[1..];
    }
  }

  lemma {:induction false} SortGroupsFlatten(gs: seq<Group>)
    ensures multiset(Flatten(SortGroups(gs))) == multiset(Flatten(gs))
    ensures |Flatten(SortGroups(gs))| == |Flatten(gs)|
  {
    if gs != [] {
      assert SortGroups(gs)[1..] == SortGroups(gs[1..]);
      SortGroupsFlatten(gs[1..]);
    }
    assert |multiset(Flatten(SortGroups(gs)))| == |Flatten(SortGroups(gs))|;
  }

  /** A name is listed somewhere exactly when the roster has it. */
  lemma GroupedNames(r: Roster)
    ensures forall n :: n in Flatten(GroupStaffByGrade(r)) <==> n in Names(r)
  {
    var gs := GroupStaffByGrade(r);
    GroupStaffByGradeShape(r);
    forall n
      ensures n in Flatten(gs) <==> n in Names(r)
    {
      assert n in Flatten(gs) <==> n in multiset(Flatten(gs));
      assert n in Names(r) <==> n in multiset(Names(r));
    }
  }

  /** With distinct names (a dictionary), every name is listed exactly once, in exactly one group. */
  lemma GroupNamesOnce(r: Roster)
    requires DistinctNames(r)
    ensures var gs := GroupStaffByGrade(r);
      && (forall n :: n in Names(r) ==> multiset(Flatten(gs))[n] == 1)
      && (forall n :: n !in Names(r) ==> multiset(Flatten(gs))[n] == 0)
      && (forall a, c, n :: 0 <= a < |gs| && 0 <= c < |gs| && n in gs[a].members && n in gs[c].members ==> a == c)
  {
    var gs := GroupStaffByGrade(r);
    GroupStaffByGradeShape(r);
    DistinctNamesOnce(r);
    DistinctNamesFunctional(r);
    forall a, c, n | 0 <= a < |gs| && 0 <= c < |gs| && n in gs[a].members && n in gs[c].members
      ensures a == c
    {
      assert Member(n, gs[a].grade) in r && Member(n, gs[c].grade) in r;
    }
  }
}
