/**
 * The staff roster: the `name -> grade` dictionary the tracker scrapes,
 * kept as its items in dictionary (first-insertion) order, and the
 * order-free snapshot view of it that is diffed and saved.
 */
module Roster {

  /** One staff member: pseudonym and grade label. */
  datatype Member = Member(name: string, grade: string)

  /** The items of a `Dict[str, str]`, in iteration order. */
  type Roster = seq<Member>

  /** A snapshot: pseudonym -> grade, order irrelevant. */
  type Snapshot = map<string, string>

  /** Dictionary keys are unique. */
  predicate DistinctNames(r: Roster)
  {
    forall i, j :: 0 <= i < j < |r| ==> r[i].name != r[j].name
  }

  function Names(r: Roster): (ns: seq<string>)
    ensures |ns| == |r|
    ensures forall i :: 0 <= i < |r| ==> ns[i] == r[i].name
  {
    if r == [] then [] else Names(r[..|r| - 1]) + [r[|r| - 1].name]
  }

  lemma DistinctNamesFunctional(r: Roster)
    requires DistinctNames(r)
    ensures forall a, b :: a in r && b in r && a.name == b.name ==> a == b
  {
  }

  /** The snapshot view of a roster: the dictionary itself. */
  function ToSnapshot(r: Roster): (s: Snapshot)
    requires DistinctNames(r)
    ensures forall n :: n in s <==> n in Names(r)
    ensures forall m :: m in r ==> m.name in s && s[m.name] == m.grade
  {
    DistinctNamesFunctional(r);
    map m | m in r :: m.name := m.grade
  }

  /** Some member holds grade `g`. */
  predicate HasGrade(r: Roster, g: string)
  {
    exists i :: 0 <= i < |r| && r[i].grade == g
  }

  /** The position of the first member holding grade `g`. */
  function FirstIndex(r: Roster, g: string): (i: nat)
    requires HasGrade(r, g)
    ensures i < |r| && r[i].grade == g
    ensures forall j :: 0 <= j < i ==> r[j].grade != g
  {
    if r[0].grade == g then 0 else 1 + FirstIndex(r[1..], g)
  }

  /** The names holding grade `g`, in roster order. */
  function NamesWithGrade(r: Roster, g: string): (names: seq<string>)
  {
    if r == [] then []
    else NamesWithGrade(r[..|r| - 1], g) + (if r[|r| - 1].grade == g then [r[|r| - 1].name] else [])
  }

  lemma {:induction false} NamesWithGradeMembers(r: Roster, g: string)
    ensures forall n :: n in NamesWithGrade(r, g) <==> Member(n, g) in r
    ensures |NamesWithGrade(r, g)| > 0 <==> HasGrade(r, g)
  {
    if r != [] {
      var p := r[..|r| - 1];
      NamesWithGradeMembers(p, g);
      assert r == p + [r[|r| - 1]];
      if HasGrade(r, g) && r[|r| - 1].grade != g {
        var i :| 0 <= i < |r| && r[i].grade == g;
        assert p[i].grade == g;
      }
    }
  }

  lemma HasGradeSnoc(p: Roster, m: Member, g: string)
    ensures HasGrade(p + [m], g) <==> HasGrade(p, g) || g == m.grade
  {
    var r := p + [m];
    if HasGrade(r, g) && g != m.grade {
      var i :| 0 <= i < |r| && r[i].grade == g;
      assert p[i].grade == g;
    }
    if HasGrade(p, g) {
      var i :| 0 <= i < |p| && p[i].grade == g;
      assert r[i].grade == g;
    }
    if g == m.grade {
      assert r[|p|].grade == g;
    }
  }

  lemma NamesWithGradeSnoc(p: Roster, m: Member, g: string)
    ensures NamesWithGrade(p + [m], g) == NamesWithGrade(p, g) + (if m.grade == g then [m.name] else [])
  {
    assert (p + [m])[..|p|] == p;
  }

  /** Without duplicate keys, every name occurs once in the key list. */
  lemma {:induction false} DistinctNamesOnce(r: Roster)
    requires DistinctNames(r)
    ensures forall n :: n in Names(r) ==> multiset(Names(r))[n] == 1
  {
    if r != [] {
      var p := r[..|r| - 1];
      DistinctNamesOnce(p);
      assert Names(r) == Names(p) + [r[|r| - 1].name];
      assert r[|r| - 1].name !in Names(p);
    }
  }
}
