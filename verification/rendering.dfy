/**
 * The two chat messages: the roster listing (`format_staff_list`) and the
 * change alert (`format_alerts`), each a list of lines joined by newlines,
 * plus the normalisation of the removed members' rank lookups.
 */
module Rendering {
  import opened Wrappers
  import opened Decimal
  import opened Lines
  import opened Roster
  import opened SnapshotDiff
  import opened Grouping
  import Ordering

  // ---------------------------------------------------------------------
  // The roster listing
  // ---------------------------------------------------------------------

  const StaffListTitle: string := "__Staff Rinaorc :__"

  /** `**{grade.upper()} [{len(members)}]** :`; the case mapping is a parameter. */
  function TitleLine(g: Group, upper: string -> string): (line: string)
  {
    "**" + upper(g.grade) + " [" + NatToString(|g.members|) + "]** :"
  }

  /** `- ``{member}``` */
  function MemberLine(name: string): (line: string)
  {
    "- ``" + name + "``"
  }

  /** One line per member, in list order. */
  function MemberLines(ms: seq<string>): (ls: seq<string>)
    ensures |ls| == |ms|
    ensures forall j :: 0 <= j < |ms| ==> ls[j] == MemberLine(ms[j])
  {
    if ms == [] then [] else [MemberLine(ms[0])] + MemberLines(ms[1..])
  }

  /** One grade's block: its title, one line per member in list order, a blank line. */
  function GroupLines(g: Group, upper: string -> string): (ls: seq<string>)
  {
    [TitleLine(g, upper)] + MemberLines(g.members) + [""]
  }

  /** A grade's block: title line first, then member `j` on line `1 + j`, and a blank line last. */
  lemma GroupLinesLayout(g: Group, upper: string -> string)
    ensures var ls := GroupLines(g, upper);
      && |ls| == |g.members| + 2
      && ls[0] == TitleLine(g, upper) && ls[|ls| - 1] == ""
      && forall j :: 0 <= j < |g.members| ==> ls[1 + j] == MemberLine(g.members[j])
  {
  }

  function BodyLines(gs: seq<Group>, upper: string -> string): (ls: seq<string>)
  {
    if gs == [] then [] else GroupLines(gs[0], upper) + BodyLines(gs[1..], upper)
  }

  function StaffListLines(r: Roster, upper: string -> string): (ls: seq<string>)
  {
    [StaffListTitle, ""] + BodyLines(GroupStaffByGrade(r), upper)
  }

  /** `format_staff_list`. */
  function FormatStaffList(r: Roster, upper: string -> string): (text: string)
  {
    Text(StaffListLines(r, upper))
  }

  /** The body is one block per group: the blocks of a concatenation are concatenated. */
  lemma {:induction false} BodyAppend(xs: seq<Group>, ys: seq<Group>, upper: string -> string)
    ensures BodyLines(xs + ys, upper) == BodyLines(xs, upper) + BodyLines(ys, upper)
  {
    if xs == [] {
      assert xs + ys == ys;
    } else {
      var zs := xs + ys;
      assert zs[0] == xs[0];
      assert zs[1..] == xs[1..] + ys;
      BodyAppend(xs[1..], ys, upper);
      calc {
        BodyLines(zs, upper);
        GroupLines(xs[0], upper) + BodyLines(xs[1..] + ys, upper);
        GroupLines(xs[0], upper) + (BodyLines(xs[1..], upper) + BodyLines(ys, upper));
        (GroupLines(xs[0], upper) + BodyLines(xs[1..], upper)) + BodyLines(ys, upper);
      }
    }
  }

  lemma SplitAt<T>(s: seq<T>, k: nat)
    requires k <= |s|
    ensures s == s[..k] + s[k..]
  {
  }

  /** Every group contributes its members and two more lines. */
  lemma {:induction false} BodyLength(gs: seq<Group>, upper: string -> string)
    ensures |BodyLines(gs, upper)| == |Flatten(gs)| + 2 * |gs|
  {
    if gs != [] {
      BodyLength(gs[1..], upper);
    }
  }

  /** Group `k`'s block sits between the blocks of the groups before it and those after it. */
  lemma BodyBlockAt(gs: seq<Group>, upper: string -> string, k: nat)
    requires k < |gs|
    ensures BodyLines(gs, upper) == BodyLines(gs[..k], upper) + (GroupLines(gs[k], upper) + BodyLines(gs[k + 1..], upper))
  {
    SplitAt(gs, k);
    BodyAppend(gs[..k], gs[k..], upper);
    assert gs[k..][1..] == gs[k + 1..];
  }

  /**
   * The listing's shape: the title, a blank line, then per grade in
   * first-seen order its block (title line, one line per member, blank
   * line); the blocks before grade `k` take two lines per grade plus one
   * per member.
   */
  lemma StaffListLayout(r: Roster, upper: string -> string)
    ensures var gs := GroupStaffByGrade(r);
      var ls := StaffListLines(r, upper);
      && |ls| == 2 + |r| + 2 * |gs|
      && forall k :: 0 <= k < |gs| ==>
        && ls == [StaffListTitle, ""] + (BodyLines(gs[..k], upper) + (GroupLines(gs[k], upper) + BodyLines(gs[k + 1..], upper)))
        && |BodyLines(gs[..k], upper)| == |Flatten(gs[..k])| + 2 * k
  {
    var gs := GroupStaffByGrade(r);
    BodyLength(gs, upper);
    forall k | 0 <= k < |gs|
      ensures StaffListLines(r, upper) == [StaffListTitle, ""] + (BodyLines(gs[..k], upper) + (GroupLines(gs[k], upper) + BodyLines(gs[k + 1..], upper)))
      ensures |BodyLines(gs[..k], upper)| == |Flatten(gs[..k])| + 2 * k
    {
      BodyBlockAt(gs, upper, k);
      BodyLength(gs[..k], upper);
    }
  }

  lemma MemberLineInjective(a: string, b: string)
    requires MemberLine(a) == MemberLine(b)
    ensures a == b
  {
    assert a == MemberLine(a)[4..4 + |a|];
    assert b == MemberLine(b)[4..4 + |b|];
  }

  lemma {:induction false} BodyMembers(gs: seq<Group>, upper: string -> string, n: string)
    ensures MemberLine(n) in BodyLines(gs, upper) <==> n in Flatten(gs)
  {
    if gs != [] {
      BodyMembers(gs[1..], upper, n);
      var g := gs[0];
      var ms := MemberLines(g.members);
      assert GroupLines(g, upper) == [TitleLine(g, upper)] + ms + [""];
      assert MemberLine(n) != TitleLine(g, upper) by {
        assert MemberLine(n)[0] == '-' && TitleLine(g, upper)[0] == '*';
      }
      assert MemberLine(n) != "" by {
        assert |MemberLine(n)| >= 6;
      }
      if MemberLine(n) in ms {
        var j :| 0 <= j < |ms| && ms[j] == MemberLine(n);
        MemberLineInjective(n, g.members[j]);
      }
      if n in g.members {
        var j :| 0 <= j < |g.members| && g.members[j] == n;
        assert ms[j] == MemberLine(n);
      }
      assert BodyLines(gs, upper) == GroupLines(g, upper) + BodyLines(gs[1..], upper);
    }
  }

  /** Exactly the roster's names are listed. */
  lemma StaffListNames(r: Roster, upper: string -> string)
    ensures forall n :: MemberLine(n) in StaffListLines(r, upper) <==> n in Names(r)
  {
    var gs := GroupStaffByGrade(r);
    GroupedNames(r);
    forall n
      ensures MemberLine(n) in StaffListLines(r, upper) <==> n in Names(r)
    {
      BodyMembers(gs, upper, n);
      assert MemberLine(n) != StaffListTitle by {
        assert MemberLine(n)[0] != StaffListTitle[0];
      }
      assert MemberLine(n) != "" by {
        assert |MemberLine(n)| >= 6;
      }
    }
  }

  lemma NoNewlineConcat(a: string, b: string)
    requires NoNewline(a) && NoNewline(b)
    ensures NoNewline(a + b)
  {
    forall j | 0 <= j < |a + b|
      ensures (a + b)[j] != '\n'
    {
      if j < |a| {
        assert (a + b)[j] == a[j];
      } else {
        assert (a + b)[j] == b[j - |a|];
      }
    }
  }

  /** A grade's block has no line break inside a line when its upper-cased grade and its names have none. */
  lemma GroupLinesNoNewline(g: Group, upper: string -> string)
    requires NoNewline(upper(g.grade))
    requires forall j :: 0 <= j < |g.members| ==> NoNewline(g.members[j])
    ensures forall i :: 0 <= i < |GroupLines(g, upper)| ==> NoNewline(GroupLines(g, upper)[i])
  {
    var ls := GroupLines(g, upper);
    GroupLinesLayout(g, upper);
    var count := NatToString(|g.members|);
    assert NoNewline(count) by {
      forall j | 0 <= j < |count|
        ensures count[j] != '\n'
      {
        assert IsDigit(count[j]);
      }
    }
    NoNewlineConcat("**", upper(g.grade));
    NoNewlineConcat("**" + upper(g.grade), " [");
    NoNewlineConcat("**" + upper(g.grade) + " [", count);
    NoNewlineConcat("**" + upper(g.grade) + " [" + count, "]** :");
    forall j | 0 <= j < |g.members|
      ensures NoNewline(MemberLine(g.members[j]))
    {
      NoNewlineConcat("- ``", g.members[j]);
      NoNewlineConcat("- ``" + g.members[j], "``");
    }
    forall i | 0 <= i < |ls|
      ensures NoNewline(ls[i])
    {
      if 0 < i < |ls| - 1 {
        assert ls[i] == MemberLine(g.members[i - 1]);
      }
    }
  }

  lemma {:induction false} BodyNoNewline(gs: seq<Group>, upper: string -> string)
    requires forall k :: 0 <= k < |gs| ==> NoNewline(upper(gs[k].grade))
    requires forall k, j :: 0 <= k < |gs| && 0 <= j < |gs[k].members| ==> NoNewline(gs[k].members[j])
    ensures forall i :: 0 <= i < |BodyLines(gs, upper)| ==> NoNewline(BodyLines(gs, upper)[i])
  {
    if gs != [] {
      var head := GroupLines(gs[0], upper);
      var rest := BodyLines(gs[1..], upper);
      GroupLinesNoNewline(gs[0], upper);
      BodyNoNewline(gs[1..], upper);
      forall i | 0 <= i < |head + rest|
        ensures NoNewline((head + rest)[i])
      {
        if i >= |head| {
          assert (head + rest)[i] == rest[i - |head|];
        }
      }
    }
  }

  /**
   * The listing splits back into its lines when no name and no upper-cased
   * grade holds a line break: the text sent is exactly the lines above, one
   * per line.
   */
  lemma StaffListText(r: Roster, upper: string -> string)
    requires forall m :: m in r ==> NoNewline(m.name) && NoNewline(upper(m.grade))
    ensures SplitLines(FormatStaffList(r, upper)) == StaffListLines(r, upper)
  {
    var gs := GroupStaffByGrade(r);
    GroupsNoNewline(r, upper);
    BodyNoNewline(gs, upper);
    ListingNoNewline(BodyLines(gs, upper));
    SplitText(StaffListLines(r, upper));
  }

  /** The title and the blank line add no line break to a body that has none. */
  lemma ListingNoNewline(body: seq<string>)
    requires forall i :: 0 <= i < |body| ==> NoNewline(body[i])
    ensures var ls := [StaffListTitle, ""] + body;
      forall i :: 0 <= i < |ls| ==> NoNewline(ls[i])
  {
    var ls := [StaffListTitle, ""] + body;
    forall i | 0 <= i < |ls|
      ensures NoNewline(ls[i])
    {
      if i >= 2 {
        assert ls[i] == body[i - 2];
      }
    }
  }

  /** Every grade and name of the grouping comes from the roster. */
  lemma GroupsNoNewline(r: Roster, upper: string -> string)
    requires forall m :: m in r ==> NoNewline(m.name) && NoNewline(upper(m.grade))
    ensures var gs := GroupStaffByGrade(r);
      && (forall k :: 0 <= k < |gs| ==> NoNewline(upper(gs[k].grade)))
      && (forall k, j :: 0 <= k < |gs| && 0 <= j < |gs[k].members| ==> NoNewline(gs[k].members[j]))
  {
    var gs := GroupStaffByGrade(r);
    GroupStaffByGradeShape(r);
    forall k | 0 <= k < |gs|
      ensures NoNewline(upper(gs[k].grade))
    {
      assert Grades(gs)[k] == gs[k].grade;
      assert HasGrade(r, gs[k].grade);
      var i :| 0 <= i < |r| && r[i].grade == gs[k].grade;
      assert r[i] in r;
    }
    forall k, j | 0 <= k < |gs| && 0 <= j < |gs[k].members|
      ensures NoNewline(gs[k].members[j])
    {
      assert gs[k].members[j] in gs[k].members;
    }
  }

  // ---------------------------------------------------------------------
  // The alert
  // ---------------------------------------------------------------------

  /** `order` lists every element of `s` once: one possible iteration order of the set. */
  predicate IsEnumeration(order: seq<string>, s: set<string>)
  {
    && (forall i, j :: 0 <= i < j < |order| ==> order[i] != order[j])
    && (forall i :: 0 <= i < |order| ==> order[i] in s)
    && (forall n :: n in s ==> n in order)
  }

  lemma {:induction false} EnumerationSize(order: seq<string>, s: set<string>)
    requires IsEnumeration(order, s)
    ensures |order| == |s|
  {
    if order == [] {
      assert forall n :: n !in s by {
        forall n ensures n !in s {
          assert n !in order;
        }
      }
      assert s == {};
    } else {
      var x := order[|order| - 1];
      var p := order[..|order| - 1];
      assert order == p + [x];
      assert x !in p;
      assert forall n :: n in p <==> n in s - {x};
      EnumerationSize(p, s - {x});
    }
  }

  /** The alert's first line, mentioning the notified role. */
  function AlertHeader(role: int): (line: string)
  {
    "**Annonce Staff** | <@&" + IntToString(role) + "> :bust_in_silhouette: "
  }

  /** ``` ``{name}`` passe de **{from}** à **{to}**. ``` */
  function TransitionLine(name: string, from: string, to: string): (line: string)
  {
    "``" + name + "`` passe de **" + from + "** à **" + to + "**."
  }

  /** `dict.get(key, default)`. */
  function GetOr(m: Snapshot, key: string, default: string): (v: string)
  {
    if key in m then m[key] else default
  }

  /** `d.get(key)`: the stored value, or `None` when the key is missing. */
  function MapGet(m: map<string, Option<string>>, key: string): (v: Option<string>)
  {
    if key in m then m[key] else None
  }

  /** Python truthiness of a `str | None`: `None` and `""` are false. */
  predicate TruthyStr(x: Option<string>)
  {
    x.Some? && x.value != ""
  }

  /** `x or default` on a `str | None`. */
  function OrElse(x: Option<string>, default: string): (v: string)
  {
    if TruthyStr(x) then x.value else default
  }

  /** `v if v else default` on a `str`. */
  function IfTruthy(v: string, default: string): (w: string)
  {
    if TruthyStr(Some(v)) then v else default
  }

  /**
   * The new rank of a removed member: `new_grade = removed_rank_map.get(name) or "N/A"`,
   * then `new_grade if new_grade else 'N/A'`. A usable (non-empty) rank is shown
   * as it is; a missing entry, `None` or an empty string shows as N/A; and the
   * second test never changes anything.
   */
  function DisplayedRank(rankMap: map<string, Option<string>>, name: string): (shown: string)
    ensures shown != ""
    ensures shown == "N/A" || (name in rankMap && rankMap[name] == Some(shown))
    ensures name in rankMap && rankMap[name].Some? && rankMap[name].value != "" ==> shown == rankMap[name].value
    ensures shown == OrElse(MapGet(rankMap, name), "N/A")
  {
    var newGrade := OrElse(MapGet(rankMap, name), "N/A");
    IfTruthy(newGrade, "N/A")
  }

  function AddedLine(name: string, newStaff: Snapshot): (line: string)
  {
    TransitionLine(name, "N/A", GetOr(newStaff, name, "N/A"))
  }

  function RemovedLine(name: string, oldStaff: Snapshot, rankMap: map<string, Option<string>>): (line: string)
  {
    TransitionLine(name, GetOr(oldStaff, name, "N/A"), DisplayedRank(rankMap, name))
  }

  function ChangedLine(name: string, change: GradeChange): (line: string)
  {
    TransitionLine(name, change.before, change.after)
  }

  function AddedBlock(order: seq<string>, newStaff: Snapshot): (block: seq<string>)
    ensures |block| == |order|
  {
    seq(|order|, i requires 0 <= i < |order| => AddedLine(order[i], newStaff))
  }

  function RemovedBlock(order: seq<string>, oldStaff: Snapshot, rankMap: map<string, Option<string>>): (block: seq<string>)
    ensures |block| == |order|
  {
    seq(|order|, i requires 0 <= i < |order| => RemovedLine(order[i], oldStaff, rankMap))
  }

  function ChangedBlock(order: seq<string>, changed: map<string, GradeChange>): (block: seq<string>)
    requires forall i :: 0 <= i < |order| ==> order[i] in changed
    ensures |block| == |order|
  {
    seq(|order|, i requires 0 <= i < |order| => ChangedLine(order[i], changed[order[i]]))
  }

  /** The alert's lines; the order inside each category is the given iteration order. */
  function AlertLines(added: set<string>, removed: set<string>, changed: map<string, GradeChange>,
                      oldStaff: Snapshot, newStaff: Snapshot, rankMap: map<string, Option<string>>, role: int,
                      addedOrder: seq<string>, removedOrder: seq<string>, changedOrder: seq<string>): (ls: seq<string>)
    requires IsEnumeration(addedOrder, added)
    requires IsEnumeration(removedOrder, removed)
    requires IsEnumeration(changedOrder, changed.Keys)
  {
    [AlertHeader(role), ""]
    + AddedBlock(addedOrder, newStaff)
    + RemovedBlock(removedOrder, oldStaff, rankMap)
    + ChangedBlock(changedOrder, changed)
  }

  /** The added block has one line per added name and no other line. */
  lemma AddedBlockImage(order: seq<string>, s: set<string>, newStaff: Snapshot)
    requires IsEnumeration(order, s)
    ensures var block := AddedBlock(order, newStaff);
      && |block| == |s|
      && (forall n :: n in s ==> AddedLine(n, newStaff) in block)
      && (forall l :: l in block ==> exists n :: n in s && l == AddedLine(n, newStaff))
  {
    var block := AddedBlock(order, newStaff);
    EnumerationSize(order, s);
    forall n | n in s
      ensures AddedLine(n, newStaff) in block
    {
      var i :| 0 <= i < |order| && order[i] == n;
      assert block[i] == AddedLine(n, newStaff);
    }
    forall l | l in block
      ensures exists n :: n in s && l == AddedLine(n, newStaff)
    {
      var i :| 0 <= i < |block| && block[i] == l;
      assert order[i] in s;
    }
  }

  /** The removed block has one line per removed name and no other line. */
  lemma RemovedBlockImage(order: seq<string>, s: set<string>, oldStaff: Snapshot, rankMap: map<string, Option<string>>)
    requires IsEnumeration(order, s)
    ensures var block := RemovedBlock(order, oldStaff, rankMap);
      && |block| == |s|
      && (forall n :: n in s ==> RemovedLine(n, oldStaff, rankMap) in block)
      && (forall l :: l in block ==> exists n :: n in s && l == RemovedLine(n, oldStaff, rankMap))
  {
    var block := RemovedBlock(order, oldStaff, rankMap);
    EnumerationSize(order, s);
    forall n | n in s
      ensures RemovedLine(n, oldStaff, rankMap) in block
    {
      var i :| 0 <= i < |order| && order[i] == n;
      assert block[i] == RemovedLine(n, oldStaff, rankMap);
    }
    forall l | l in block
      ensures exists n :: n in s && l == RemovedLine(n, oldStaff, rankMap)
    {
      var i :| 0 <= i < |block| && block[i] == l;
      assert order[i] in s;
    }
  }

  /** The changed block has one line per changed name and no other line. */
  lemma ChangedBlockImage(order: seq<string>, changed: map<string, GradeChange>)
    requires IsEnumeration(order, changed.Keys)
    ensures var block := ChangedBlock(order, changed);
      && |block| == |changed|
      && (forall n :: n in changed ==> ChangedLine(n, changed[n]) in block)
      && (forall l :: l in block ==> exists n :: n in changed && l == ChangedLine(n, changed[n]))
  {
    var block := ChangedBlock(order, changed);
    EnumerationSize(order, changed.Keys);
    forall n | n in changed
      ensures ChangedLine(n, changed[n]) in block
    {
      var i :| 0 <= i < |order| && order[i] == n;
      assert block[i] == ChangedLine(n, changed[n]);
    }
    forall l | l in block
      ensures exists n :: n in changed && l == ChangedLine(n, changed[n])
    {
      var i :| 0 <= i < |block| && block[i] == l;
      assert order[i] in changed;
    }
  }

  /** `format_alerts`. */
  function FormatAlerts(added: set<string>, removed: set<string>, changed: map<string, GradeChange>,
                        oldStaff: Snapshot, newStaff: Snapshot, rankMap: map<string, Option<string>>, role: int,
                        addedOrder: seq<string>, removedOrder: seq<string>, changedOrder: seq<string>): (text: string)
    requires IsEnumeration(addedOrder, added)
    requires IsEnumeration(removedOrder, removed)
    requires IsEnumeration(changedOrder, changed.Keys)
  {
    Text(AlertLines(added, removed, changed, oldStaff, newStaff, rankMap, role, addedOrder, removedOrder, changedOrder))
  }

  /**
   * The alert's shape: header, blank line, then the added block, the removed
   * block and the changed block, each with one line per name of its category
   * and no other line, whatever the iteration order.
   */
  lemma AlertLayout(added: set<string>, removed: set<string>, changed: map<string, GradeChange>,
                    oldStaff: Snapshot, newStaff: Snapshot, rankMap: map<string, Option<string>>, role: int,
                    addedOrder: seq<string>, removedOrder: seq<string>, changedOrder: seq<string>)
    requires IsEnumeration(addedOrder, added)
    requires IsEnumeration(removedOrder, removed)
    requires IsEnumeration(changedOrder, changed.Keys)
    ensures var ls := AlertLines(added, removed, changed, oldStaff, newStaff, rankMap, role,
                                 addedOrder, removedOrder, changedOrder);
      var a := 2 + |added|;
      var b := a + |removed|;
      && |ls| == b + |changed|
      && ls[0] == AlertHeader(role) && ls[1] == ""
      && (forall n :: n in added ==> AddedLine(n, newStaff) in ls[2..a])
      && (forall l :: l in ls[2..a] ==> exists n :: n in added && l == AddedLine(n, newStaff))
      && (forall n :: n in removed ==> RemovedLine(n, oldStaff, rankMap) in ls[a..b])
      && (forall l :: l in ls[a..b] ==> exists n :: n in removed && l == RemovedLine(n, oldStaff, rankMap))
      && (forall n :: n in changed ==> ChangedLine(n, changed[n]) in ls[b..])
      && (forall l :: l in ls[b..] ==> exists n :: n in changed && l == ChangedLine(n, changed[n]))
  {
    AddedBlockImage(addedOrder, added, newStaff);
    RemovedBlockImage(removedOrder, removed, oldStaff, rankMap);
    ChangedBlockImage(changedOrder, changed);
    AlertSlices(added, removed, changed, oldStaff, newStaff, rankMap, role, addedOrder, removedOrder, changedOrder);
  }

  /** The three blocks sit one after the other behind the header and the blank line. */
  lemma AlertSlices(added: set<string>, removed: set<string>, changed: map<string, GradeChange>,
                    oldStaff: Snapshot, newStaff: Snapshot, rankMap: map<string, Option<string>>, role: int,
                    addedOrder: seq<string>, removedOrder: seq<string>, changedOrder: seq<string>)
    requires IsEnumeration(addedOrder, added)
    requires IsEnumeration(removedOrder, removed)
    requires IsEnumeration(changedOrder, changed.Keys)
    requires |addedOrder| == |added| && |removedOrder| == |removed| && |changedOrder| == |changed|
    ensures var ls := AlertLines(added, removed, changed, oldStaff, newStaff, rankMap, role,
                                 addedOrder, removedOrder, changedOrder);
      var a := 2 + |added|;
      var b := a + |removed|;
      && |ls| == b + |changed|
      && ls[0] == AlertHeader(role) && ls[1] == ""
      && ls[2..a] == AddedBlock(addedOrder, newStaff)
      && ls[a..b] == RemovedBlock(removedOrder, oldStaff, rankMap)
      && ls[b..] == ChangedBlock(changedOrder, changed)
  {
    var ab := AddedBlock(addedOrder, newStaff);
    var rb := RemovedBlock(removedOrder, oldStaff, rankMap);
    var cb := ChangedBlock(changedOrder, changed);
    SliceParts([AlertHeader(role), ""], ab, rb, cb);
  }

  lemma SliceParts<T>(h: seq<T>, x: seq<T>, y: seq<T>, z: seq<T>)
    ensures var s := h + x + y + z;
      && s[..|h|] == h
      && s[|h|..|h| + |x|] == x
      && s[|h| + |x|..|h| + |x| + |y|] == y
      && s[|h| + |x| + |y|..] == z
  {
  }

  /** Every line of `ls` is free of line breaks. */
  predicate LinesNoNewline(ls: seq<string>)
  {
    forall i :: 0 <= i < |ls| ==> NoNewline(ls[i])
  }

  lemma LinesNoNewlineConcat(xs: seq<string>, ys: seq<string>)
    requires LinesNoNewline(xs) && LinesNoNewline(ys)
    ensures LinesNoNewline(xs + ys)
  {
    forall i | 0 <= i < |xs + ys|
      ensures NoNewline((xs + ys)[i])
    {
      if i >= |xs| {
        assert (xs + ys)[i] == ys[i - |xs|];
      }
    }
  }

  lemma HeaderNoNewline(role: int)
    ensures NoNewline(AlertHeader(role))
  {
    var digits := NatToString(if role < 0 then -role else role);
    assert NoNewline(digits) by {
      forall j | 0 <= j < |digits|
        ensures digits[j] != '\n'
      {
        assert IsDigit(digits[j]);
      }
    }
    NoNewlineConcat("-", digits);
    var id := IntToString(role);
    NoNewlineConcat("**Annonce Staff** | <@&", id);
    NoNewlineConcat("**Annonce Staff** | <@&" + id, "> :bust_in_silhouette: ");
  }

  lemma TransitionNoNewline(name: string, from: string, to: string)
    requires NoNewline(name) && NoNewline(from) && NoNewline(to)
    ensures NoNewline(TransitionLine(name, from, to))
  {
    var a := "``" + name;
    NoNewlineConcat("``", name);
    NoNewlineConcat(a, "`` passe de **");
    NoNewlineConcat(a + "`` passe de **", from);
    NoNewlineConcat(a + "`` passe de **" + from, "** à **");
    NoNewlineConcat(a + "`` passe de **" + from + "** à **", to);
    NoNewlineConcat(a + "`` passe de **" + from + "** à **" + to, "**.");
  }

  /**
   * The alert splits back into its lines when no name, grade or looked-up
   * rank holds a line break: the text sent is exactly the lines above, one
   * per line.
   */
  lemma AlertText(added: set<string>, removed: set<string>, changed: map<string, GradeChange>,
                  oldStaff: Snapshot, newStaff: Snapshot, rankMap: map<string, Option<string>>, role: int,
                  addedOrder: seq<string>, removedOrder: seq<string>, changedOrder: seq<string>)
    requires IsEnumeration(addedOrder, added)
    requires IsEnumeration(removedOrder, removed)
    requires IsEnumeration(changedOrder, changed.Keys)
    requires forall n :: n in added + removed + changed.Keys ==> NoNewline(n)
    requires forall n :: n in oldStaff ==> NoNewline(oldStaff[n])
    requires forall n :: n in newStaff ==> NoNewline(newStaff[n])
    requires forall n :: n in rankMap && rankMap[n].Some? ==> NoNewline(rankMap[n].value)
    requires forall n :: n in changed ==> NoNewline(changed[n].before) && NoNewline(changed[n].after)
    ensures SplitLines(FormatAlerts(added, removed, changed, oldStaff, newStaff, rankMap, role,
                                    addedOrder, removedOrder, changedOrder))
      == AlertLines(added, removed, changed, oldStaff, newStaff, rankMap, role, addedOrder, removedOrder, changedOrder)
  {
    var na := "N/A";
    assert NoNewline(na);
    var ab := AddedBlock(addedOrder, newStaff);
    forall i | 0 <= i < |ab|
      ensures NoNewline(ab[i])
    {
      var n := addedOrder[i];
      assert n in added + removed + changed.Keys;
      TransitionNoNewline(n, na, GetOr(newStaff, n, na));
    }
    var rb := RemovedBlock(removedOrder, oldStaff, rankMap);
    forall i | 0 <= i < |rb|
      ensures NoNewline(rb[i])
    {
      var n := removedOrder[i];
      assert n in added + removed + changed.Keys;
      TransitionNoNewline(n, GetOr(oldStaff, n, na), DisplayedRank(rankMap, n));
    }
    var cb := ChangedBlock(changedOrder, changed);
    forall i | 0 <= i < |cb|
      ensures NoNewline(cb[i])
    {
      var n := changedOrder[i];
      assert n in added + removed + changed.Keys;
      TransitionNoNewline(n, changed[n].before, changed[n].after);
    }
    var head := [AlertHeader(role), ""];
    HeaderNoNewline(role);
    assert LinesNoNewline(head);
    LinesNoNewlineConcat(head, ab);
    LinesNoNewlineConcat(head + ab, rb);
    LinesNoNewlineConcat(head + ab + rb, cb);
    SplitText(AlertLines(added, removed, changed, oldStaff, newStaff, rankMap, role, addedOrder, removedOrder, changedOrder));
  }

  // ---------------------------------------------------------------------
  // Rank lookups for removed members
  // ---------------------------------------------------------------------

  /** One element of `asyncio.gather(..., return_exceptions=True)` over `fetch_player_rank`. */
  datatype RankLookup = RankFound(rank: string) | RankNotFound | LookupRaised

  /** `isinstance(rank, str) or rank is None`: a rank string and `None` are kept, an exception becomes `None`. */
  function NormalisedRank(x: RankLookup): (rank: Option<string>)
  {
    match x
    case RankFound(s) => Some(s)
    case RankNotFound => None
    case LookupRaised => None
  }

  /** `asyncio.gather` over one lookup per name: the results come back in the order of the names. */
  function GatherRanks(names: seq<string>, lookup: string -> RankLookup): (ranks: seq<RankLookup>)
    ensures |ranks| == |names|
  {
    seq(|names|, i requires 0 <= i < |names| => lookup(names[i]))
  }

  /** `zip(xs, ys)`: pairs up to the shorter length. */
  function Zip<A, B>(xs: seq<A>, ys: seq<B>): (ps: seq<(A, B)>)
    ensures |ps| == if |xs| < |ys| then |xs| else |ys|
  {
    if xs == [] || ys == [] then [] else [(xs[0], ys[0])] + Zip(xs[1..], ys[1..])
  }

  /** The `for name, rank in zip(...)` loop, storing each normalised result under its name. */
  function StoreRanks(m: map<string, Option<string>>, pairs: seq<(string, RankLookup)>): (filled: map<string, Option<string>>)
    decreases |pairs|
  {
    if pairs == [] then m else StoreRanks(m[pairs[0].0 := NormalisedRank(pairs[0].1)], pairs[1..])
  }

  /**
   * The loop over the names zipped with their own lookups adds exactly those
   * names, each with its own normalised lookup, and keeps the other entries.
   */
  lemma {:induction false} StoreRanksContent(m: map<string, Option<string>>, names: seq<string>, lookup: string -> RankLookup)
    ensures var filled := StoreRanks(m, Zip(names, GatherRanks(names, lookup)));
      && (forall n :: n in filled <==> n in m || n in names)
      && (forall n :: n in names ==> filled[n] == NormalisedRank(lookup(n)))
      && (forall n :: n in m && n !in names ==> filled[n] == m[n])
    decreases |names|
  {
    if names != [] {
      var pairs := Zip(names, GatherRanks(names, lookup));
      var tail := names[1..];
      assert GatherRanks(names, lookup)[1..] == GatherRanks(tail, lookup);
      assert pairs[0] == (names[0], lookup(names[0]));
      assert pairs[1..] == Zip(tail, GatherRanks(tail, lookup));
      var m' := m[names[0] := NormalisedRank(lookup(names[0]))];
      StoreRanksContent(m', tail, lookup);
      assert names == [names[0]] + tail;
    }
  }

  /**
   * `removed_rank_map`: the removed names are sorted, looked up in that
   * order, and zipped with their results. Every removed name gets exactly
   * one entry, holding its own lookup: a rank string is kept, `None` stays
   * `None`, and a returned exception becomes `None`.
   */
  function RemovedRankMap(removed: set<string>, order: seq<string>, lookup: string -> RankLookup): (m: map<string, Option<string>>)
    requires IsEnumeration(order, removed)
    ensures m.Keys == removed
    ensures forall n :: n in m ==> (m[n].Some? <==> lookup(n).RankFound?)
    ensures forall n :: n in m && m[n].Some? ==> m[n].value == lookup(n).rank
  {
    var removedSorted := Ordering.SortNames(order);
    SortedNamesOfSet(removed, order);
    StoreRanksContent(map[], removedSorted, lookup);
    StoreRanks(map[], Zip(removedSorted, GatherRanks(removedSorted, lookup)))
  }

  /** Sorting an iteration of a set lists exactly the set's elements. */
  lemma SortedNamesOfSet(removed: set<string>, order: seq<string>)
    requires IsEnumeration(order, removed)
    ensures forall n :: n in Ordering.SortNames(order) <==> n in removed
  {
    var sorted := Ordering.SortNames(order);
    forall n
      ensures n in sorted <==> n in removed
    {
      assert n in sorted <==> n in multiset(sorted);
      assert n in order <==> n in multiset(order);
    }
  }

  /** A removed member's line shows the last known grade and the looked-up rank, or N/A when the lookup gave nothing usable. */
  lemma RemovedLineShowsLookup(name: string, oldStaff: Snapshot, removed: set<string>, order: seq<string>,
                                lookup: string -> RankLookup)
    requires IsEnumeration(order, removed) && name in removed && name in oldStaff
    ensures var line := RemovedLine(name, oldStaff, RemovedRankMap(removed, order, lookup));
      && (lookup(name).RankFound? && lookup(name).rank != "" ==>
            line == TransitionLine(name, oldStaff[name], lookup(name).rank))
      && (lookup(name).RankNotFound? || lookup(name).LookupRaised? || lookup(name) == RankFound("") ==>
            line == TransitionLine(name, oldStaff[name], "N/A"))
  {
  }
}
