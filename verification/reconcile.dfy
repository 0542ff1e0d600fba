/**
 * `check_staff_changes`: one run of the bot, as the sequence of writes it
 * issues. The replies of the chat platform and of the tracker are inputs
 * (`Env`); the two files are the `Store`; configuration is the `Platform`.
 */
module Reconcile {
  import opened Wrappers
  import opened Roster
  import opened SnapshotDiff
  import opened Persistence
  import opened Rendering

  /** `fetch_channel` for the staff and the alert channel, then the `TextChannel` check. */
  datatype ChannelReply = TextChannels | NotTextChannel | ChannelFetchFailed

  /** `fetch_staff_list`: the roster in page order, or the `RuntimeError` it raises. */
  datatype RosterReply = Fetched(roster: Roster) | FetchFailed

  /** `fetch_message(message_id)`: found, `NotFound`, or another `HTTPException`. */
  datatype MessageReply = MessageFound | MessageNotFound | MessageFetchFailed

  /** `msg.edit(...)`: done, `NotFound`, or another `HTTPException`. */
  datatype EditReply = Edited | EditNotFound | EditFailed

  /** `staff_channel.send(...)`: the new message's id, or an `HTTPException`. */
  datatype SendReply = SentAs(id: int) | SendFailed

  /** Everything the run learns from outside, in the order it asks. */
  datatype Env = Env(
    channels: ChannelReply,
    roster: RosterReply,
    message: MessageReply,
    edit: EditReply,
    display: SendReply,
    ranks: string -> RankLookup)

  /**
   * Configuration and the unspecified parts of Python: the role to mention,
   * `str.upper`, and the iteration order of a set.
   */
  datatype Platform = Platform(role: int, upper: string -> string, order: set<string> -> seq<string>)

  /** Iterating a set visits each element once. */
  ghost predicate ValidPlatform(p: Platform)
  {
    forall s :: IsEnumeration(p.order(s), s)
  }

  /** The two files kept between runs. */
  datatype Store = Store(snapshot: SnapshotFile, messageId: MessageIdFile)

  /** The writes a run issues, to the chat platform or to disk. */
  datatype Effect =
    | EditDisplay(id: int, content: string)   // msg.edit on the stored display message
    | SendDisplay(content: string)            // a new display message
    | WriteMessageId(id: int)                 // save_message_id
    | SendAlert(content: string)              // the alert, with role mentions allowed
    | WriteSnapshot(staff: Snapshot)          // save_staff_to_json

  /** Why a run stopped early with an exception. */
  datatype Failure = ChannelNotText | SnapshotRejected(error: SnapshotError) | RosterUnavailable

  /** How a run ends: normally, by the early `return` after a channel fetch error, or by an exception. */
  datatype Exit = Completed | ChannelsUnavailable | Raised(failure: Failure)

  datatype Run = Run(effects: seq<Effect>, exit: Exit)

  /** `if message_id:`, false for `None` and for `0`. */
  predicate Truthy(id: Option<int>)
  {
    id.Some? && id.value != 0
  }

  /** Send a new display message and, when the platform returned it, remember its id. */
  function SendNew(content: string, reply: SendReply): (es: seq<Effect>)
    ensures |es| == if reply.SentAs? then 2 else 1
    ensures es[0] == SendDisplay(content)
    ensures reply.SentAs? ==> es[1] == WriteMessageId(reply.id)
    ensures forall e :: e in es ==> e == SendDisplay(content) || (reply.SentAs? && e == WriteMessageId(reply.id))
  {
    [SendDisplay(content)] + (if reply.SentAs? then [WriteMessageId(reply.id)] else [])
  }

  /** The display update: edit the stored message when there is one, otherwise (or when it is gone) send a new one. */
  function UpsertDisplay(id: Option<int>, content: string, env: Env): (es: seq<Effect>)
  {
    if Truthy(id) then
      match env.message
      case MessageFound =>
        [EditDisplay(id.value, content)] + (if env.edit == EditNotFound then SendNew(content, env.display) else [])
      case MessageNotFound => SendNew(content, env.display)
      case MessageFetchFailed => []
    else SendNew(content, env.display)
  }

  /** The alert text for a diff; the rank lookups feed the removed members' lines. */
  function AlertFor(d: Diff, oldStaff: Snapshot, newStaff: Snapshot, env: Env, p: Platform): (content: string)
    requires ValidPlatform(p)
  {
    assert IsEnumeration(p.order(d.added), d.added);
    assert IsEnumeration(p.order(d.removed), d.removed);
    assert IsEnumeration(p.order(d.changed.Keys), d.changed.Keys);
    FormatAlerts(d.added, d.removed, d.changed, oldStaff, newStaff, RemovedRankMap(d.removed, p.order(d.removed), env.ranks),
                 p.role, p.order(d.added), p.order(d.removed), p.order(d.changed.Keys))
  }

  /** The writes of a run that got past every early exit. */
  function CompletedEffects(store: Store, oldStaff: Snapshot, roster: Roster, env: Env, p: Platform): (es: seq<Effect>)
    requires ValidPlatform(p) && DistinctNames(roster)
  {
    var current := ToSnapshot(roster);
    var d := CompareSnapshots(oldStaff, current);
    UpsertDisplay(LoadMessageId(store.messageId), FormatStaffList(roster, p.upper), env)
    + ((if IsEmpty(d) then [] else [SendAlert(AlertFor(d, oldStaff, current, env, p))]) + [WriteSnapshot(current)])
  }

  /**
   * `check_staff_changes`. Every early exit happens before the first write;
   * a run that gets past them always saves the fetched snapshot, as its last
   * write and only then.
   */
  function Reconcile(store: Store, env: Env, p: Platform): (run: Run)
    requires ValidPlatform(p)
    requires env.roster.Fetched? ==> DistinctNames(env.roster.roster)
    ensures run.exit.Completed? <==>
      env.channels.TextChannels? && LoadPreviousSnapshot(store.snapshot).Ok? && env.roster.Fetched?
    ensures !run.exit.Completed? ==> run.effects == []
    ensures run.exit.Completed? ==>
      && |run.effects| > 0
      && run.effects[|run.effects| - 1] == WriteSnapshot(ToSnapshot(env.roster.roster))
      && forall i :: 0 <= i < |run.effects| - 1 ==> !run.effects[i].WriteSnapshot?
  {
    match env.channels
    case ChannelFetchFailed => Run([], ChannelsUnavailable)
    case NotTextChannel => Run([], Raised(ChannelNotText))
    case TextChannels =>
      var previous := LoadPreviousSnapshot(store.snapshot);
      // a bad file or document fails at the load; a bad "staff" value only at the diff, after the fetch
      if previous.Err? && previous.error != StaffHasNoKeys then Run([], Raised(SnapshotRejected(previous.error)))
      else if env.roster.FetchFailed? then Run([], Raised(RosterUnavailable))
      else if previous.Err? then Run([], Raised(SnapshotRejected(previous.error)))
      else
        var es := CompletedEffects(store, previous.value, env.roster.roster, env, p);
        NoSnapshotBeforeEnd(store, previous.value, env.roster.roster, env, p);
        Run(es, Completed)
  }

  /** Only the last write of a completed run saves the snapshot. */
  lemma NoSnapshotBeforeEnd(store: Store, oldStaff: Snapshot, roster: Roster, env: Env, p: Platform)
    requires ValidPlatform(p) && DistinctNames(roster)
    ensures var es := CompletedEffects(store, oldStaff, roster, env, p);
      && |es| > 0
      && es[|es| - 1] == WriteSnapshot(ToSnapshot(roster))
      && forall i :: 0 <= i < |es| - 1 ==> !es[i].WriteSnapshot?
  {
    var current := ToSnapshot(roster);
    var d := CompareSnapshots(oldStaff, current);
    var up := UpsertDisplay(LoadMessageId(store.messageId), FormatStaffList(roster, p.upper), env);
    var alert := if IsEmpty(d) then [] else [SendAlert(AlertFor(d, oldStaff, current, env, p))];
    UpsertTouchesDisplayOnly(LoadMessageId(store.messageId), FormatStaffList(roster, p.upper), env);
    SnapshotLast(up, alert, WriteSnapshot(current));
  }

  /** The display update only edits, sends and records the display message. */
  lemma UpsertTouchesDisplayOnly(id: Option<int>, content: string, env: Env)
    ensures forall e :: e in UpsertDisplay(id, content, env) ==>
      (id.Some? && e == EditDisplay(id.value, content)) || e == SendDisplay(content) || e.WriteMessageId?
  {
  }

  lemma SnapshotLast(up: seq<Effect>, alert: seq<Effect>, w: Effect)
    requires forall e :: e in up ==> !e.WriteSnapshot?
    requires forall e :: e in alert ==> !e.WriteSnapshot?
    ensures var es := up + (alert + [w]);
      && es[|es| - 1] == w
      && forall i :: 0 <= i < |es| - 1 ==> !es[i].WriteSnapshot?
  {
    var es := up + (alert + [w]);
    forall i | 0 <= i < |es| - 1
      ensures !es[i].WriteSnapshot?
    {
      if i < |up| {
        assert es[i] == up[i];
        assert up[i] in up;
      } else {
        assert es[i] == alert[i - |up|];
        assert alert[i - |up|] in alert;
      }
    }
  }

  // ---------------------------------------------------------------------
  // The display message
  // ---------------------------------------------------------------------

  predicate EditsDisplay(es: seq<Effect>)
  {
    exists e :: e in es && e.EditDisplay?
  }

  predicate SendsDisplay(es: seq<Effect>)
  {
    exists e :: e in es && e.SendDisplay?
  }

  predicate SendsAlert(es: seq<Effect>)
  {
    exists e :: e in es && e.SendAlert?
  }

  /**
   * The update rules: with a stored (truthy) id the message is edited when it
   * is found and replaced when it is gone, and nothing happens on another
   * fetch error; without one a new message is sent. The id of a new message
   * is recorded exactly when the send returned one.
   */
  ghost predicate FollowsUpsertRules(es: seq<Effect>, id: Option<int>, content: string, env: Env)
  {
    && (EditsDisplay(es) <==> Truthy(id) && env.message.MessageFound?)
    && (forall e :: e in es && e.EditDisplay? ==> id.Some? && e == EditDisplay(id.value, content))
    && (SendsDisplay(es) <==>
          !Truthy(id) || env.message.MessageNotFound? || (env.message.MessageFound? && env.edit.EditNotFound?))
    && (forall e :: e in es && e.SendDisplay? ==> e == SendDisplay(content))
    && (forall x :: WriteMessageId(x) in es <==> SendsDisplay(es) && env.display == SentAs(x))
    && DisplayWritesInOrder(es)
  }

  /** The step of the display update a write belongs to: edit, send, then record the id; 0 for other writes. */
  function DisplayStage(e: Effect): (stage: nat)
    ensures stage > 0 <==> e.EditDisplay? || e.SendDisplay? || e.WriteMessageId?
  {
    match e
    case EditDisplay(_, _) => 1
    case SendDisplay(_) => 2
    case WriteMessageId(_) => 3
    case _ => 0
  }

  /**
   * At most one edit, one send and one id write, in that order: an id is
   * recorded only after the send that returned it.
   */
  ghost predicate DisplayWritesInOrder(es: seq<Effect>)
  {
    forall i, j :: 0 <= i < j < |es| && DisplayStage(es[i]) > 0 && DisplayStage(es[j]) > 0 ==>
      DisplayStage(es[i]) < DisplayStage(es[j])
  }

  /** The display update follows the update rules, edits before it sends, and writes nothing else. */
  lemma UpsertRules(id: Option<int>, content: string, env: Env)
    ensures var es := UpsertDisplay(id, content, env);
      && FollowsUpsertRules(es, id, content, env)
      && (Truthy(id) && env.message.MessageFetchFailed? ==> es == [])
      && (EditsDisplay(es) ==> es[0].EditDisplay?)
      && (forall e :: e in es ==> !e.SendAlert? && !e.WriteSnapshot?)
  {
    var es := UpsertDisplay(id, content, env);
    var sent := SendNew(content, env.display);
    if Truthy(id) && env.message.MessageFound? {
      assert es[0] == EditDisplay(id.value, content);
    }
    if !Truthy(id) || env.message.MessageNotFound? || (env.message.MessageFound? && env.edit.EditNotFound?) {
      assert SendDisplay(content) in sent && SendDisplay(content) in es;
    }
    if env.display.SentAs? && SendsDisplay(es) {
      assert WriteMessageId(env.display.id) in sent;
    }
  }

  // ---------------------------------------------------------------------
  // The writes of a completed run
  // ---------------------------------------------------------------------

  /** The run gets past every early exit. */
  predicate CompletesWith(store: Store, env: Env)
  {
    env.channels.TextChannels? && LoadPreviousSnapshot(store.snapshot).Ok? && env.roster.Fetched?
  }

  /** A completed run's writes: the display update, the alert if any, the snapshot. */
  lemma CompletedRun(store: Store, env: Env, p: Platform)
    requires ValidPlatform(p) && CompletesWith(store, env) && DistinctNames(env.roster.roster)
    ensures var oldStaff := LoadPreviousSnapshot(store.snapshot).value;
      var current := ToSnapshot(env.roster.roster);
      var d := CompareSnapshots(oldStaff, current);
      Reconcile(store, env, p) == Run(
        UpsertDisplay(LoadMessageId(store.messageId), FormatStaffList(env.roster.roster, p.upper), env)
        + ((if IsEmpty(d) then [] else [SendAlert(AlertFor(d, oldStaff, current, env, p))]) + [WriteSnapshot(current)]),
        Completed)
  {
  }

  /**
   * A run's display writes follow the update rules for the id loaded from
   * the store, with the listing of the fetched roster as content.
   */
  lemma DisplayRules(store: Store, env: Env, p: Platform)
    requires ValidPlatform(p) && CompletesWith(store, env) && DistinctNames(env.roster.roster)
    ensures var es := Reconcile(store, env, p).effects;
      var id := LoadMessageId(store.messageId);
      var content := FormatStaffList(env.roster.roster, p.upper);
      FollowsUpsertRules(es, id, content, env)
  {
    var rest := AfterDisplay(store, env, p);
    SplitAfterDisplay(store, env, p);
    UpsertRulesWithRest(LoadMessageId(store.messageId), FormatStaffList(env.roster.roster, p.upper), env, rest);
  }

  /** The writes of a completed run that follow the display update: the alert if any, then the snapshot. */
  function AfterDisplay(store: Store, env: Env, p: Platform): (rest: seq<Effect>)
    requires ValidPlatform(p) && CompletesWith(store, env) && DistinctNames(env.roster.roster)
  {
    var oldStaff := LoadPreviousSnapshot(store.snapshot).value;
    var current := ToSnapshot(env.roster.roster);
    var d := CompareSnapshots(oldStaff, current);
    (if IsEmpty(d) then [] else [SendAlert(AlertFor(d, oldStaff, current, env, p))]) + [WriteSnapshot(current)]
  }

  lemma SplitAfterDisplay(store: Store, env: Env, p: Platform)
    requires ValidPlatform(p) && CompletesWith(store, env) && DistinctNames(env.roster.roster)
    ensures Reconcile(store, env, p).effects
      == UpsertDisplay(LoadMessageId(store.messageId), FormatStaffList(env.roster.roster, p.upper), env)
         + AfterDisplay(store, env, p)
    ensures forall e :: e in AfterDisplay(store, env, p) ==> e.SendAlert? || e.WriteSnapshot?
  {
    CompletedRun(store, env, p);
  }

  /** The update rules still read off the whole run when only alerts and the snapshot follow. */
  lemma UpsertRulesWithRest(id: Option<int>, content: string, env: Env, rest: seq<Effect>)
    requires forall e :: e in rest ==> e.SendAlert? || e.WriteSnapshot?
    ensures FollowsUpsertRules(UpsertDisplay(id, content, env) + rest, id, content, env)
  {
    UpsertRules(id, content, env);
    DisplayPrefix(UpsertDisplay(id, content, env), rest);
  }

  /** Display writes of `up + rest` are those of `up` when `rest` has none. */
  lemma DisplayPrefix(up: seq<Effect>, rest: seq<Effect>)
    requires forall e :: e in rest ==> e.SendAlert? || e.WriteSnapshot?
    ensures forall e :: e in up + rest && (e.EditDisplay? || e.SendDisplay? || e.WriteMessageId?) ==> e in up
    ensures EditsDisplay(up + rest) == EditsDisplay(up)
    ensures SendsDisplay(up + rest) == SendsDisplay(up)
  {
  }

  // ---------------------------------------------------------------------
  // The alert
  // ---------------------------------------------------------------------

  /**
   * An alert is sent exactly when the run completes and the fetched roster
   * differs from the stored snapshot; it is the formatted diff, it is sent
   * once, and it comes after every display write.
   */
  lemma AlertRule(store: Store, env: Env, p: Platform)
    requires ValidPlatform(p)
    requires env.roster.Fetched? ==> DistinctNames(env.roster.roster)
    ensures var es := Reconcile(store, env, p).effects;
      && (SendsAlert(es) <==>
            CompletesWith(store, env) && LoadPreviousSnapshot(store.snapshot).value != ToSnapshot(env.roster.roster))
      && (CompletesWith(store, env) ==>
            var oldStaff := LoadPreviousSnapshot(store.snapshot).value;
            var current := ToSnapshot(env.roster.roster);
            forall e :: e in es && e.SendAlert? ==>
              e == SendAlert(AlertFor(CompareSnapshots(oldStaff, current), oldStaff, current, env, p)))
      && (forall i, j :: 0 <= i < j < |es| && es[i].SendAlert? ==>
            !(es[j].EditDisplay? || es[j].SendDisplay? || es[j].WriteMessageId?))
      && (forall i, j :: 0 <= i < j < |es| && es[i].SendAlert? ==> !es[j].SendAlert?)
  {
    if CompletesWith(store, env) {
      var oldStaff := LoadPreviousSnapshot(store.snapshot).value;
      var current := ToSnapshot(env.roster.roster);
      var d := CompareSnapshots(oldStaff, current);
      var content := AlertFor(d, oldStaff, current, env, p);
      var alert := if IsEmpty(d) then [] else [SendAlert(content)];
      var up := UpsertDisplay(LoadMessageId(store.messageId), FormatStaffList(env.roster.roster, p.upper), env);
      CompletedRun(store, env, p);
      assert Reconcile(store, env, p).effects == up + (alert + [WriteSnapshot(current)]);
      UpsertRules(LoadMessageId(store.messageId), FormatStaffList(env.roster.roster, p.upper), env);
      AlertInRun(up, alert, WriteSnapshot(current), content);
      DiffEmptyIff(oldStaff, current);
    }
  }

  lemma AlertInRun(up: seq<Effect>, alert: seq<Effect>, last: Effect, content: string)
    requires forall e :: e in up ==> !e.SendAlert?
    requires alert == [] || alert == [SendAlert(content)]
    requires last.WriteSnapshot?
    ensures var es := up + (alert + [last]);
      && (SendsAlert(es) <==> alert != [])
      && (forall e :: e in es && e.SendAlert? ==> e == SendAlert(content))
      && (forall i, j :: 0 <= i < j < |es| && es[i].SendAlert? ==>
            !(es[j].EditDisplay? || es[j].SendDisplay? || es[j].WriteMessageId?))
      && (forall i, j :: 0 <= i < j < |es| && es[i].SendAlert? ==> !es[j].SendAlert?)
  {
    var es := up + (alert + [last]);
    if alert != [] {
      assert es[|up|] == SendAlert(content);
    }
    forall i | 0 <= i < |up|
      ensures !es[i].SendAlert?
    {
      assert es[i] == up[i] && up[i] in up;
    }
  }

  // ---------------------------------------------------------------------
  // The files after a run
  // ---------------------------------------------------------------------

  /** What one write does to the files; the chat writes leave them alone. */
  function Apply(store: Store, e: Effect): (after: Store)
  {
    match e
    case WriteMessageId(id) => store.(messageId := SaveMessageId(id))
    case WriteSnapshot(staff) => store.(snapshot := SaveStaffToJson(staff))
    case _ => store
  }

  function ApplyEffects(store: Store, es: seq<Effect>): (after: Store)
    decreases |es|
  {
    if es == [] then store else ApplyEffects(Apply(store, es[0]), es[1..])
  }

  lemma {:induction false} ApplyAppend(store: Store, xs: seq<Effect>, ys: seq<Effect>)
    ensures ApplyEffects(store, xs + ys) == ApplyEffects(ApplyEffects(store, xs), ys)
    decreases |xs|
  {
    if xs == [] {
      assert xs + ys == ys;
    } else {
      assert (xs + ys)[0] == xs[0];
      assert (xs + ys)[1..] == xs[1..] + ys;
      ApplyAppend(Apply(store, xs[0]), xs[1..], ys);
    }
  }

  /** The display update records the new message's id when it sent one and got an id back, and touches nothing else. */
  lemma ApplyUpsert(store: Store, id: Option<int>, content: string, env: Env)
    ensures var up := UpsertDisplay(id, content, env);
      var after := ApplyEffects(store, up);
      && after.snapshot == store.snapshot
      && after.messageId == (if SendsDisplay(up) && env.display.SentAs? then SaveMessageId(env.display.id) else store.messageId)
  {
    var up := UpsertDisplay(id, content, env);
    var sent := SendNew(content, env.display);
    UpsertRules(id, content, env);
    ApplySendNew(store, content, env.display);
    if Truthy(id) && env.message.MessageFound? {
      var edit := [EditDisplay(id.value, content)];
      var tail := if env.edit == EditNotFound then sent else [];
      assert up == edit + tail;
      ApplyAppend(store, edit, tail);
      assert ApplyEffects(store, edit) == store;
      if env.edit != EditNotFound {
        assert !SendsDisplay(up);
      }
    }
  }

  lemma ApplySendNew(store: Store, content: string, reply: SendReply)
    ensures ApplyEffects(store, SendNew(content, reply))
      == if reply.SentAs? then store.(messageId := SaveMessageId(reply.id)) else store
  {
    var es := SendNew(content, reply);
    assert es[0] == SendDisplay(content) && Apply(store, es[0]) == store;
    if reply.SentAs? {
      var saved := store.(messageId := SaveMessageId(reply.id));
      assert es == [SendDisplay(content), WriteMessageId(reply.id)];
      assert es[1..] == [WriteMessageId(reply.id)];
      assert es[1..][1..] == [];
      assert ApplyEffects(saved, []) == saved;
      assert ApplyEffects(store, es[1..]) == ApplyEffects(saved, []);
    } else {
      assert es == [SendDisplay(content)];
      assert es[1..] == [];
    }
  }

  /**
   * The files after a completed run: the snapshot loads back as the fetched
   * roster, and the stored id is the new display message's when one was
   * sent with an id returned, and unchanged otherwise.
   */
  lemma StoreAfterRun(store: Store, env: Env, p: Platform)
    requires ValidPlatform(p) && CompletesWith(store, env) && DistinctNames(env.roster.roster)
    ensures var es := Reconcile(store, env, p).effects;
      var after := ApplyEffects(store, es);
      && LoadPreviousSnapshot(after.snapshot) == Ok(ToSnapshot(env.roster.roster))
      && after.messageId == (if SendsDisplay(es) && env.display.SentAs? then SaveMessageId(env.display.id) else store.messageId)
  {
    var oldStaff := LoadPreviousSnapshot(store.snapshot).value;
    var current := ToSnapshot(env.roster.roster);
    var d := CompareSnapshots(oldStaff, current);
    var id := LoadMessageId(store.messageId);
    var content := FormatStaffList(env.roster.roster, p.upper);
    var alert := if IsEmpty(d) then [] else [SendAlert(AlertFor(d, oldStaff, current, env, p))];
    CompletedRun(store, env, p);
    ApplyCompleted(store, id, content, env, alert, current);
  }

  lemma ApplyCompleted(store: Store, id: Option<int>, content: string, env: Env, alert: seq<Effect>, current: Snapshot)
    requires forall e :: e in alert ==> e.SendAlert?
    ensures var es := UpsertDisplay(id, content, env) + (alert + [WriteSnapshot(current)]);
      var after := ApplyEffects(store, es);
      && LoadPreviousSnapshot(after.snapshot) == Ok(current)
      && after.messageId == (if SendsDisplay(es) && env.display.SentAs? then SaveMessageId(env.display.id) else store.messageId)
  {
    var up := UpsertDisplay(id, content, env);
    var rest := alert + [WriteSnapshot(current)];
    UpsertRulesWithRest(id, content, env, rest);
    UpsertRules(id, content, env);
    ApplyAppend(store, up, rest);
    ApplyUpsert(store, id, content, env);
    var mid := ApplyEffects(store, up);
    ApplyAppend(mid, alert, [WriteSnapshot(current)]);
    ApplyAlerts(mid, alert);
    assert [WriteSnapshot(current)][1..] == [];
    SnapshotRoundTrip(current);
  }

  lemma {:induction false} ApplyAlerts(store: Store, alert: seq<Effect>)
    requires forall e :: e in alert ==> e.SendAlert?
    ensures ApplyEffects(store, alert) == store
    decreases |alert|
  {
    if alert != [] {
      assert alert[0] in alert;
      assert forall e :: e in alert[1..] ==> e in alert;
      ApplyAlerts(store, alert[1..]);
    }
  }

  // ---------------------------------------------------------------------
  // Consecutive runs
  // ---------------------------------------------------------------------

  /** A second run that fetches the same roster finds nothing to announce. */
  lemma RerunSendsNoAlert(store: Store, env: Env, env2: Env, p: Platform)
    requires ValidPlatform(p) && CompletesWith(store, env) && DistinctNames(env.roster.roster)
    requires env2.channels.TextChannels? && env2.roster == env.roster
    ensures var after := ApplyEffects(store, Reconcile(store, env, p).effects);
      var run2 := Reconcile(after, env2, p);
      run2.exit.Completed? && !SendsAlert(run2.effects)
  {
    var after := ApplyEffects(store, Reconcile(store, env, p).effects);
    StoreAfterRun(store, env, p);
    AlertRule(after, env2, p);
  }

  /**
   * Once a run has sent the display message and recorded its id, the next
   * run edits that message in place instead of sending another.
   */
  lemma DisplaySelfHeals(store: Store, env: Env, env2: Env, p: Platform, x: int)
    requires ValidPlatform(p) && CompletesWith(store, env) && DistinctNames(env.roster.roster)
    requires SendsDisplay(Reconcile(store, env, p).effects) && env.display == SentAs(x)
    requires 0 < x < 0x1_0000_0000_0000_0000
    requires env2.channels.TextChannels? && env2.roster.Fetched? && DistinctNames(env2.roster.roster)
    requires env2.message == MessageFound && env2.edit == Edited
    ensures var after := ApplyEffects(store, Reconcile(store, env, p).effects);
      var run2 := Reconcile(after, env2, p);
      && run2.exit.Completed?
      && EditDisplay(x, FormatStaffList(env2.roster.roster, p.upper)) in run2.effects
      && !SendsDisplay(run2.effects)
  {
    var after := ApplyEffects(store, Reconcile(store, env, p).effects);
    StoreAfterRun(store, env, p);
    SnowflakeWithinDigitCap(x);
    MessageIdRoundTrip(x);
    assert LoadMessageId(after.messageId) == Some(x);
    DisplayRules(after, env2, p);
  }
}
