# Staff roster tracker — a Dafny model

The bot keeps a chat server informed about the staff of a game server. It
does this in one pass per run:

- It fetches the staff roster, where each member has a name and a grade.
- It compares the roster with the snapshot saved by the previous run.
- It keeps one "display" message in a staff channel up to date, listing the
  roster grouped by grade.
- It posts an alert in a second channel when someone joined, left or changed
  grade. The alert mentions a configured role.
- It saves the new snapshot.

This project models that core as pure functions and proves what each
operation promises:

| module | file | models |
|---|---|---|
| `Wrappers` | wrappers.dfy | `Option` and `Result` |
| `Ordering` | ordering.dfy | Python's code-point string order and `list.sort()` on names |
| `Decimal` | decimal.dfy | `str(int)`, `str.isdigit()` and `int(str)` on ASCII digits |
| `Lines` | lines.dfy | messages as newline-terminated lines |
| `Roster` | roster.dfy | the fetched roster: a name → grade dictionary that keeps page order |
| `SnapshotDiff` | snapshot_diff.dfy | `compare_snapshots` |
| `Grouping` | grouping.dfy | `group_staff_by_grade` |
| `Persistence` | persistence.dfy | loading and saving the snapshot and message-id files |
| `Rendering` | rendering.dfy | `format_staff_list`, `format_alerts` and the removed-rank map |
| `Reconcile` | reconcile.dfy | `check_staff_changes`, as the list of writes one run issues |
| `Scenarios` | scenarios.dfy | small concrete examples |

Conventions:

- A roster is a sequence of `Member(name, grade)` with distinct names, in
  dictionary insertion order. Its `Snapshot` is the plain map.
- Python leaves a set's iteration order unspecified. The alert therefore
  takes an enumeration of each set as a parameter: every element exactly
  once, in any order. Every property about the alert holds for every such
  order.
- `str.upper` is a parameter of the rendering.
- A run is `Reconcile(store, env, platform)`:
  - `store` holds the two files.
  - `env` holds every reply from outside, in the order the code asks for
    them: the channel fetches, the roster fetch, the message fetch, edit and
    send, and the rank lookups.
  - `platform` holds the role id, `upper` and the set order.
- The result is the sequence of writes (edits, sends, file writes) plus how
  the run ended. `ApplyEffects` replays the file writes, so that one run can
  be followed by another.

Where the code and its own documentation differ, the model follows the code:

- `load_previous_snapshot` turns only a missing file, undecodable JSON and
  an object without a `"staff"` key into the empty snapshot.
- Any other read error propagates (a permission error, or bytes that are
  not UTF-8).
- So do valid JSON that is not an object (no `.get`) and a `"staff"` value
  that is not an object. The latter fails only at `.keys()` inside
  `compare_snapshots`, after the roster fetch.
- Each of these failures ends the run before any write.

## Model

| member | source | states |
|---|---|---|
| Ordering.SortNames | staff_tracker.py:169-170 | `names.sort()` returns the same names, as a multiset, in non-decreasing code-point order |
| Ordering.SortedUnique | staff_tracker.py:169-170 | two sorted lists holding the same names are equal, so the sorted order is fully determined |
| Ordering.SortNamesIgnoresOrder | bot.py:171 | `sorted(removed)` gives the same list whatever order the set is iterated in |
| Decimal.NatToString | bot.py:81 | `str(len(members))` is a non-empty digit string without a leading zero |
| Decimal.ParseNatToString | bot.py:53 | `int(str(n)) == n` for every natural number |
| Decimal.NatToStringParse | bot.py:53 | `str(int(s)) == s` for every digit string without a leading zero |
| Decimal.IntToStringIsDigits | bot.py:53 | `str(i).isdigit()` holds exactly when `i >= 0` (the minus sign is not a digit) |
| Lines.SplitText | bot.py:79-85 | a message built from newline-free lines, each followed by a newline, splits back into exactly those lines |
| SnapshotDiff.CompareSnapshots | staff_tracker.py:148-154 | added = new keys not in old; removed = old keys not in new; modified = shared keys whose grade differs, mapped to (old grade, new grade) |
| SnapshotDiff.DiffPartition | staff_tracker.py:148-154 | added, removed, modified and unchanged names are pairwise disjoint and together cover the keys of both snapshots |
| SnapshotDiff.DiffSwap | staff_tracker.py:148-154 | diffing backwards swaps added and removed and reverses every grade pair |
| SnapshotDiff.DiffOfSelf | staff_tracker.py:148-154 | a snapshot compared with itself gives no change |
| SnapshotDiff.DiffEmptyIff | staff_tracker.py:148-154 | the diff is empty exactly when the two snapshots are equal |
| SnapshotDiff.DiffSizes | staff_tracker.py:148-152 | old size + added count == new size + removed count |
| Grouping.GroupStaffByGrade | staff_tracker.py:156-171 | the grouped lists hold as many entries as the roster |
| Grouping.AddMember | staff_tracker.py:167-168 | no ensures; `grouped[grade].append(name)`, whose effect is fixed by AddMemberShape |
| Grouping.AddMemberShape | staff_tracker.py:167-168 | appending a member keeps every list equal to the roster's names of that grade, in roster order, with one non-empty group per grade |
| Grouping.Bucket | staff_tracker.py:166-168 | no ensures; the `defaultdict` after the first loop, whose content is fixed by BucketShape, BucketFirstSeen and BucketFlatten |
| Grouping.BucketShape | staff_tracker.py:166-168 | after the first loop each grade's list is the roster's names of that grade in roster order; one non-empty group per grade of the roster, none twice |
| Grouping.BucketFirstSeen | staff_tracker.py:166-168 | after the first loop the grades are in the order they first occur in the roster |
| Grouping.BucketFlatten | staff_tracker.py:166-168 | after the first loop the lists together hold the roster's names, as a multiset |
| Grouping.SortGroups | staff_tracker.py:169-170 | sorting keeps each grade in place and makes each list a sorted permutation of itself |
| Grouping.GroupStaffByGradeShape | staff_tracker.py:166-171 | a name is in grade g's list iff (name, g) is in the roster; one group per grade, none empty, no grade twice; groups in first-seen order; each list sorted; together the lists are the roster's names as a multiset |
| Grouping.GroupedNames | staff_tracker.py:166-171 | a name appears in some list exactly when the roster has it |
| Grouping.GroupNamesOnce | staff_tracker.py:166-171 | with distinct names every name is listed exactly once, in exactly one group |
| Persistence.LoadPreviousSnapshot | staff_tracker.py:59-76 | a missing or undecodable file, and an object without `"staff"`, give the empty snapshot; a `"staff"` object is returned as it is; each propagated error is characterised (both directions); a non-empty result is the file's `"staff"` object |
| Persistence.SnapshotRoundTrip | staff_tracker.py:173-188 | loading the file `save_staff_to_json` writes gives back the saved snapshot |
| Persistence.AcceptedIdIsDigitForm | bot.py:53 | the int/str check plus `str(raw).isdigit()` admits exactly the non-negative ints of at most 4300 digits and the digit strings; booleans are rejected; `int(raw)` then succeeds iff the value has at most 4300 digits (CPython's int/str conversion limit) |
| Persistence.LoadMessageId | bot.py:42-56 | an id is returned iff the stored value is accepted; it is never negative; an int is kept and a digit string is parsed; a digit string over 4300 digits, whose `int()` raises, gives `None`; every read failure gives `None` |
| Persistence.MessageIdRoundTrip | bot.py:58-66 | an id saved by `save_message_id` loads back iff it is non-negative and has at most 4300 digits |
| Persistence.MessageIdStringRoundTrip | bot.py:53 | an id stored as its decimal string loads back as the same number when it has at most 4300 digits, and as `None` beyond |
| Persistence.SnowflakeWithinDigitCap | bot.py:53 | a 64-bit platform id has at most 20 digits, far inside the 4300-digit conversion limit |
| Decimal.NatToStringShort | bot.py:53 | a number below 10^k has at most k decimal digits |
| Rendering.MemberLines | bot.py:82-83 | one member line per name, in list order |
| Rendering.TitleLine | bot.py:81 | no ensures; the grade's title line, upper-cased grade then the member count, whose text is fixed by GroupLinesLayout and GroupLinesNoNewline |
| Rendering.GroupLinesLayout | bot.py:80-84 | a grade's block is its title line, then member j on line 1 + j, then a blank line |
| Rendering.BodyLength | bot.py:80-84 | the body has two lines per grade plus one per member |
| Rendering.BodyBlockAt | bot.py:80-84 | grade k's block sits between the blocks of the grades before it and those after it |
| Rendering.StaffListLayout | bot.py:68-85 | the listing is the title, a blank line, then every grade's block in grouping order; it has 2 + (roster size) + 2·(grade count) lines |
| Rendering.StaffListNames | bot.py:78-85 | the listing has a member line for a name exactly when the roster has that name |
| Rendering.StaffListText | bot.py:78-85 | when no name and no upper-cased grade holds a line break, the sent text splits back into exactly the listing's lines |
| Rendering.FormatStaffList | bot.py:68-85 | no ensures; the listing text, whose lines are fixed by StaffListLayout, StaffListNames and StaffListText |
| Rendering.AlertHeader | bot.py:108 | no ensures; the alert's first line with the role mention, placed by AlertLayout |
| Rendering.TransitionLine | bot.py:111-120 | no ensures; the "name passe de a à b" line shared by the three blocks, filled in by AddedBlockImage, RemovedBlockImage and ChangedBlockImage |
| Rendering.EnumerationSize | bot.py:110 | iterating a set visits as many names as the set has |
| Rendering.DisplayedRank | bot.py:115-116 | the two truthiness steps (`get(name) or "N/A"`, then `new_grade if new_grade else 'N/A'`) show a non-empty stored rank as it is and N/A for a missing entry, `None` or `""`; the second test never changes the value, which is never empty |
| Rendering.AddedBlockImage | bot.py:109-111 | the added block has one line per added name and no other line |
| Rendering.RemovedBlockImage | bot.py:113-116 | the removed block has one line per removed name and no other line |
| Rendering.ChangedBlockImage | bot.py:118-120 | the changed block has one line per changed name and no other line |
| Rendering.AlertLayout | bot.py:108-122 | the alert is the header, a blank line, then the added, removed and changed blocks in that order; each block has exactly one line per name of its category, whatever the iteration order |
| Rendering.FormatAlerts | bot.py:87-122 | no ensures; the alert text, whose lines are fixed by AlertLayout and AlertText |
| Rendering.AlertText | bot.py:108-122 | when no name, grade or looked-up rank holds a line break, the sent alert splits back into exactly the alert's lines |
| Rendering.HeaderNoNewline | bot.py:108 | the alert header is a single line |
| Rendering.TransitionNoNewline | bot.py:111-120 | a transition line of single-line parts is a single line |
| Rendering.StoreRanksContent | bot.py:173-179 | the loop over the names zipped with their gathered lookups adds exactly those names, each holding its own normalised lookup, and keeps the other entries |
| Rendering.RemovedRankMap | bot.py:171-179 | sorting the removed names, looking them up in that order and zipping gives one entry per removed name and no other; a returned rank string is kept; `None` and a returned exception both become `None` |
| Rendering.RemovedLineShowsLookup | bot.py:113-116 | a removed member's line goes from the stored grade to the looked-up rank, or to N/A when the lookup found nothing, raised, or returned an empty string |
| Reconcile.SendNew | bot.py:160-164 | exactly one new display message is sent, first; its id is saved right after it exactly when the send returned one, and nothing else is written |
| Reconcile.UpsertDisplay | bot.py:154-166 | no ensures; the display update, whose writes are fixed by UpsertRules |
| Reconcile.UpsertRules | bot.py:154-166 | with a truthy stored id: edit when the message is found, send again when it is gone or the edit hits NotFound, do nothing on another fetch error; without one: send. The id is saved exactly when a send returned it; at most one edit, one send and one id write, in that order |
| Reconcile.Reconcile | bot.py:124-190 | the run completes iff both channels are text channels, the snapshot loads and the roster is fetched; otherwise it writes nothing; a completed run saves the fetched snapshot as its last write and at no other point |
| Reconcile.NoSnapshotBeforeEnd | bot.py:168-190 | after the display update and the optional alert, the snapshot save comes last |
| Reconcile.DisplayRules | bot.py:150-166 | a completed run's display writes follow the update rules for the id loaded from the file (at most one edit, one send and one id write, in that order), and carry the listing of the fetched roster |
| Reconcile.AlertRule | bot.py:168-188 | an alert is sent iff the run completes and the fetched roster differs from the stored snapshot; it is the formatted diff, it is sent once, and no display write follows it |
| Reconcile.ApplyUpsert | bot.py:154-166 | the display update changes the message-id file only when a send returned an id, and never the snapshot file |
| Reconcile.StoreAfterRun | bot.py:154-190 | after a completed run the snapshot file loads as the fetched roster; the message-id file holds the new message's id, or is unchanged when nothing was sent or no id came back |
| Reconcile.RerunSendsNoAlert | bot.py:145-190 | a second run that fetches the same roster completes and sends no alert |
| Reconcile.DisplaySelfHeals | bot.py:151-164 | once a run has sent the display message and saved its positive 64-bit id, the next run edits that message instead of sending another |
| Scenarios.GroupingExample | staff_tracker.py:156-171 | c/Mod, b/Admin, a/Mod groups as Mod: [a, c] then Admin: [b] |
| Scenarios.FirstRunAddsEveryone | staff_tracker.py:148-154 | from an empty snapshot the only fetched name is added, and its line goes from N/A to its grade |
| Scenarios.DepartureShowsLookedUpRank | bot.py:113-116 | a removed Admin whose lookup returns Member is shown going from Admin to Member |
| Scenarios.PromotionShowsBothGrades | staff_tracker.py:153 | Helper → Admin is reported as a modification carrying both grades |

## Left out

- HTTP session, retry policy and HTML scraping: `fetch_staff_list` and
  `fetch_player_rank` are not modelled. The roster fetch is an input: a
  roster, or the `RuntimeError` it raises. Each rank lookup is an input:
  found, not found, or raised.
- The chat client, login, `asyncio` and threads: the platform's replies are
  inputs, and the work inside one run is modelled as sequential. Mention
  restrictions (`allowed_mentions`) are not modelled.
- Environment configuration and the startup check: the role id is a
  parameter. Channel ids are not modelled.
- File I/O: a file is modelled as the shapes `json.load` distinguishes.
  JSON text, pretty-printing, key sorting and the temporary-file replace are
  not modelled.
- Reconcile.Reconcile: file writes are assumed to succeed. An exception from
  `save_message_id` (it is outside the `HTTPException` handler) would abort
  the run before the snapshot save, and this is not modelled.
- Reconcile.Reconcile: every failure of a chat-platform call is taken to be
  the `HTTPException` (or `NotFound`) the code catches. Any other exception
  from `fetch_channel`, `fetch_message`, `edit` or either `send` (a
  connection error the client library does not wrap, for instance)
  propagates out of `check_staff_changes` and skips the snapshot save. The
  reply types cannot express it, so Reconcile.Reconcile, Reconcile.AlertRule
  and Reconcile.StoreAfterRun describe only runs without such an exception.
- Reconcile.AlertRule: holds for runs without such an exception. An alert
  whose send raises one is attempted, yet the run does not complete.
- Reconcile.StoreAfterRun: holds for runs without such an exception. With
  one, the snapshot file keeps its old contents.
- Reconcile.Reconcile: the two channel fetches are one reply. Which of the
  two failed is not recorded, because both lead to the same early return.
- Persistence.LoadMessageId: only ASCII digits are modelled. Python's
  `str.isdigit` also accepts other Unicode digits.
- Persistence.MessageIdRoundTrip: writing an int beyond 4300 digits makes
  `json.dump` raise inside `save_message_id`; file writes are assumed to
  succeed, so that failure is not modelled. Platform ids are 64-bit and stay
  within 20 digits (SnowflakeWithinDigitCap).
- Persistence.LoadPreviousSnapshot: only string-valued `"staff"` objects are
  modelled. A dictionary with non-string grades is not.
- Rendering.TitleLine: `str.upper` is a parameter, because Unicode case
  mapping is not modelled.
- Rendering.AlertLayout: the order inside each category is any enumeration
  of the set. Python's actual hash-based iteration order is not modelled.
- The log messages (`print`) and the process entry point `main` are not
  modelled.
- src/index.js is a separate, older implementation and is not part of this
  model.
