/**
 * The two files the bot keeps between runs: the staff snapshot
 * (`{"staff": {...}}`) and the display message id (`{"message_id": ...}`),
 * as the decoded shapes their loaders distinguish.
 */
module Persistence {
  import opened Wrappers
  import opened Decimal
  import opened Roster

  /** The `"staff"` member of a snapshot document. */
  datatype StaffField = StaffObject(staff: Snapshot) | StaffNotObject

  /** What `open` and `json.load` make of the snapshot file. */
  datatype SnapshotFile =
    | SnapshotMissing                            // FileNotFoundError
    | SnapshotUnreadable                         // any other OSError, or bytes that are not UTF-8
    | SnapshotNotJson                            // json.JSONDecodeError
    | SnapshotNotObject                          // valid JSON, but not an object
    | SnapshotObject(staff: Option<StaffField>)  // an object, with or without "staff"

  /** The exceptions `load_previous_snapshot` lets through (or that the bad value raises at the diff). */
  datatype SnapshotError = ReadFailed | NoGetMethod | StaffHasNoKeys

  /**
   * `load_previous_snapshot`: a missing or undecodable file, and an object
   * without `"staff"`, read as the empty snapshot; a `"staff"` object is
   * returned as it is; other failures propagate.
   */
  function LoadPreviousSnapshot(f: SnapshotFile): (r: Result<Snapshot, SnapshotError>)
    ensures f.SnapshotMissing? || f.SnapshotNotJson? ==> r == Ok(map[])
    ensures f == SnapshotObject(None) ==> r == Ok(map[])
    ensures f.SnapshotObject? && f.staff.Some? && f.staff.value.StaffObject? ==> r == Ok(f.staff.value.staff)
    ensures r.Ok? && r.value != map[] ==> f == SnapshotObject(Some(StaffObject(r.value)))
    ensures r.Err? <==> f.SnapshotUnreadable? || f.SnapshotNotObject? || f == SnapshotObject(Some(StaffNotObject))
  {
    match f
    case SnapshotMissing => Ok(map[])
    case SnapshotNotJson => Ok(map[])
    case SnapshotUnreadable => Err(ReadFailed)
    case SnapshotNotObject => Err(NoGetMethod)
    case SnapshotObject(None) => Ok(map[])
    case SnapshotObject(Some(StaffObject(m))) => Ok(m)
    case SnapshotObject(Some(StaffNotObject)) => Err(StaffHasNoKeys)
  }

  /** `save_staff_to_json`: the file after the atomic replace. */
  function SaveStaffToJson(staff: Snapshot): (file: SnapshotFile)
  {
    SnapshotObject(Some(StaffObject(staff)))
  }

  /** Loading what was saved gives the saved snapshot back. */
  lemma SnapshotRoundTrip(staff: Snapshot)
    ensures LoadPreviousSnapshot(SaveStaffToJson(staff)) == Ok(staff)
  {
  }

  /** A JSON value, as far as `load_message_id` looks at it. */
  datatype JsonValue = JNull | JBool(b: bool) | JInt(i: int) | JFloat | JStr(s: string) | JArray | JObject

  /** What the message-id file holds. */
  datatype MessageIdFile =
    | IdFileMissing                             // os.path.exists is false
    | IdFileBroken                              // open or json.load raised
    | IdFileNotObject                           // the document has no `.get`
    | IdObject(messageId: Option<JsonValue>)    // `.get("message_id")`

  /** `isinstance(raw, int | str)`; a Python `bool` is an `int`. */
  predicate IsIntOrStr(v: JsonValue)
  {
    v.JInt? || v.JStr? || v.JBool?
  }

  /** CPython's default cap on the digits of an `int`/`str` conversion (`sys.int_info.default_max_str_digits`). */
  const MaxStrDigits: nat := 4300

  /** `str(raw)` for the values `IsIntOrStr` admits, or `None` when it raises: an int of more than `MaxStrDigits` digits. */
  function PyStr(v: JsonValue): (s: Option<string>)
    requires IsIntOrStr(v)
  {
    match v
    case JInt(i) => if |NatToString(if i < 0 then -i else i)| > MaxStrDigits then None else Some(IntToString(i))
    case JStr(s) => Some(s)
    case JBool(b) => Some(if b then "True" else "False")
  }

  /** `int(raw)` once `str(raw)` is all digits, or `None` when it raises: a string of more than `MaxStrDigits` digits. */
  function PyInt(v: JsonValue): (i: Option<int>)
    requires IsIntOrStr(v) && PyStr(v).Some? && IsDigitString(PyStr(v).value)
  {
    match v
    case JInt(i) => Some(i)
    case JStr(s) => if |s| > MaxStrDigits then None else Some(ParseDecimal(s))
    case JBool(b) => Some(if b then 1 else 0)
  }

  /** The values `load_message_id` turns into an id: a non-negative int or a digit string, of at most `MaxStrDigits` digits. */
  predicate AcceptedId(v: JsonValue)
  {
    || (v.JInt? && v.i >= 0 && |NatToString(v.i)| <= MaxStrDigits)
    || (v.JStr? && IsDigitString(v.s) && |v.s| <= MaxStrDigits)
  }

  /**
   * The test `isinstance(raw, int | str) and str(raw).isdigit()` passes
   * exactly for the non-negative ints that `str` can convert and for the
   * digit strings; `int(raw)` then succeeds exactly on the accepted values.
   */
  lemma AcceptedIdIsDigitForm(v: JsonValue)
    ensures IsIntOrStr(v) && PyStr(v).Some? && IsDigitString(PyStr(v).value) <==>
      (v.JInt? && v.i >= 0 && |NatToString(v.i)| <= MaxStrDigits) || (v.JStr? && IsDigitString(v.s))
    ensures IsIntOrStr(v) && PyStr(v).Some? && IsDigitString(PyStr(v).value) && PyInt(v).Some? <==> AcceptedId(v)
  {
    if v.JInt? {
      IntToStringIsDigits(v.i);
    } else if v.JBool? {
      assert !IsDigit(PyStr(v).value[0]);
    }
  }

  /**
   * `load_message_id`: an int or string whose `str` form is all digits
   * becomes `int(raw)`; anything else, every read failure, and a conversion
   * past the digit cap (caught by `except Exception`) is `None`.
   */
  function LoadMessageId(f: MessageIdFile): (r: Option<int>)
    ensures r.Some? <==> f.IdObject? && f.messageId.Some? && AcceptedId(f.messageId.value)
    ensures r.Some? ==> r.value >= 0
    ensures f.IdObject? && f.messageId.Some? && f.messageId.value.JInt? && r.Some? ==> r.value == f.messageId.value.i
    ensures f.IdObject? && f.messageId.Some? && f.messageId.value.JStr? && r.Some? ==>
      IsDigitString(f.messageId.value.s) && r.value == ParseDecimal(f.messageId.value.s)
    ensures f.IdObject? && f.messageId.Some? && f.messageId.value.JStr? && |f.messageId.value.s| > MaxStrDigits ==> r == None
  {
    match f
    case IdObject(Some(raw)) =>
      AcceptedIdIsDigitForm(raw);
      if IsIntOrStr(raw) && PyStr(raw).Some? && IsDigitString(PyStr(raw).value) then PyInt(raw) else None
    case _ => None
  }

  /** `save_message_id`. */
  function SaveMessageId(id: int): (file: MessageIdFile)
  {
    IdObject(Some(JInt(id)))
  }

  /**
   * A saved id loads back when it is non-negative (as platform ids are) and
   * within the digit cap, and is rejected otherwise.
   */
  lemma MessageIdRoundTrip(id: int)
    ensures id >= 0 && |NatToString(id)| <= MaxStrDigits ==> LoadMessageId(SaveMessageId(id)) == Some(id)
    ensures id < 0 || |NatToString(id)| > MaxStrDigits ==> LoadMessageId(SaveMessageId(id)) == None
  {
  }

  /** An id stored as its decimal string loads back as the same number, unless it has too many digits for `int()`. */
  lemma MessageIdStringRoundTrip(id: nat)
    ensures |NatToString(id)| <= MaxStrDigits ==> LoadMessageId(IdObject(Some(JStr(NatToString(id))))) == Some(id)
    ensures |NatToString(id)| > MaxStrDigits ==> LoadMessageId(IdObject(Some(JStr(NatToString(id))))) == None
  {
    ParseNatToString(id);
  }

  /** A 64-bit platform id has at most 20 digits, far below the cap. */
  lemma SnowflakeWithinDigitCap(id: nat)
    requires id < 0x1_0000_0000_0000_0000
    ensures |NatToString(id)| <= 20 <= MaxStrDigits
  {
    assert Pow10(20) == 100_000_000_000_000_000_000 by {
      assert Pow10(10) == 10_000_000_000;
      assert Pow10(20) == Pow10(10) * Pow10(10) by {
        Pow10Add(10, 10);
      }
    }
    NatToStringShort(id, 20);
  }
}
