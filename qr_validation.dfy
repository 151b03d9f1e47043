/**
 * The gate in front of every scanned QR code: predicates over untrusted JSON
 * that decide whether it is a well-formed share envelope, the narrowing of an
 * accepted value to the typed records, the sanitiser, and the staged
 * end-to-end check that reports the first failure.
 */
module QRValidation {
  import opened Wrappers
  import opened Json
  import opened Types
  import Text

  const QR_CODE_VERSION: string := "1.0"
  const APP_IDENTIFIER: string := "blockhabits"
  /** Largest serialised envelope accepted (2 KB). */
  const MAX_DATA_SIZE: nat := 2048
  const MAX_HABITS_IN_COLLECTION: nat := 10

  const VALID_TIME_OF_DAY: seq<string> := ["morning", "afternoon", "evening", "anytime"]
  const VALID_REPEAT_CYCLE: seq<string> := ["daily", "weekly"]

  // ---------------------------------------------------------------------------
  // Enum spellings

  function TimeOfDayName(t: TimeOfDay): (s: string)
    ensures s in VALID_TIME_OF_DAY
  {
    match t
    case Morning => "morning"
    case Afternoon => "afternoon"
    case Evening => "evening"
    case Anytime => "anytime"
  }

  function RepeatCycleName(c: RepeatCycle): (s: string)
    ensures s in VALID_REPEAT_CYCLE
  {
    match c
    case Daily => "daily"
    case Weekly => "weekly"
  }

  /** The enum value a valid spelling denotes; the inverse of TimeOfDayName. */
  function ParseTimeOfDay(s: string): (r: Option<TimeOfDay>)
    ensures r.Some? <==> s in VALID_TIME_OF_DAY
    ensures r.Some? ==> TimeOfDayName(r.value) == s
    ensures forall t :: s == TimeOfDayName(t) ==> r == Some(t)
  {
    if s == "morning" then Some(Morning)
    else if s == "afternoon" then Some(Afternoon)
    else if s == "evening" then Some(Evening)
    else if s == "anytime" then Some(Anytime)
    else None
  }

  /** The enum value a valid spelling denotes; the inverse of RepeatCycleName. */
  function ParseRepeatCycle(s: string): (r: Option<RepeatCycle>)
    ensures r.Some? <==> s in VALID_REPEAT_CYCLE
    ensures r.Some? ==> RepeatCycleName(r.value) == s
    ensures forall c :: s == RepeatCycleName(c) ==> r == Some(c)
  {
    if s == "daily" then Some(Daily)
    else if s == "weekly" then Some(Weekly)
    else None
  }

  /** Negation of `!x || !names.includes(x)`: a string among `names`. */
  predicate IsOneOf(p: Option<JsonValue>, names: seq<string>) {
    p.Some? && p.value.JStr? && p.value.s in names
  }

  // ---------------------------------------------------------------------------
  // The validators

  /** `QRValidation.validateHabitData`. */
  predicate ValidateHabitData(v: JsonValue) {
    IsObjectLike(v)
    // the required string fields
    && (forall field | field in ["name", "icon", "goal"] :: IsNonBlankString(Get(v, field)))
    && IsOneOf(Get(v, "timeOfDay"), VALID_TIME_OF_DAY)
    && IsOneOf(Get(v, "repeatCycle"), VALID_REPEAT_CYCLE)
  }

  /** `QRValidation.validateHabitShareData`. */
  predicate ValidateHabitShareData(v: JsonValue) {
    IsObjectLike(v)
    && Get(v, "type") == Some(JStr("habit"))
    && IsNonEmptyString(Get(v, "version"))
    && IsObjectField(Get(v, "habit"))
    && ValidateHabitData(Get(v, "habit").value)
  }

  /** Negation of `data.description && typeof data.description !== 'string'`. */
  predicate IsOptionalString(p: Option<JsonValue>) {
    !Truthy(p) || p.value.JStr?
  }

  /** `QRValidation.validateCollectionShareData`. */
  predicate ValidateCollectionShareData(v: JsonValue) {
    IsObjectLike(v)
    && Get(v, "type") == Some(JStr("collection"))
    && IsNonEmptyString(Get(v, "version"))
    && IsNonBlankString(Get(v, "name"))
    && IsOptionalString(Get(v, "description"))
    && Get(v, "habits").Some? && Get(v, "habits").value.JArr?
    && |Get(v, "habits").value.items| != 0
    && (forall e | e in Get(v, "habits").value.items :: ValidateHabitData(e))
  }

  /** `QRValidation.validateQRCodeData`: the envelope, with the payload checked by the validator its type selects. */
  predicate ValidateQRCodeData(v: JsonValue) {
    IsObjectLike(v)
    && Get(v, "app") == Some(JStr(APP_IDENTIFIER))
    && IsNonEmptyString(Get(v, "version"))
    && IsOneOf(Get(v, "type"), ["habit", "collection"])
    && IsNonZeroNumber(Get(v, "timestamp"))
    && IsObjectField(Get(v, "data"))
    && (if Get(v, "type").value.s == "habit"
        then ValidateHabitShareData(Get(v, "data").value)
        else ValidateCollectionShareData(Get(v, "data").value))
  }

  /** `QRValidation.isCompatibleVersion`: only the current format version is accepted. */
  predicate IsCompatibleVersion(version: string) {
    version == QR_CODE_VERSION
  }

  /**
   * `QRValidation.validateDataSize`, given the length of the envelope's
   * `JSON.stringify` rendering in UTF-16 code units: at most 2048 and, for a
   * collection, at most ten habits.
   */
  predicate ValidateDataSize(data: QRCodeData, serializedLength: nat) {
    serializedLength <= MAX_DATA_SIZE
    && !(data.shareType == CollectionType && data.data.CollectionShareData?
         && |data.data.habits| > MAX_HABITS_IN_COLLECTION)
  }

  // ---------------------------------------------------------------------------
  // Typed records and their JSON form

  /** What validation demands of a typed habit: name, icon and goal are not blank. */
  predicate IsShareable(h: HabitData) {
    Text.Trim(h.name) != "" && Text.Trim(h.icon) != "" && Text.Trim(h.goal) != ""
  }

  /** What validation demands of a typed payload. */
  predicate WellFormedShareData(d: ShareData) {
    match d
    case HabitShareData(habit, version) => version != "" && IsShareable(habit)
    case CollectionShareData(name, _, habits, version) =>
      version != "" && Text.Trim(name) != "" && |habits| != 0
      && forall i :: 0 <= i < |habits| ==> IsShareable(habits[i])
  }

  /** What validation demands of a typed envelope; the outer type agrees with the payload's. */
  predicate WellFormedQRCodeData(q: QRCodeData) {
    q.app == APP_IDENTIFIER && q.version != "" && q.timestamp != 0
    && q.shareType == q.data.Type() && WellFormedShareData(q.data)
  }

  function ShareTypeName(t: ShareType): string {
    match t
    case HabitType => "habit"
    case CollectionType => "collection"
  }

  function HabitDataToJson(h: HabitData): JsonValue {
    JObj(map[
      "name" := JStr(h.name),
      "icon" := JStr(h.icon),
      "goal" := JStr(h.goal),
      "timeOfDay" := JStr(TimeOfDayName(h.timeOfDay)),
      "repeatCycle" := JStr(RepeatCycleName(h.repeatCycle))])
  }

  function HabitsToJson(habits: seq<HabitData>): (r: seq<JsonValue>)
    ensures |r| == |habits| && forall i :: 0 <= i < |habits| ==> r[i] == HabitDataToJson(habits[i])
  {
    seq(|habits|, i requires 0 <= i < |habits| => HabitDataToJson(habits[i]))
  }

  /** The JSON form of a payload; an absent description is an absent key. */
  function ShareDataToJson(d: ShareData): JsonValue {
    match d
    case HabitShareData(habit, version) =>
      JObj(map["type" := JStr("habit"), "habit" := HabitDataToJson(habit), "version" := JStr(version)])
    case CollectionShareData(name, description, habits, version) =>
      var m := map["type" := JStr("collection"), "name" := JStr(name),
                   "habits" := JArr(HabitsToJson(habits)), "version" := JStr(version)];
      JObj(if description.Some? then m["description" := JStr(description.value)] else m)
  }

  function QRCodeDataToJson(q: QRCodeData): JsonValue {
    JObj(map[
      "app" := JStr(q.app),
      "version" := JStr(q.version),
      "type" := JStr(ShareTypeName(q.shareType)),
      "timestamp" := JNum(q.timestamp),
      "data" := ShareDataToJson(q.data)])
  }

  // ---------------------------------------------------------------------------
  // Narrowing an accepted value to the typed records

  /** The typed habit an accepted value denotes, field for field. */
  function AsHabitData(v: JsonValue): (h: HabitData)
    requires ValidateHabitData(v)
    ensures IsShareable(h)
    ensures Get(v, "name") == Some(JStr(h.name))
    ensures Get(v, "icon") == Some(JStr(h.icon))
    ensures Get(v, "goal") == Some(JStr(h.goal))
    ensures Get(v, "timeOfDay") == Some(JStr(TimeOfDayName(h.timeOfDay)))
    ensures Get(v, "repeatCycle") == Some(JStr(RepeatCycleName(h.repeatCycle)))
  {
    ValidateHabitDataUnrolled(v);
    HabitData(
      Get(v, "name").value.s,
      Get(v, "icon").value.s,
      Get(v, "goal").value.s,
      ParseTimeOfDay(Get(v, "timeOfDay").value.s).value,
      ParseRepeatCycle(Get(v, "repeatCycle").value.s).value)
  }

  /** The typed payload an accepted value denotes. */
  function AsShareData(v: JsonValue): (d: ShareData)
    requires ValidateHabitShareData(v) || ValidateCollectionShareData(v)
    ensures WellFormedShareData(d)
    ensures d.HabitShareData? <==> ValidateHabitShareData(v)
    ensures Get(v, "version") == Some(JStr(d.version))
    ensures d.HabitShareData? ==> d.habit == AsHabitData(Get(v, "habit").value)
    ensures d.CollectionShareData? ==>
      Get(v, "name") == Some(JStr(d.name))
      && |d.habits| == |Get(v, "habits").value.items|
      && forall i :: 0 <= i < |d.habits| ==> d.habits[i] == AsHabitData(Get(v, "habits").value.items[i])
    ensures d.CollectionShareData? ==>
      d.description == match Get(v, "description") case Some(JStr(s)) => Some(s) case _ => None
  {
    if ValidateHabitShareData(v) then
      HabitShareData(AsHabitData(Get(v, "habit").value), Get(v, "version").value.s)
    else
      var items := Get(v, "habits").value.items;
      var description := match Get(v, "description") case Some(JStr(s)) => Some(s) case _ => None;
      CollectionShareData(
        Get(v, "name").value.s,
        description,
        seq(|items|, i requires 0 <= i < |items| => AsHabitData(items[i])),
        Get(v, "version").value.s)
  }

  /** The typed envelope an accepted value denotes: well formed, so its outer type matches its payload's. */
  function AsQRCodeData(v: JsonValue): (q: QRCodeData)
    requires ValidateQRCodeData(v)
    ensures WellFormedQRCodeData(q)
    ensures Get(v, "version") == Some(JStr(q.version))
    ensures Get(v, "type") == Some(JStr(ShareTypeName(q.shareType)))
    ensures Get(v, "timestamp") == Some(JNum(q.timestamp))
    ensures q.data == AsShareData(Get(v, "data").value)
  {
    var isHabit := Get(v, "type").value.s == "habit";
    QRCodeData(
      APP_IDENTIFIER,
      Get(v, "version").value.s,
      if isHabit then HabitType else CollectionType,
      Get(v, "timestamp").value.n,
      AsShareData(Get(v, "data").value))
  }

  // ---------------------------------------------------------------------------
  // Round trips between typed records and JSON

  /** The field loop of validateHabitData, spelled out. */
  lemma ValidateHabitDataUnrolled(v: JsonValue)
    ensures ValidateHabitData(v) <==>
      IsObjectLike(v)
      && IsNonBlankString(Get(v, "name")) && IsNonBlankString(Get(v, "icon"))
      && IsNonBlankString(Get(v, "goal"))
      && IsOneOf(Get(v, "timeOfDay"), VALID_TIME_OF_DAY)
      && IsOneOf(Get(v, "repeatCycle"), VALID_REPEAT_CYCLE)
  {
    if ValidateHabitData(v) {
      assert "name" in ["name", "icon", "goal"];
      assert "icon" in ["name", "icon", "goal"];
      assert "goal" in ["name", "icon", "goal"];
    }
  }

  lemma HabitDataJsonRoundTrip(h: HabitData)
    ensures ValidateHabitData(HabitDataToJson(h)) <==> IsShareable(h)
    ensures IsShareable(h) ==> AsHabitData(HabitDataToJson(h)) == h
  {
    var v := HabitDataToJson(h);
    assert Get(v, "name") == Some(JStr(h.name));
    assert Get(v, "icon") == Some(JStr(h.icon));
    assert Get(v, "goal") == Some(JStr(h.goal));
    assert Get(v, "timeOfDay") == Some(JStr(TimeOfDayName(h.timeOfDay)));
    assert Get(v, "repeatCycle") == Some(JStr(RepeatCycleName(h.repeatCycle)));
    ValidateHabitDataUnrolled(v);
  }

  lemma ShareDataJsonRoundTrip(d: ShareData)
    ensures ValidateHabitShareData(ShareDataToJson(d)) <==> d.HabitShareData? && WellFormedShareData(d)
    ensures ValidateCollectionShareData(ShareDataToJson(d)) <==> d.CollectionShareData? && WellFormedShareData(d)
    ensures WellFormedShareData(d) ==> AsShareData(ShareDataToJson(d)) == d
  {
    var v := ShareDataToJson(d);
    match d
    case HabitShareData(habit, version) =>
      assert Get(v, "type") == Some(JStr("habit"));
      assert Get(v, "habit") == Some(HabitDataToJson(habit));
      assert Get(v, "version") == Some(JStr(version));
      HabitDataJsonRoundTrip(habit);
    case CollectionShareData(name, description, habits, version) =>
      var items := HabitsToJson(habits);
      assert Get(v, "type") == Some(JStr("collection"));
      assert Get(v, "name") == Some(JStr(name));
      assert Get(v, "habits") == Some(JArr(items));
      assert Get(v, "version") == Some(JStr(version));
      assert Get(v, "description") == if description.Some? then Some(JStr(description.value)) else None;
      forall i | 0 <= i < |habits| {
        HabitDataJsonRoundTrip(habits[i]);
      }
      if ValidateCollectionShareData(v) {
        forall i | 0 <= i < |habits| ensures IsShareable(habits[i]) {
          assert items[i] in items;
        }
      }
      if WellFormedShareData(d) {
        assert forall e | e in items :: ValidateHabitData(e);
        var r := AsShareData(v);
        assert r.habits == habits;
      }
  }

  /**
   * A typed envelope passes the validator exactly when it is well formed, and
   * narrowing its JSON form gives it back unchanged.
   */
  lemma QRCodeDataJsonRoundTrip(q: QRCodeData)
    ensures ValidateQRCodeData(QRCodeDataToJson(q)) <==> WellFormedQRCodeData(q)
    ensures WellFormedQRCodeData(q) ==> AsQRCodeData(QRCodeDataToJson(q)) == q
  {
    var v := QRCodeDataToJson(q);
    assert Get(v, "app") == Some(JStr(q.app));
    assert Get(v, "version") == Some(JStr(q.version));
    assert Get(v, "type") == Some(JStr(ShareTypeName(q.shareType)));
    assert Get(v, "timestamp") == Some(JNum(q.timestamp));
    assert Get(v, "data") == Some(ShareDataToJson(q.data));
    ShareDataJsonRoundTrip(q.data);
  }

  /** An accepted envelope's inner type always matches its outer type. */
  lemma AcceptedEnvelopeTypesAgree(v: JsonValue)
    requires ValidateQRCodeData(v)
    ensures Get(Get(v, "data").value, "type") == Get(v, "type")
  {
  }

  /** What an accepted habit payload guarantees: type "habit", a version, and a valid habit. */
  lemma AcceptedHabitShareData(v: JsonValue)
    requires ValidateHabitShareData(v)
    ensures Get(v, "type") == Some(JStr("habit"))
    ensures Get(v, "version").Some? && Get(v, "version").value.JStr? && Get(v, "version").value.s != ""
    ensures Get(v, "habit").Some? && ValidateHabitData(Get(v, "habit").value)
    ensures !ValidateCollectionShareData(v)
  {
  }

  /**
   * What an accepted collection payload guarantees: type "collection", a
   * non-blank name, a description that is a string when present, and a
   * non-empty array of habits each of which passes validateHabitData.
   */
  lemma AcceptedCollectionShareData(v: JsonValue)
    requires ValidateCollectionShareData(v)
    ensures Get(v, "type") == Some(JStr("collection"))
    ensures Get(v, "name").Some? && Get(v, "name").value.JStr? && Text.Trim(Get(v, "name").value.s) != ""
    ensures Get(v, "description").Some? && Truthy(Get(v, "description")) ==> Get(v, "description").value.JStr?
    ensures Get(v, "habits").Some? && Get(v, "habits").value.JArr? && |Get(v, "habits").value.items| > 0
    ensures forall i :: 0 <= i < |Get(v, "habits").value.items| ==> ValidateHabitData(Get(v, "habits").value.items[i])
    ensures !ValidateHabitShareData(v)
  {
    var items := Get(v, "habits").value.items;
    forall i | 0 <= i < |items|
      ensures ValidateHabitData(items[i])
    {
      assert items[i] in items;
    }
  }

  /**
   * The size limit: a single habit is limited by its length alone; a
   * collection also by its number of habits. Adding a habit to a collection at
   * the limit makes it too large whatever its length.
   */
  lemma DataSizeLimits(q: QRCodeData, length: nat)
    requires q.shareType == q.data.Type()
    ensures q.data.HabitShareData? ==> (ValidateDataSize(q, length) <==> length <= 2048)
    ensures q.data.CollectionShareData? ==>
      (ValidateDataSize(q, length) <==> length <= 2048 && |q.data.habits| <= 10)
  {
  }

  // ---------------------------------------------------------------------------
  // Sanitising

  /**
   * `QRValidation.sanitizeHabitData`: exactly the five shareable keys; the
   * three strings coerced with `String(x || '')` and trimmed; the two enums
   * defaulted when falsy and otherwise passed through unchecked. The source
   * reads properties of its argument, so `null` makes it throw.
   */
  function SanitizeHabitData(habit: JsonValue): (r: JsonValue)
    requires !habit.JNull?
    ensures r.JObj? && r.fields.Keys == {"name", "icon", "goal", "timeOfDay", "repeatCycle"}
    ensures Get(r, "name") == Some(JStr(Text.Trim(StringOrEmpty(Get(habit, "name")))))
    ensures Get(r, "icon") == Some(JStr(Text.Trim(StringOrEmpty(Get(habit, "icon")))))
    ensures Get(r, "goal") == Some(JStr(Text.Trim(StringOrEmpty(Get(habit, "goal")))))
    ensures Truthy(Get(habit, "timeOfDay")) ==> Get(r, "timeOfDay") == Get(habit, "timeOfDay")
    ensures !Truthy(Get(habit, "timeOfDay")) ==> Get(r, "timeOfDay") == Some(JStr("anytime"))
    ensures Truthy(Get(habit, "repeatCycle")) ==> Get(r, "repeatCycle") == Get(habit, "repeatCycle")
    ensures !Truthy(Get(habit, "repeatCycle")) ==> Get(r, "repeatCycle") == Some(JStr("daily"))
  {
    var timeOfDay := Get(habit, "timeOfDay");
    var repeatCycle := Get(habit, "repeatCycle");
    JObj(map[
      "name" := JStr(Text.Trim(StringOrEmpty(Get(habit, "name")))),
      "icon" := JStr(Text.Trim(StringOrEmpty(Get(habit, "icon")))),
      "goal" := JStr(Text.Trim(StringOrEmpty(Get(habit, "goal")))),
      "timeOfDay" := if Truthy(timeOfDay) then timeOfDay.value else JStr("anytime"),
      "repeatCycle" := if Truthy(repeatCycle) then repeatCycle.value else JStr("daily")])
  }

  /** Sanitising twice gives what sanitising once gives. */
  lemma SanitizeIdempotent(habit: JsonValue)
    requires !habit.JNull?
    ensures SanitizeHabitData(SanitizeHabitData(habit)) == SanitizeHabitData(habit)
  {
    var r := SanitizeHabitData(habit);
    var rr := SanitizeHabitData(r);
    forall key | key in ["name", "icon", "goal"]
      ensures Get(rr, key) == Get(r, key)
    {
      var t := Text.Trim(StringOrEmpty(Get(habit, key)));
      Text.TrimIdempotent(StringOrEmpty(Get(habit, key)));
      if t == "" {
        assert StringOrEmpty(Some(JStr(t))) == "";
      }
    }
    assert rr.fields == r.fields;
  }

  /** Sanitising an accepted habit keeps it accepted and only trims its strings. */
  lemma SanitizePreservesValid(habit: JsonValue)
    requires ValidateHabitData(habit)
    ensures ValidateHabitData(SanitizeHabitData(habit))
    ensures var h := AsHabitData(habit);
      AsHabitData(SanitizeHabitData(habit))
        == h.(name := Text.Trim(h.name), icon := Text.Trim(h.icon), goal := Text.Trim(h.goal))
  {
    var h := AsHabitData(habit);
    var r := SanitizeHabitData(habit);
    Text.TrimIdempotent(h.name);
    Text.TrimIdempotent(h.icon);
    Text.TrimIdempotent(h.goal);
    ValidateHabitDataUnrolled(habit);
    ValidateHabitDataUnrolled(r);
  }

  // ---------------------------------------------------------------------------
  // The end-to-end gate

  datatype QRValidationError =
    | InvalidFormat
    | IncompatibleVersion
    | InvalidApp
    | DataTooLarge
    | InvalidHabitData
    | InvalidCollectionData

  datatype ValidationResult = ValidationResult(isValid: bool, error: Option<QRValidationError>, message: Option<string>)

  /** The raw text parses to a value the envelope validator accepts. */
  predicate ParsesToEnvelope(rawData: string, json: JsonCodec) {
    json.parse(rawData).Some? && ValidateQRCodeData(json.parse(rawData).value)
  }

  /**
   * `validateQRCode`: parse, then check format, version and size in that
   * order, reporting the first failure.
   */
  function ValidateQRCode(rawData: string, json: JsonCodec): (r: ValidationResult)
    ensures r.isValid <==> r.error.None?
    ensures r.isValid ==> r.message.None?
    ensures r.error.Some? ==> r.error.value in {InvalidFormat, IncompatibleVersion, DataTooLarge}
    ensures r.error == Some(InvalidFormat) <==> !ParsesToEnvelope(rawData, json)
    ensures r.error == Some(IncompatibleVersion) <==>
      ParsesToEnvelope(rawData, json)
      && !IsCompatibleVersion(AsQRCodeData(json.parse(rawData).value).version)
    ensures r.error == Some(DataTooLarge) <==>
      ParsesToEnvelope(rawData, json)
      && IsCompatibleVersion(AsQRCodeData(json.parse(rawData).value).version)
      && !ValidateDataSize(AsQRCodeData(json.parse(rawData).value),
                           Text.Utf16Length(json.stringify(json.parse(rawData).value)))
    ensures r.error == Some(InvalidFormat) ==>
      r.message == Some(if json.parse(rawData).None? then "QR code could not be parsed" else "QR code format is not valid")
    ensures r.error == Some(IncompatibleVersion) ==>
      r.message == Some("This QR code was created with an incompatible version")
    ensures r.error == Some(DataTooLarge) ==> r.message == Some("QR code contains too much data")
  {
    match json.parse(rawData)
    case None =>
      ValidationResult(false, Some(InvalidFormat), Some("QR code could not be parsed"))
    case Some(data) =>
      if !ValidateQRCodeData(data) then
        ValidationResult(false, Some(InvalidFormat), Some("QR code format is not valid"))
      else
        var envelope := AsQRCodeData(data);
        if !IsCompatibleVersion(envelope.version) then
          ValidationResult(false, Some(IncompatibleVersion),
                           Some("This QR code was created with an incompatible version"))
        else if !ValidateDataSize(envelope, Text.Utf16Length(json.stringify(data))) then
          ValidationResult(false, Some(DataTooLarge), Some("QR code contains too much data"))
        else
          ValidationResult(true, None, None)
  }

  /**
   * A code is accepted exactly when it parses to a well-formed envelope of
   * version "1.0", at most 2048 UTF-16 code units long and, as a collection,
   * with at most ten habits.
   */
  lemma ValidateQRCodeAccepts(rawData: string, json: JsonCodec)
    ensures ValidateQRCode(rawData, json).isValid <==>
      json.parse(rawData).Some?
      && var v := json.parse(rawData).value;
      ValidateQRCodeData(v)
      && AsQRCodeData(v).version == "1.0"
      && Text.Utf16Length(json.stringify(v)) <= 2048
      && (AsQRCodeData(v).data.CollectionShareData? ==> |AsQRCodeData(v).data.habits| <= 10)
  {
    if json.parse(rawData).Some? && ValidateQRCodeData(json.parse(rawData).value) {
      var q := AsQRCodeData(json.parse(rawData).value);
      assert q.shareType == q.data.Type();
    }
  }

  /** Text the codec cannot parse is reported as an invalid format. */
  lemma UnparsableIsInvalidFormat(rawData: string, json: JsonCodec)
    requires json.parse(rawData).None?
    ensures ValidateQRCode(rawData, json) == ValidationResult(false, Some(InvalidFormat), Some("QR code could not be parsed"))
  {
  }

  /**
   * A well-formed envelope of any version other than "1.0" is reported as an
   * incompatible version, whatever its size: the version check comes first.
   */
  lemma OtherVersionIsIncompatible(rawData: string, json: JsonCodec, q: QRCodeData)
    requires json.parse(rawData) == Some(QRCodeDataToJson(q))
    requires WellFormedQRCodeData(q) && q.version != "1.0"
    ensures ValidateQRCode(rawData, json).error == Some(IncompatibleVersion)
  {
    QRCodeDataJsonRoundTrip(q);
  }
}
