/** The cases of the validator's test suite, stated over the model. */
module QRValidationTests {
  import opened Wrappers
  import opened Json
  import opened QRValidation

  /** A habit object with every field present, the timeOfDay and repeatCycle spellings given. */
  function HabitObject(name: string, timeOfDay: string, repeatCycle: string): JsonValue {
    JObj(map["name" := JStr(name), "icon" := JStr("\U{1F3C3}"), "goal" := JStr("Run for 30 minutes"),
             "timeOfDay" := JStr(timeOfDay), "repeatCycle" := JStr(repeatCycle)])
  }

  lemma NonBlankLiteral(s: string)
    requires s != [] && !Text.IsSpace(s[0])
    ensures Text.Trim(s) != ""
  {
    Text.TrimEmptyIffAllSpace(s);
  }

  /** The valid habit of the tests is accepted. */
  lemma ValidHabitExample()
    ensures ValidateHabitData(HabitObject("Morning Exercise", "morning", "daily"))
  {
    var v := HabitObject("Morning Exercise", "morning", "daily");
    NonBlankLiteral("Morning Exercise");
    NonBlankLiteral("\U{1F3C3}");
    NonBlankLiteral("Run for 30 minutes");
    assert Get(v, "name") == Some(JStr("Morning Exercise"));
    assert Get(v, "icon") == Some(JStr("\U{1F3C3}"));
    assert Get(v, "goal") == Some(JStr("Run for 30 minutes"));
    assert Get(v, "timeOfDay") == Some(JStr("morning"));
    assert Get(v, "repeatCycle") == Some(JStr("daily"));
    ValidateHabitDataUnrolled(v);
  }

  /** An empty name is rejected. */
  lemma EmptyNameExample()
    ensures !ValidateHabitData(HabitObject("", "morning", "daily"))
  {
    var v := HabitObject("", "morning", "daily");
    assert Get(v, "name") == Some(JStr(""));
    ValidateHabitDataUnrolled(v);
  }

  /** An unknown time of day is rejected. */
  lemma InvalidTimeOfDayExample()
    ensures !ValidateHabitData(HabitObject("Morning Exercise", "invalid", "daily"))
  {
    var v := HabitObject("Morning Exercise", "invalid", "daily");
    assert Get(v, "timeOfDay") == Some(JStr("invalid"));
  }

  /** An unknown repeat cycle is rejected. */
  lemma InvalidRepeatCycleExample()
    ensures !ValidateHabitData(HabitObject("Morning Exercise", "morning", "invalid"))
  {
    var v := HabitObject("Morning Exercise", "morning", "invalid");
    assert Get(v, "repeatCycle") == Some(JStr("invalid"));
  }

  /** "invalid json" does not parse, so the code is reported as an invalid format. */
  lemma MalformedTextExample(json: JsonCodec)
    requires json.parse("invalid json").None?
    ensures ValidateQRCode("invalid json", json).error == Some(InvalidFormat)
    ensures !ValidateQRCode("invalid json", json).isValid
  {
  }

  lemma TrimUnpadded(s: string)
    requires s != [] && !Text.IsSpace(s[0]) && !Text.IsSpace(s[|s| - 1])
    ensures Text.Trim(s) == s
  {
  }

  lemma TrimPaddedName()
    ensures Text.Trim("  Morning Exercise  ") == "Morning Exercise"
  {
    assert "  Morning Exercise  " == "  " + "Morning Exercise" + "  ";
    Text.TrimPadded("  ", "Morning Exercise", "  ");
  }

  lemma TrimPaddedGoal()
    ensures Text.Trim("  Run for 30 minutes  ") == "Run for 30 minutes"
  {
    assert "  Run for 30 minutes  " == "  " + "Run for 30 minutes" + "  ";
    Text.TrimPadded("  ", "Run for 30 minutes", "  ");
  }

  /** The test's dirty object: padded strings and three private fields. */
  function DirtyHabit(): JsonValue {
    JObj(map[
      "name" := JStr("  Morning Exercise  "), "icon" := JStr("\U{1F3C3}"), "goal" := JStr("  Run for 30 minutes  "),
      "timeOfDay" := JStr("morning"), "repeatCycle" := JStr("daily"),
      "id" := JStr("123"), "streak" := JNum(5), "totalXP" := JNum(100)])
  }

  /** What the test expects the sanitiser to return. */
  function CleanHabit(): JsonValue {
    JObj(map["name" := JStr("Morning Exercise"), "icon" := JStr("\U{1F3C3}"), "goal" := JStr("Run for 30 minutes"),
             "timeOfDay" := JStr("morning"), "repeatCycle" := JStr("daily")])
  }

  lemma DirtyHabitFields()
    ensures DirtyHabit().JObj?
    ensures Get(DirtyHabit(), "name") == Some(JStr("  Morning Exercise  "))
    ensures Get(DirtyHabit(), "icon") == Some(JStr("\U{1F3C3}"))
    ensures Get(DirtyHabit(), "goal") == Some(JStr("  Run for 30 minutes  "))
    ensures Get(DirtyHabit(), "timeOfDay") == Some(JStr("morning"))
    ensures Get(DirtyHabit(), "repeatCycle") == Some(JStr("daily"))
  {
  }

  /**
   * The sanitiser trims the test's padded name and goal and drops its `id`,
   * `streak` and `totalXP`.
   */
  lemma SanitizeExample()
    ensures SanitizeHabitData(DirtyHabit()) == CleanHabit()
    ensures "id" in DirtyHabit().fields && "id" !in SanitizeHabitData(DirtyHabit()).fields
    ensures "streak" !in SanitizeHabitData(DirtyHabit()).fields
    ensures "totalXP" !in SanitizeHabitData(DirtyHabit()).fields
  {
    DirtyHabitFields();
    SanitizeStrings(DirtyHabit(), "  Morning Exercise  ", "\U{1F3C3}", "  Run for 30 minutes  ", "morning", "daily");
    TrimPaddedName();
    TrimPaddedGoal();
    TrimUnpadded("\U{1F3C3}");
  }

  /** Sanitising an object whose five fields are strings, the two enums non-empty. */
  lemma SanitizeStrings(v: JsonValue, name: string, icon: string, goal: string, timeOfDay: string, repeatCycle: string)
    requires v.JObj?
    requires Get(v, "name") == Some(JStr(name)) && Get(v, "icon") == Some(JStr(icon)) && Get(v, "goal") == Some(JStr(goal))
    requires Get(v, "timeOfDay") == Some(JStr(timeOfDay)) && timeOfDay != ""
    requires Get(v, "repeatCycle") == Some(JStr(repeatCycle)) && repeatCycle != ""
    ensures SanitizeHabitData(v)
      == JObj(map["name" := JStr(Text.Trim(name)), "icon" := JStr(Text.Trim(icon)), "goal" := JStr(Text.Trim(goal)),
                  "timeOfDay" := JStr(timeOfDay), "repeatCycle" := JStr(repeatCycle)])
  {
    var r := SanitizeHabitData(v);
    var expected := JObj(map["name" := JStr(Text.Trim(name)), "icon" := JStr(Text.Trim(icon)), "goal" := JStr(Text.Trim(goal)),
                             "timeOfDay" := JStr(timeOfDay), "repeatCycle" := JStr(repeatCycle)]);
    assert Get(r, "name") == Get(expected, "name");
    assert Get(r, "icon") == Get(expected, "icon");
    assert Get(r, "goal") == Get(expected, "goal");
    assert Get(r, "timeOfDay") == Get(expected, "timeOfDay");
    assert Get(r, "repeatCycle") == Get(expected, "repeatCycle");
    assert r.fields.Keys == expected.fields.Keys;
  }
}
