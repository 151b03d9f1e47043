/** The cases of the converter's test suite, stated over the model. */
module HabitConverterTests {
  import opened Wrappers
  import opened Types
  import opened HabitConverter

  /**
   * With "Exercise", "Exercise (1)" and "Exercise (3)" taken, the only name
   * GenerateVariantName can return is "Exercise (2)".
   */
  lemma VariantNameSkipsTakenCandidates(variantName: string)
    requires variantName !in ["Exercise", "Exercise (1)", "Exercise (3)"]
    requires exists n: nat | 1 <= n <= 4 ::
      variantName == VariantName("Exercise", n)
      && forall k: nat | 1 <= k < n :: VariantName("Exercise", k) in ["Exercise", "Exercise (1)", "Exercise (3)"]
    ensures variantName == "Exercise (2)"
  {
    var n: nat :| 1 <= n <= 4 && variantName == VariantName("Exercise", n)
      && forall k: nat | 1 <= k < n :: VariantName("Exercise", k) in ["Exercise", "Exercise (1)", "Exercise (3)"];
    assert VariantName("Exercise", 1) == "Exercise (1)";
    assert VariantName("Exercise", 2) == "Exercise (2)";
    if n != 2 {
      // n = 1 names a taken candidate; n > 2 would need "Exercise (2)" to be taken
      assert false;
    }
  }

  /** With only "Exercise" taken, the first variant "Exercise (1)" is the answer. */
  lemma FirstVariantIsOne(variantName: string)
    requires variantName !in ["Exercise"]
    requires exists n: nat | 1 <= n <= 2 ::
      variantName == VariantName("Exercise", n)
      && forall k: nat | 1 <= k < n :: VariantName("Exercise", k) in ["Exercise"]
    ensures variantName == "Exercise (1)"
  {
    var n: nat :| 1 <= n <= 2 && variantName == VariantName("Exercise", n)
      && forall k: nat | 1 <= k < n :: VariantName("Exercise", k) in ["Exercise"];
    assert VariantName("Exercise", 1) == "Exercise (1)";
    if n == 2 {
      // "Exercise (1)" is not taken
      assert false;
    }
  }

  /** The method gives the expected names on the test inputs. */
  method VariantNameExamples() returns (second: string, first: string)
    ensures second == "Exercise (2)" && first == "Exercise (1)"
  {
    second := GenerateVariantName("Exercise", ["Exercise", "Exercise (1)", "Exercise (3)"]);
    VariantNameSkipsTakenCandidates(second);
    first := GenerateVariantName("Exercise", ["Exercise"]);
    FirstVariantIsOne(first);
  }

  const MorningExercise: Habit :=
    Habit("123", "Morning Exercise", "\U{1F3C3}", "Run for 30 minutes", Morning, Daily, 1704067200000, 5, 100, Some(1704153600000), true, 1)

  /** An incoming "Morning Exercise" collides with the existing one; "New Habit" does not. */
  lemma NameConflictExample()
    ensures NameConflicts(
      [HabitData("Morning Exercise", "\U{1F3C3}", "Run for 30 minutes", Morning, Daily),
       HabitData("New Habit", "\U{1F3C3}", "Run for 30 minutes", Morning, Daily)],
      [MorningExercise]) == ["Morning Exercise"]
  {
    var incoming := [HabitData("Morning Exercise", "\U{1F3C3}", "Run for 30 minutes", Morning, Daily),
                     HabitData("New Habit", "\U{1F3C3}", "Run for 30 minutes", Morning, Daily)];
    assert NameCollides(incoming[0], [MorningExercise]) by {
      assert Text.ToLower([MorningExercise][0].name) == Text.ToLower(incoming[0].name);
    }
    assert !NameCollides(incoming[1], [MorningExercise]) by {
      assert |Text.ToLower(MorningExercise.name)| != |Text.ToLower(incoming[1].name)|;
    }
    var existing := [MorningExercise];
    assert incoming[..1][..0] == [];
    assert NameConflicts(incoming[..1], existing) == ["Morning Exercise"];
    assert incoming[..|incoming| - 1] == incoming[..1];
  }

  /** A different goal makes two habits not identical. */
  lemma DifferentGoalNotIdentical()
    ensures !AreHabitsIdentical(HabitData("Morning Exercise", "\U{1F3C3}", "Different goal", Morning, Daily), MorningExercise)
  {
    assert |Text.ToLower("Different goal")| != |Text.ToLower(MorningExercise.goal)|;
  }
}
