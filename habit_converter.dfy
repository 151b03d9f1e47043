/**
 * Conversion between local habits and their shareable form, the envelopes
 * that carry them, and the comparisons used when shared habits are merged
 * into a local list: variant names, name conflicts, identical habits and
 * similar goals.
 */
module HabitConverter {
  import opened Wrappers
  import opened Types
  import opened Json
  import QRValidation
  import Text

  // ---------------------------------------------------------------------------
  // Projection

  /** `toShareableHabit`: the five shareable fields of a local habit. */
  function ToShareableHabit(habit: Habit): HabitData {
    HabitData(habit.name, habit.icon, habit.goal, habit.timeOfDay, habit.repeatCycle)
  }

  /** The five shareable fields of a local habit, as the payload that creates a habit. */
  function DraftOf(habit: Habit): HabitDraft {
    HabitDraft(habit.name, habit.icon, habit.goal, habit.timeOfDay, habit.repeatCycle)
  }

  /** `fromShareableHabit`: the fields a new local habit is created from. */
  function FromShareableHabit(habitData: HabitData): HabitDraft {
    HabitDraft(habitData.name, habitData.icon, habitData.goal, habitData.timeOfDay, habitData.repeatCycle)
  }

  /**
   * The projection depends on nothing but the five shared fields: two habits
   * that differ only in id, dates, streak, XP, completion or growth share
   * identically.
   */
  lemma ShareableHabitIgnoresPrivateFields(h1: Habit, h2: Habit)
    ensures ToShareableHabit(h1) == ToShareableHabit(h2) <==> DraftOf(h1) == DraftOf(h2)
  {
  }

  /** Sharing a habit and creating one from the shared form keeps the five fields. */
  lemma FromShareableAfterToShareable(habit: Habit)
    ensures FromShareableHabit(ToShareableHabit(habit)) == DraftOf(habit)
  {
  }

  /** `toShareableHabits`: element-wise projection, same length and order. */
  function ToShareableHabits(habits: seq<Habit>): (r: seq<HabitData>)
    ensures |r| == |habits|
    ensures forall i :: 0 <= i < |habits| ==> r[i] == ToShareableHabit(habits[i])
  {
    if habits == [] then [] else [ToShareableHabit(habits[0])] + ToShareableHabits(habits[1..])
  }

  /** `fromShareableHabits`: element-wise, same length and order. */
  function FromShareableHabits(habitsData: seq<HabitData>): (r: seq<HabitDraft>)
    ensures |r| == |habitsData|
    ensures forall i :: 0 <= i < |habitsData| ==> r[i] == FromShareableHabit(habitsData[i])
  {
    if habitsData == [] then [] else [FromShareableHabit(habitsData[0])] + FromShareableHabits(habitsData[1..])
  }

  // ---------------------------------------------------------------------------
  // Envelopes; `now` stands for the clock reading `Date.now()`

  /** `createHabitQRData`: a current-version envelope of type "habit" around the projected habit. */
  function CreateHabitQRData(habit: Habit, now: int): (q: QRCodeData)
    ensures q.app == QRValidation.APP_IDENTIFIER
    ensures q.version == QRValidation.QR_CODE_VERSION && q.data.version == QRValidation.QR_CODE_VERSION
    ensures q.shareType == HabitType && q.data.Type() == HabitType
    ensures q.timestamp == now
    ensures q.data.HabitShareData? && q.data.habit == ToShareableHabit(habit)
  {
    QRCodeData(
      QRValidation.APP_IDENTIFIER,
      QRValidation.QR_CODE_VERSION,
      HabitType,
      now,
      HabitShareData(ToShareableHabit(habit), QRValidation.QR_CODE_VERSION))
  }

  /** `createCollectionQRData`: name and description trimmed, habits projected in order. */
  function CreateCollectionQRData(name: string, habits: seq<Habit>, description: Option<string>, now: int): (q: QRCodeData)
    ensures q.app == QRValidation.APP_IDENTIFIER
    ensures q.version == QRValidation.QR_CODE_VERSION && q.data.version == QRValidation.QR_CODE_VERSION
    ensures q.shareType == CollectionType && q.data.Type() == CollectionType
    ensures q.timestamp == now
    ensures q.data.CollectionShareData?
    ensures q.data.name == Text.Trim(name)
    ensures q.data.description == if description.Some? then Some(Text.Trim(description.value)) else None
    ensures q.data.habits == ToShareableHabits(habits)
  {
    QRCodeData(
      QRValidation.APP_IDENTIFIER,
      QRValidation.QR_CODE_VERSION,
      CollectionType,
      now,
      CollectionShareData(
        Text.Trim(name),
        if description.Some? then Some(Text.Trim(description.value)) else None,
        ToShareableHabits(habits),
        QRValidation.QR_CODE_VERSION))
  }

  /** A habit's envelope passes the validator exactly when its strings are not blank and the clock is not zero. */
  lemma HabitQRDataIsAccepted(habit: Habit, now: int)
    ensures QRValidation.ValidateQRCodeData(QRValidation.QRCodeDataToJson(CreateHabitQRData(habit, now)))
      <==> now != 0 && QRValidation.IsShareable(ToShareableHabit(habit))
  {
    QRValidation.QRCodeDataJsonRoundTrip(CreateHabitQRData(habit, now));
  }

  /**
   * A collection's envelope passes the validator exactly when its name is not
   * blank, it has at least one habit, every habit's strings are not blank and
   * the clock is not zero.
   */
  lemma CollectionQRDataIsAccepted(name: string, habits: seq<Habit>, description: Option<string>, now: int)
    ensures QRValidation.ValidateQRCodeData(QRValidation.QRCodeDataToJson(CreateCollectionQRData(name, habits, description, now)))
      <==> now != 0 && Text.Trim(name) != "" && |habits| != 0
           && forall i :: 0 <= i < |habits| ==> QRValidation.IsShareable(ToShareableHabit(habits[i]))
  {
    var q := CreateCollectionQRData(name, habits, description, now);
    QRValidation.QRCodeDataJsonRoundTrip(q);
    Text.TrimIdempotent(name);
  }

  /** `createQRCodeString`: the envelope rendered by the platform's JSON.stringify. */
  function CreateQRCodeString(qrData: QRCodeData, json: JsonCodec): string {
    json.stringify(QRValidation.QRCodeDataToJson(qrData))
  }

  /**
   * Sharing then scanning: if the platform codec round-trips the envelope and
   * its rendering fits in 2048 characters, the scanned text of a shareable
   * habit passes `validateQRCode` and narrows back to the same envelope.
   */
  lemma SharedHabitScansBack(habit: Habit, now: int, json: JsonCodec)
    requires RoundTrips(json, QRValidation.QRCodeDataToJson(CreateHabitQRData(habit, now)))
    requires now != 0 && QRValidation.IsShareable(ToShareableHabit(habit))
    requires Text.Utf16Length(CreateQRCodeString(CreateHabitQRData(habit, now), json)) <= QRValidation.MAX_DATA_SIZE
    ensures QRValidation.ValidateQRCode(CreateQRCodeString(CreateHabitQRData(habit, now), json), json).isValid
    ensures var parsed := json.parse(CreateQRCodeString(CreateHabitQRData(habit, now), json));
      parsed.Some? && QRValidation.ValidateQRCodeData(parsed.value)
      && QRValidation.AsQRCodeData(parsed.value) == CreateHabitQRData(habit, now)
  {
    QRValidation.QRCodeDataJsonRoundTrip(CreateHabitQRData(habit, now));
  }

  /**
   * The same for a collection, which in addition must hold at most ten
   * habits to pass the size check.
   */
  lemma SharedCollectionScansBack(name: string, habits: seq<Habit>, description: Option<string>, now: int, json: JsonCodec)
    requires RoundTrips(json, QRValidation.QRCodeDataToJson(CreateCollectionQRData(name, habits, description, now)))
    requires now != 0 && Text.Trim(name) != "" && 0 < |habits| <= QRValidation.MAX_HABITS_IN_COLLECTION
    requires forall i :: 0 <= i < |habits| ==> QRValidation.IsShareable(ToShareableHabit(habits[i]))
    requires Text.Utf16Length(CreateQRCodeString(CreateCollectionQRData(name, habits, description, now), json)) <= QRValidation.MAX_DATA_SIZE
    ensures QRValidation.ValidateQRCode(CreateQRCodeString(CreateCollectionQRData(name, habits, description, now), json), json).isValid
  {
    var q := CreateCollectionQRData(name, habits, description, now);
    CollectionQRDataIsAccepted(name, habits, description, now);
    QRValidation.QRCodeDataJsonRoundTrip(q);
  }

  // ---------------------------------------------------------------------------
  // Variant names

  /** The n-th variant of a name: `${originalName} (${n})`. */
  function VariantName(originalName: string, n: nat): string {
    originalName + " (" + Text.NatToString(n) + ")"
  }

  /** Different counters give different variant names. */
  lemma VariantNameInjective(originalName: string, m: nat, n: nat)
    requires VariantName(originalName, m) == VariantName(originalName, n)
    ensures m == n
  {
    var a, b := Text.NatToString(m), Text.NatToString(n);
    var x, y := VariantName(originalName, m), VariantName(originalName, n);
    var p := |originalName| + 2;
    assert |a| == |b|;
    assert x[p..p + |a|] == a;
    assert y[p..p + |b|] == b;
    Text.NatToStringInjective(m, n);
  }

  /** The variant names the loop has tried before reaching `counter`. */
  ghost function Tried(originalName: string, counter: nat): set<string> {
    set k: nat | 1 <= k < counter :: VariantName(originalName, k)
  }

  /** A sequence has no more distinct elements than it has elements. */
  lemma {:induction false} DistinctAtMostLength(xs: seq<string>)
    ensures |set x | x in xs| <= |xs|
  {
    if xs != [] {
      DistinctAtMostLength(xs[1..]);
      assert (set x | x in xs) == (set x | x in xs[1..]) + {xs[0]};
    }
  }

  /**
   * `generateVariantName`: the first of "name (1)", "name (2)", … that is not
   * among the existing names. Every smaller candidate is taken, and at most
   * |existingNames| + 1 candidates are tried.
   */
  method GenerateVariantName(originalName: string, existingNames: seq<string>) returns (variantName: string)
    ensures variantName !in existingNames
    ensures exists n: nat | 1 <= n <= |existingNames| + 1 ::
      variantName == VariantName(originalName, n)
      && forall k: nat | 1 <= k < n :: VariantName(originalName, k) in existingNames
  {
    var counter: nat := 1;
    variantName := VariantName(originalName, counter);
    ghost var names := set x | x in existingNames;
    ghost var untried := names;
    while variantName in existingNames
      invariant counter >= 1
      invariant variantName == VariantName(originalName, counter)
      invariant forall k: nat | 1 <= k < counter :: VariantName(originalName, k) in existingNames
      invariant untried <= names
      invariant forall x | x in names :: x in untried || x in Tried(originalName, counter)
      invariant |untried| + counter - 1 == |names|
      decreases |untried|
    {
      if variantName in Tried(originalName, counter) {
        var k: nat :| 1 <= k < counter && VariantName(originalName, k) == variantName;
        VariantNameInjective(originalName, k, counter);
        assert false;
      }
      assert variantName in untried;
      untried := untried - {variantName};
      counter := counter + 1;
      variantName := VariantName(originalName, counter);
    }
    DistinctAtMostLength(existingNames);
  }

  // ---------------------------------------------------------------------------
  // Name conflicts

  /** An incoming habit's name equals, ignoring case, the name of some existing habit. */
  predicate NameCollides(newHabit: HabitData, existingHabits: seq<Habit>) {
    exists j :: 0 <= j < |existingHabits| && Text.ToLower(existingHabits[j].name) == Text.ToLower(newHabit.name)
  }

  /** The names of the colliding incoming habits, in incoming order, one entry per colliding habit. */
  function NameConflicts(newHabits: seq<HabitData>, existingHabits: seq<Habit>): seq<string>
  {
    if newHabits == [] then []
    else
      var last := newHabits[|newHabits| - 1];
      NameConflicts(newHabits[..|newHabits| - 1], existingHabits)
        + if NameCollides(last, existingHabits) then [last.name] else []
  }

  /** The lower-cased names of the existing habits. */
  function LowerNames(habits: seq<Habit>): (r: seq<string>)
    ensures |r| == |habits| && forall j :: 0 <= j < |habits| ==> r[j] == Text.ToLower(habits[j].name)
  {
    seq(|habits|, j requires 0 <= j < |habits| => Text.ToLower(habits[j].name))
  }

  /** `detectNameConflicts`: walks the incoming habits and collects the names that collide. */
  method DetectNameConflicts(newHabits: seq<HabitData>, existingHabits: seq<Habit>) returns (conflicts: seq<string>)
    ensures conflicts == NameConflicts(newHabits, existingHabits)
  {
    var existingNames := LowerNames(existingHabits);
    conflicts := [];
    var i := 0;
    while i < |newHabits|
      invariant 0 <= i <= |newHabits|
      invariant conflicts == NameConflicts(newHabits[..i], existingHabits)
    {
      assert newHabits[..i + 1][..i] == newHabits[..i];
      if Text.ToLower(newHabits[i].name) in existingNames {
        conflicts := conflicts + [newHabits[i].name];
      }
      i := i + 1;
    }
    assert newHabits[..i] == newHabits;
  }

  /** Conflicts of a concatenation are the conflicts of each part, in order: order and repeats are kept. */
  lemma {:induction false} NameConflictsAppend(a: seq<HabitData>, b: seq<HabitData>, existingHabits: seq<Habit>)
    ensures NameConflicts(a + b, existingHabits) == NameConflicts(a, existingHabits) + NameConflicts(b, existingHabits)
    decreases |b|
  {
    if b != [] {
      var b' := b[..|b| - 1];
      assert (a + b)[..|a + b| - 1] == a + b';
      NameConflictsAppend(a, b', existingHabits);
    } else {
      assert a + b == a;
    }
  }

  /** A name is reported exactly when some incoming habit of that name collides. */
  lemma {:induction false} NameConflictsMembership(newHabits: seq<HabitData>, existingHabits: seq<Habit>, name: string)
    ensures name in NameConflicts(newHabits, existingHabits) <==>
      exists i :: 0 <= i < |newHabits| && newHabits[i].name == name && NameCollides(newHabits[i], existingHabits)
    decreases |newHabits|
  {
    if newHabits != [] {
      var n := |newHabits| - 1;
      var init := newHabits[..n];
      NameConflictsMembership(init, existingHabits, name);
      assert forall i :: 0 <= i < n ==> init[i] == newHabits[i];
    }
  }

  /** Nothing is reported when no incoming name collides. */
  lemma NoCollisionsNoConflicts(newHabits: seq<HabitData>, existingHabits: seq<Habit>)
    requires forall i :: 0 <= i < |newHabits| ==> !NameCollides(newHabits[i], existingHabits)
    ensures NameConflicts(newHabits, existingHabits) == []
  {
    if NameConflicts(newHabits, existingHabits) != [] {
      NameConflictsMembership(newHabits, existingHabits, NameConflicts(newHabits, existingHabits)[0]);
    }
  }

  // ---------------------------------------------------------------------------
  // Identical habits and similar goals

  /** `areHabitsIdentical`: names and goals equal ignoring case, time of day and cycle equal. */
  predicate AreHabitsIdentical(habit1: HabitData, habit2: Habit) {
    Text.ToLower(habit1.name) == Text.ToLower(habit2.name)
    && Text.ToLower(habit1.goal) == Text.ToLower(habit2.goal)
    && habit1.timeOfDay == habit2.timeOfDay
    && habit1.repeatCycle == habit2.repeatCycle
  }

  /** Every habit is identical to its own shareable form. */
  lemma IdenticalToOwnProjection(habit: Habit)
    ensures AreHabitsIdentical(ToShareableHabit(habit), habit)
  {
  }

  /** An incoming habit identical to an existing one is always reported as a name conflict. */
  lemma IdenticalIsNameConflict(newHabits: seq<HabitData>, existingHabits: seq<Habit>, i: nat, j: nat)
    requires i < |newHabits| && j < |existingHabits|
    requires AreHabitsIdentical(newHabits[i], existingHabits[j])
    ensures newHabits[i].name in NameConflicts(newHabits, existingHabits)
  {
    NameConflictsMembership(newHabits, existingHabits, newHabits[i].name);
  }

  /** A goal as compared: lower-cased, with everything but word characters and white space removed. */
  function NormalizeGoal(goal: string): string {
    Text.KeepWordAndSpace(Text.ToLower(goal))
  }

  /** The words of `words1` longer than three characters that also occur in `words2`; repeats count. */
  function CommonWords(words1: seq<string>, words2: seq<string>): seq<string> {
    if words1 == [] then []
    else (if |words1[0]| > 3 && words1[0] in words2 then [words1[0]] else []) + CommonWords(words1[1..], words2)
  }

  /** `haveSimilarGoals`: two shared long words, or one when either goal has at most three words. */
  predicate HaveSimilarGoals(habit1: HabitData, habit2: Habit) {
    var words1 := Text.SplitOnSpaces(NormalizeGoal(habit1.goal));
    var words2 := Text.SplitOnSpaces(NormalizeGoal(habit2.goal));
    var common := |CommonWords(words1, words2)|;
    common >= 2 || (common >= 1 && (if |words1| < |words2| then |words1| else |words2|) <= 3)
  }

  /** Exactly the long words of the first list that the second list contains are common. */
  lemma {:induction false} CommonWordsMembership(words1: seq<string>, words2: seq<string>, w: string)
    ensures w in CommonWords(words1, words2) <==> w in words1 && |w| > 3 && w in words2
  {
    if words1 != [] {
      CommonWordsMembership(words1[1..], words2, w);
      assert w in words1 <==> w == words1[0] || w in words1[1..];
    }
  }

  /** Similar goals always share a word longer than three characters. */
  lemma SimilarGoalsShareLongWord(habit1: HabitData, habit2: Habit)
    requires HaveSimilarGoals(habit1, habit2)
    ensures exists w :: |w| > 3 && w in Text.SplitOnSpaces(NormalizeGoal(habit1.goal))
                                && w in Text.SplitOnSpaces(NormalizeGoal(habit2.goal))
  {
    var words1 := Text.SplitOnSpaces(NormalizeGoal(habit1.goal));
    var words2 := Text.SplitOnSpaces(NormalizeGoal(habit2.goal));
    var w := CommonWords(words1, words2)[0];
    CommonWordsMembership(words1, words2, w);
  }
}
