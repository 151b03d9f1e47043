/**
 * The habits store: the list of local habits and the day's completion map,
 * updated in place by the reducers. Clock readings (`Date.now()`,
 * `new Date()`) are parameters.
 */
module HabitsSlice {
  import opened Wrappers
  import opened Types
  import Biomes

  /** The growth stage a streak reaches: mature at 21, growing at 14, sprout at 7, else seed. */
  function StageForStreak(streak: int): (stage: int)
    ensures 0 <= stage <= 3
    ensures stage == 0 <==> streak < 7
    ensures stage == 1 <==> 7 <= streak < 14
    ensures stage == 2 <==> 14 <= streak < 21
    ensures stage == 3 <==> streak >= 21
  {
    if streak >= 21 then 3 else if streak >= 14 then 2 else if streak >= 7 then 1 else 0
  }

  /** XP for a completion that brings the streak to `newStreak`: the base, or the bonus above seven days. */
  function CompletionXP(newStreak: int): (xp: int)
    ensures xp == 10 || xp == 15
    ensures xp == 15 <==> newStreak > 7
  {
    if newStreak > 7 then Biomes.STREAK_BONUS_XP else Biomes.XP_PER_HABIT
  }

  /** The new habit `addHabit` builds from a payload, a fresh id and the creation time. */
  function NewHabit(payload: HabitDraft, id: string, createdAt: int): Habit {
    Habit(id, payload.name, payload.icon, payload.goal, payload.timeOfDay, payload.repeatCycle,
          createdAt, 0, 0, None, false, 0)
  }

  /** What `completeHabit` does to the found habit. */
  function Completed(habit: Habit, now: int): (h: Habit)
    ensures h == habit.(isCompleted := h.isCompleted, lastCompleted := h.lastCompleted, streak := h.streak,
                        totalXP := h.totalXP, growthStage := h.growthStage)
    ensures h.isCompleted && h.lastCompleted == Some(now) && h.streak == habit.streak + 1
    ensures h.totalXP == habit.totalXP + CompletionXP(h.streak)
    ensures h.streak >= 7 ==> h.growthStage == StageForStreak(h.streak)
    ensures h.streak < 7 ==> h.growthStage == habit.growthStage
  {
    var streak := habit.streak + 1;
    var stage := if streak >= 21 then 3 else if streak >= 14 then 2 else if streak >= 7 then 1 else habit.growthStage;
    habit.(isCompleted := true, lastCompleted := Some(now), streak := streak,
           totalXP := habit.totalXP + CompletionXP(streak), growthStage := stage)
  }

  /** What `uncompleteHabit` does to the found habit: the streak drops by one, not below zero, XP is kept. */
  function Uncompleted(habit: Habit): (h: Habit)
    ensures h == habit.(isCompleted := false, streak := h.streak, growthStage := h.growthStage)
    ensures h.streak == if habit.streak >= 1 then habit.streak - 1 else 0
    ensures h.growthStage == StageForStreak(h.streak)
  {
    var streak := if habit.streak - 1 > 0 then habit.streak - 1 else 0;
    habit.(isCompleted := false, streak := streak, growthStage := StageForStreak(streak))
  }

  /** What `resetDailyProgress` does to each habit: a missed day breaks the streak. */
  function ResetForNewDay(habit: Habit): (h: Habit)
    ensures !h.isCompleted
    ensures habit.isCompleted ==> h == habit.(isCompleted := false)
    ensures !habit.isCompleted ==> h == habit.(streak := 0, growthStage := 0)
  {
    if !habit.isCompleted then habit.(streak := 0, growthStage := 0, isCompleted := false)
    else habit.(isCompleted := false)
  }

  /**
   * The fields an `updateHabit` payload supplies; None leaves the field as it
   * is. For `lastCompleted`, which is optional on a habit, Some(None) is a
   * payload that sets it explicitly to `undefined`. For the required fields
   * an explicit `undefined` is not expressible.
   */
  datatype HabitPatch = HabitPatch(
    id: string,
    name: Option<string>,
    icon: Option<string>,
    goal: Option<string>,
    timeOfDay: Option<TimeOfDay>,
    repeatCycle: Option<RepeatCycle>,
    createdAt: Option<int>,
    streak: Option<int>,
    totalXP: Option<int>,
    lastCompleted: Option<Option<int>>,
    isCompleted: Option<bool>,
    growthStage: Option<int>)

  function Pick<T>(patch: Option<T>, current: T): T {
    if patch.Some? then patch.value else current
  }

  /** `{ ...habit, ...patch }` for a habit whose id is the patch's. */
  function ApplyPatch(habit: Habit, patch: HabitPatch): Habit {
    Habit(
      patch.id,
      Pick(patch.name, habit.name),
      Pick(patch.icon, habit.icon),
      Pick(patch.goal, habit.goal),
      Pick(patch.timeOfDay, habit.timeOfDay),
      Pick(patch.repeatCycle, habit.repeatCycle),
      Pick(patch.createdAt, habit.createdAt),
      Pick(patch.streak, habit.streak),
      Pick(patch.totalXP, habit.totalXP),
      Pick(patch.lastCompleted, habit.lastCompleted),
      Pick(patch.isCompleted, habit.isCompleted),
      Pick(patch.growthStage, habit.growthStage))
  }

  /** `habits.findIndex(h => h.id === id)`: the first index with that id, or -1. */
  function FindIndex(habits: seq<Habit>, id: string): (i: int)
    ensures -1 <= i < |habits|
    ensures i >= 0 ==> habits[i].id == id && forall j :: 0 <= j < i ==> habits[j].id != id
    ensures i == -1 <==> forall j :: 0 <= j < |habits| ==> habits[j].id != id
  {
    if habits == [] then -1
    else if habits[0].id == id then 0
    else
      var rest := FindIndex(habits[1..], id);
      if rest == -1 then -1 else rest + 1
  }

  /**
   * `habits.filter(h => h.id !== id)`: exactly the habits with another id
   * survive; a list without the id is unchanged and one holding nothing else
   * becomes empty. With WithoutIdAppend, the survivors keep their order.
   */
  function WithoutId(habits: seq<Habit>, id: string): (r: seq<Habit>)
    ensures forall h :: h in r <==> h in habits && h.id != id
    ensures (forall j :: 0 <= j < |habits| ==> habits[j].id != id) ==> r == habits
    ensures (forall j :: 0 <= j < |habits| ==> habits[j].id == id) ==> r == []
    ensures |r| <= |habits|
  {
    if habits == [] then []
    else
      assert forall j :: 1 <= j < |habits| ==> habits[1..][j - 1] == habits[j];
      (if habits[0].id != id then [habits[0]] else []) + WithoutId(habits[1..], id)
  }

  /** Filtering a concatenation filters each part, in order. */
  lemma {:induction false} WithoutIdAppend(a: seq<Habit>, b: seq<Habit>, id: string)
    ensures WithoutId(a + b, id) == WithoutId(a, id) + WithoutId(b, id)
  {
    if a == [] {
      assert a + b == b;
    } else {
      assert (a + b)[1..] == a[1..] + b;
      WithoutIdAppend(a[1..], b, id);
    }
  }

  /** What every reducer but updateHabit keeps true of every habit. */
  predicate HabitInvariant(habit: Habit) {
    habit.streak >= 0 && habit.totalXP >= 0 && 0 <= habit.growthStage <= 3
  }

  /** The stronger fact the same reducers keep: the stage is the one the streak reaches. */
  predicate StageMatchesStreak(habit: Habit) {
    habit.growthStage == StageForStreak(habit.streak)
  }

  /** Completing keeps the invariants of a habit. */
  lemma CompletedKeepsInvariants(habit: Habit, now: int)
    ensures HabitInvariant(habit) ==> HabitInvariant(Completed(habit, now))
    ensures HabitInvariant(habit) && StageMatchesStreak(habit) ==> StageMatchesStreak(Completed(habit, now))
  {
  }

  /** Un-completing right after completing restores streak and completion; the XP earned stays. */
  lemma UncompleteUndoesComplete(habit: Habit, now: int)
    requires HabitInvariant(habit) && !habit.isCompleted
    ensures var h := Uncompleted(Completed(habit, now));
      h.streak == habit.streak && h.isCompleted == habit.isCompleted
      && h.totalXP == habit.totalXP + CompletionXP(habit.streak + 1)
      && (StageMatchesStreak(habit) ==> h.growthStage == habit.growthStage)
  {
  }

  class HabitsState {
    var habits: seq<Habit>
    var dailyProgress: map<string, bool>

    /** Every habit satisfies HabitInvariant. */
    predicate Valid()
      reads this
    {
      forall i :: 0 <= i < |habits| ==> HabitInvariant(habits[i])
    }

    /** Every habit's stage is the one its streak reaches. */
    predicate StagesMatchStreaks()
      reads this
    {
      forall i :: 0 <= i < |habits| ==> StageMatchesStreak(habits[i])
    }

    /** `initialState`: no habits, no progress. */
    constructor ()
      ensures habits == [] && dailyProgress == map[]
      ensures Valid() && StagesMatchStreaks()
    {
      habits := [];
      dailyProgress := map[];
    }

    /** `addHabit`: appends a fresh habit with no progress; nothing else changes. */
    method AddHabit(payload: HabitDraft, id: string, createdAt: int)
      modifies this
      ensures habits == old(habits) + [NewHabit(payload, id, createdAt)]
      ensures dailyProgress == old(dailyProgress)
      ensures old(Valid()) ==> Valid()
      ensures old(StagesMatchStreaks()) ==> StagesMatchStreaks()
    {
      habits := habits + [NewHabit(payload, id, createdAt)];
    }

    /**
     * `completeHabit`: the first habit with the id, if it is not completed
     * yet, is completed and marked in the day's progress; otherwise nothing
     * changes.
     */
    method CompleteHabit(id: string, now: int)
      modifies this
      ensures var i := FindIndex(old(habits), id);
        if i >= 0 && !old(habits)[i].isCompleted then
          habits == old(habits)[i := Completed(old(habits)[i], now)]
          && dailyProgress == old(dailyProgress)[id := true]
        else
          habits == old(habits) && dailyProgress == old(dailyProgress)
      ensures old(Valid()) ==> Valid()
      ensures old(Valid()) && old(StagesMatchStreaks()) ==> StagesMatchStreaks()
    {
      var i := FindIndex(habits, id);
      if i >= 0 && !habits[i].isCompleted {
        CompletedKeepsInvariants(habits[i], now);
        habits := habits[i := Completed(habits[i], now)];
        dailyProgress := dailyProgress[id := true];
      }
    }

    /**
     * `uncompleteHabit`: the first habit with the id, if it is completed,
     * loses one day of streak (not below zero) and has its stage recomputed;
     * its XP is kept and the day's progress records false.
     */
    method UncompleteHabit(id: string)
      modifies this
      ensures var i := FindIndex(old(habits), id);
        if i >= 0 && old(habits)[i].isCompleted then
          habits == old(habits)[i := Uncompleted(old(habits)[i])]
          && dailyProgress == old(dailyProgress)[id := false]
        else
          habits == old(habits) && dailyProgress == old(dailyProgress)
      ensures old(Valid()) ==> Valid()
      ensures old(StagesMatchStreaks()) ==> StagesMatchStreaks()
    {
      var i := FindIndex(habits, id);
      if i >= 0 && habits[i].isCompleted {
        habits := habits[i := Uncompleted(habits[i])];
        dailyProgress := dailyProgress[id := false];
      }
    }

    /**
     * `resetDailyProgress`: every habit becomes not completed, habits missed
     * today lose their streak and stage, and the day's progress is cleared.
     */
    method ResetDailyProgress()
      modifies this
      ensures |habits| == |old(habits)|
      ensures forall i :: 0 <= i < |habits| ==> habits[i] == ResetForNewDay(old(habits)[i])
      ensures dailyProgress == map[]
      ensures old(Valid()) ==> Valid()
      ensures old(StagesMatchStreaks()) ==> StagesMatchStreaks()
    {
      var i := 0;
      while i < |habits|
        invariant 0 <= i <= |habits| == |old(habits)|
        invariant forall j :: 0 <= j < i ==> habits[j] == ResetForNewDay(old(habits)[j])
        invariant forall j :: i <= j < |habits| ==> habits[j] == old(habits)[j]
      {
        habits := habits[i := ResetForNewDay(habits[i])];
        i := i + 1;
      }
      dailyProgress := map[];
    }

    /** `deleteHabit`: drops every habit with the id, keeps the rest in order, forgets its progress. */
    method DeleteHabit(id: string)
      modifies this
      ensures habits == WithoutId(old(habits), id)
      ensures dailyProgress == old(dailyProgress) - {id}
      ensures old(Valid()) ==> Valid()
      ensures old(StagesMatchStreaks()) ==> StagesMatchStreaks()
    {
      habits := WithoutId(habits, id);
      dailyProgress := dailyProgress - {id};
    }

    /** `updateHabit`: overwrites the supplied fields of the first habit with the id; the progress map is untouched. */
    method UpdateHabit(patch: HabitPatch)
      modifies this
      ensures var i := FindIndex(old(habits), patch.id);
        if i >= 0 then habits == old(habits)[i := ApplyPatch(old(habits)[i], patch)]
        else habits == old(habits)
      ensures |habits| == |old(habits)| && forall k :: 0 <= k < |habits| ==> habits[k].id == old(habits)[k].id
      ensures dailyProgress == old(dailyProgress)
    {
      var index := FindIndex(habits, patch.id);
      if index != -1 {
        habits := habits[index := ApplyPatch(habits[index], patch)];
      }
    }
  }
}
