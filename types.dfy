/** The records of the app: local habits, their shareable projection, the QR envelope, users and pets. */
module Types {
  import opened Wrappers

  datatype TimeOfDay = Morning | Afternoon | Evening | Anytime
  datatype RepeatCycle = Daily | Weekly

  /** A habit as stored on the device; dates are epoch milliseconds. */
  datatype Habit = Habit(
    id: string,
    name: string,
    icon: string,
    goal: string,
    timeOfDay: TimeOfDay,
    repeatCycle: RepeatCycle,
    createdAt: int,
    streak: int,
    totalXP: int,
    lastCompleted: Option<int>,
    isCompleted: bool,
    growthStage: int)  // 0 seed, 1 sprout, 2 growing, 3 mature

  /** The shareable part of a habit: no identity, dates, streak, XP or completion state. */
  datatype HabitData = HabitData(
    name: string,
    icon: string,
    goal: string,
    timeOfDay: TimeOfDay,
    repeatCycle: RepeatCycle)

  /** The fields a caller supplies to create a habit (a Habit without id, dates and progress). */
  datatype HabitDraft = HabitDraft(
    name: string,
    icon: string,
    goal: string,
    timeOfDay: TimeOfDay,
    repeatCycle: RepeatCycle)

  datatype ShareType = HabitType | CollectionType

  /** The payload of a QR envelope: one habit or a named collection of habits. */
  datatype ShareData =
    | HabitShareData(habit: HabitData, version: string)
    | CollectionShareData(name: string, description: Option<string>, habits: seq<HabitData>, version: string)
  {
    function Type(): ShareType {
      if HabitShareData? then HabitType else CollectionType
    }
  }

  /** The envelope a QR code carries. */
  datatype QRCodeData = QRCodeData(
    app: string,
    version: string,
    shareType: ShareType,
    timestamp: int,
    data: ShareData)

  datatype BiomeType = Forest | Desert | Snowy | Ocean | Nether | End
  datatype PetType = Creeper | Pig | Chicken | Wolf

  datatype Pet = Pet(
    name: string,
    petType: PetType,
    happiness: int,       // 0-100
    evolutionStage: int,  // 0 baby, 1 teen, 2 adult
    lastFed: int)

  datatype User = User(
    id: string,
    username: string,
    totalXP: int,
    level: int,
    currentBiome: BiomeType,
    unlockedBiomes: seq<BiomeType>,
    pet: Pet,
    joinedAt: int)
}

/** The numeric game constants. */
module Biomes {
  const XP_PER_HABIT: int := 10
  /** `Math.floor(XP_PER_HABIT * 1.5)`, the streak-bonus multiplier applied exactly. */
  const STREAK_BONUS_XP: int := (XP_PER_HABIT * 3) / 2
  const LEVEL_XP_REQUIREMENT: int := 100
}
