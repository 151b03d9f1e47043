# BlockHabits core in Dafny

BlockHabits is a habit-tracking app. Users share habits, or whole
collections of habits, with each other through QR codes. This project
models its core:

- **Sharing.** `HabitConverter` projects a private `Habit` onto the
  shareable `HabitData` and back. It builds the versioned QR envelope
  (`QRCodeData`) for one habit or a collection. It also names a variant
  when an imported habit's name is already taken, finds name conflicts,
  and compares habits.
- **Validation.** `QRValidation` checks untrusted data scanned from a QR
  code. It decides whether a parsed value is a well-formed envelope,
  checks version compatibility and size limits, and sanitises habit data.
  `ValidateQRCode` is the end-to-end gate that reports a
  `QRValidationError`.
- **State.** The three Redux slices become classes:
  - `HabitsSlice.HabitsState` holds the habit list and the daily-progress
    map;
  - `UserSlice.UserState` holds the optional user, with XP, levels,
    unlocked biomes and the pet;
  - `ThemeSlice.ThemeState` holds the display settings.

  Each reducer is a method whose `ensures` give the complete new state.
  The per-habit and per-user edits are pure step functions (`Completed`,
  `Uncompleted`, `ResetForNewDay`, `WithXP`), and lemmas prove the
  invariants those edits keep.

Untrusted input is a `Json.JsonValue`:

- JavaScript truthiness (`Json.Truthy`) and `typeof … === 'object'`
  (`Json.IsObjectLike`) are written out.
- `JSON.parse` and `JSON.stringify` are a `Json.JsonCodec` parameter. That
  they invert each other is only ever a hypothesis (`Json.RoundTrips`).
- Clock reads (`Date.now()`, `new Date()`) become parameters (`now`,
  `createdAt`), and so do the ids derived from them.

Three details of the code that the model keeps exactly:

- `haveSimilarGoals` counts the common words longer than 3 characters.
- `sanitizeHabitData` substitutes the default `timeOfDay` and
  `repeatCycle` whenever the field is falsy (absent, empty or null).
- `validateQRCodeData` requires the timestamp to be a truthy number, so
  a timestamp of 0 is rejected.

The envelope builders do not check what they wrap. `createHabitQRData`
and `createCollectionQRData` can produce envelopes that
`validateQRCodeData` rejects: a habit with a blank name, icon or goal, a
collection with a blank name or no habits, or a clock reading of 0.
`HabitQRDataIsAccepted` and `CollectionQRDataIsAccepted` state exactly
when the built envelope is accepted.

Files:

| file | module | contents |
|---|---|---|
| `wrappers.dfy` | `Wrappers` | `Option` |
| `text.dfy` | `Text` | JavaScript whitespace, `trim`, ASCII `toLowerCase`, `\w`, `split(/\s+/)`, decimal rendering |
| `json.dfy` | `Json` | untrusted JSON values, property lookup, truthiness, `String()` coercion, the codec |
| `types.dfy` | `Types`, `Biomes` | the records of `src/types/index.ts` and the XP constants |
| `qr_validation.dfy` | `QRValidation` | validators, typed narrowing, encoders, sanitiser, `ValidateQRCode` |
| `habit_converter.dfy` | `HabitConverter` | projection, envelope builders, variant names, conflicts, similarity |
| `habits_slice.dfy` | `HabitsSlice` | habit reducers |
| `user_slice.dfy` | `UserSlice` | user reducers |
| `theme_slice.dfy` | `ThemeSlice` | theme reducers |
| `habit_converter_tests.dfy`, `qr_validation_tests.dfy` | `…Tests` | the unit tests' examples, stated as lemmas |

## Model

| member | source | states |
|---|---|---|
| HabitConverter.ShareableHabitIgnoresPrivateFields | src/utils/habitConverter.ts:11-19 | `toShareableHabit`: two habits share the same shareable form exactly when their five shareable fields agree; id, dates, streak, XP and growth never leak into it |
| HabitConverter.FromShareableAfterToShareable | src/utils/habitConverter.ts:75-83 | `fromShareableHabit`: converting a habit to shareable form and back returns exactly its draft (the fields an `addHabit` payload carries) |
| HabitConverter.ToShareableHabits | src/utils/habitConverter.ts:24-26 | the result has the input's length, and each element is the projection of the habit at the same index |
| HabitConverter.FromShareableHabits | src/utils/habitConverter.ts:88-90 | the result has the input's length, and each element is the draft of the item at the same index |
| HabitConverter.CreateHabitQRData | src/utils/habitConverter.ts:31-45 | the envelope has app `blockhabits`, version `1.0` outside and inside, type habit outside and inside, the given timestamp, and the habit's shareable projection |
| HabitConverter.CreateCollectionQRData | src/utils/habitConverter.ts:50-70 | the collection envelope has app `blockhabits`, version `1.0`, type collection, the trimmed name, the trimmed description when there is one (absent otherwise), and the projected habits |
| HabitConverter.HabitQRDataIsAccepted | src/utils/habitConverter.ts:31-45 | once serialised to JSON, a single-habit envelope passes `validateQRCodeData` if and only if the clock reading is non-zero and the habit's name, icon and goal are non-blank |
| HabitConverter.CollectionQRDataIsAccepted | src/utils/habitConverter.ts:50-70 | once serialised, a collection envelope passes `validateQRCodeData` if and only if the clock reading is non-zero, the trimmed name is non-empty, the list is non-empty and every habit's name, icon and goal are non-blank |
| HabitConverter.SharedHabitScansBack | src/utils/habitConverter.ts:157-159 | `createQRCodeString`: for a codec that round-trips, a valid habit and a non-zero clock, the QR string built for the habit is accepted by `validateQRCode` when it fits 2048 UTF-16 code units, and parses back to the same envelope |
| HabitConverter.SharedCollectionScansBack | src/utils/habitConverter.ts:157-159 | for a codec that round-trips, the QR string built for a collection is accepted when the collection has a non-blank name, 1 to 10 valid habits and fits 2048 UTF-16 code units |
| HabitConverter.VariantNameInjective | src/utils/habitConverter.ts:97 | distinct counters give distinct candidate names `name (n)` |
| HabitConverter.DistinctAtMostLength | src/utils/habitConverter.ts:99 | a list of names holds at most as many distinct names as its length, which bounds the search loop |
| HabitConverter.GenerateVariantName | src/utils/habitConverter.ts:95-105 | the returned name is not among the existing names; it is `name (n)` for the least such n, and n is at most one more than the number of existing names |
| HabitConverter.DetectNameConflicts | src/utils/habitConverter.ts:110-121 | `detectNameConflicts`: the loop returns exactly `NameConflicts`: the incoming names, in order, that match an existing name case-insensitively |
| HabitConverter.NameConflictsAppend | src/utils/habitConverter.ts:114-118 | the conflicts of a concatenation are the conflicts of each part, concatenated |
| HabitConverter.NameConflictsMembership | src/utils/habitConverter.ts:110-121 | `NameConflicts`, the specification of `detectNameConflicts`: a name is reported if and only if an incoming habit with that name collides case-insensitively with an existing habit |
| HabitConverter.NoCollisionsNoConflicts | src/utils/habitConverter.ts:110-121 | when no incoming name collides, the result is empty |
| HabitConverter.IdenticalToOwnProjection | src/utils/habitConverter.ts:126-133 | `areHabitsIdentical`: every habit is identical to its own shareable projection |
| HabitConverter.IdenticalIsNameConflict | src/utils/habitConverter.ts:126-133 | an incoming habit identical to an existing one is always reported as a name conflict |
| HabitConverter.CommonWordsMembership | src/utils/habitConverter.ts:146-148 | a word is common exactly when it occurs in the first goal, is longer than 3 characters and occurs in the second goal |
| HabitConverter.SimilarGoalsShareLongWord | src/utils/habitConverter.ts:138-151 | `haveSimilarGoals`: goals judged similar always share at least one normalised word longer than 3 characters |
| HabitConverterTests.VariantNameSkipsTakenCandidates | src/utils/__tests__/habitConverter.test.ts:96-100 | with `Exercise`, `Exercise (1)` and `Exercise (3)` taken, the only name meeting `GenerateVariantName`'s contract is `Exercise (2)` |
| HabitConverterTests.FirstVariantIsOne | src/utils/__tests__/habitConverter.test.ts:102-106 | with only `Exercise` taken, the variant is `Exercise (1)` |
| HabitConverterTests.VariantNameExamples | src/utils/__tests__/habitConverter.test.ts:95-107 | running the method on both test inputs gives `Exercise (2)` and `Exercise (1)` |
| HabitConverterTests.NameConflictExample | src/utils/__tests__/habitConverter.test.ts:110-121 | with `Morning Exercise` existing, incoming `Morning Exercise` and `New Habit` give exactly `["Morning Exercise"]` |
| HabitConverterTests.DifferentGoalNotIdentical | src/utils/__tests__/habitConverter.test.ts:130-134 | changing only the goal makes the habits not identical |
| QRValidation.TimeOfDayName | src/utils/qrValidation.ts:120 | every time-of-day spelling is one of the four accepted ones |
| QRValidation.RepeatCycleName | src/utils/qrValidation.ts:126 | every repeat-cycle spelling is one of the two accepted ones |
| QRValidation.ParseTimeOfDay | src/utils/qrValidation.ts:120-123 | a string parses exactly when it is an accepted spelling; parsing inverts `TimeOfDayName` in both directions |
| QRValidation.ParseRepeatCycle | src/utils/qrValidation.ts:126-129 | a string parses exactly when it is an accepted spelling; parsing inverts `RepeatCycleName` in both directions |
| QRValidation.AsHabitData | src/utils/qrValidation.ts:106-132 | a value passing `validateHabitData` yields a shareable habit whose every field is the value's corresponding property |
| QRValidation.AsShareData | src/utils/qrValidation.ts:51-101 | a value passing either share-data validator yields well-formed share data of the matching kind, with its version, name and habits read from the value; a collection's description is the value's `description` when that is a string, and absent otherwise |
| QRValidation.AsQRCodeData | src/utils/qrValidation.ts:12-46 | a value passing `validateQRCodeData` yields a well-formed envelope with the value's version, type, timestamp and payload |
| QRValidation.ValidateHabitDataUnrolled | src/utils/qrValidation.ts:106-132 | `validateHabitData`: the validator accepts exactly objects whose name, icon and goal are non-blank strings and whose timeOfDay and repeatCycle are accepted spellings |
| QRValidation.HabitDataJsonRoundTrip | src/utils/qrValidation.ts:106-132 | serialised habit data passes `validateHabitData` if and only if its strings are non-blank, and then reads back unchanged |
| QRValidation.ShareDataJsonRoundTrip | src/utils/qrValidation.ts:51-101 | serialised share data passes the matching validator if and only if it is well formed, and then reads back unchanged |
| QRValidation.QRCodeDataJsonRoundTrip | src/utils/qrValidation.ts:12-46 | `validateQRCodeData`: a serialised envelope passes `validateQRCodeData` if and only if it is well formed, and then reads back unchanged |
| QRValidation.AcceptedEnvelopeTypesAgree | src/utils/qrValidation.ts:39-43 | in an accepted envelope, the payload's `type` equals the envelope's `type` |
| QRValidation.AcceptedHabitShareData | src/utils/qrValidation.ts:51-69 | `validateHabitShareData`: accepted data has type `habit`, a non-empty string version and a habit that passes `validateHabitData`; it never also passes the collection validator |
| QRValidation.AcceptedCollectionShareData | src/utils/qrValidation.ts:74-101 | `validateCollectionShareData`: accepted data has type `collection`, a non-blank string name, a string description when one is given, and a non-empty array of habits that each pass `validateHabitData`; it never also passes the habit validator |
| QRValidation.DataSizeLimits | src/utils/qrValidation.ts:159-176 | `validateDataSize`: a habit envelope fits exactly when its text is at most 2048 long; a collection envelope exactly when, in addition, it holds at most 10 habits |
| QRValidation.SanitizeHabitData | src/utils/qrValidation.ts:137-145 | the result has exactly the five shareable keys; name, icon and goal are the trimmed string forms of the input's properties (empty when falsy); timeOfDay and repeatCycle are copied when truthy and default to `anytime` and `daily` otherwise |
| QRValidation.SanitizeIdempotent | src/utils/qrValidation.ts:137-145 | sanitising twice gives the same as sanitising once |
| QRValidation.SanitizePreservesValid | src/utils/qrValidation.ts:137-145 | sanitising valid habit data keeps it valid, trims its strings and keeps its enums |
| QRValidation.ValidateQRCode | src/utils/qrValidation.ts:198-234 | the result is valid exactly when it has no error. The three failures are checked in order, each with an if-and-only-if condition and its message: INVALID_FORMAT when the text does not parse to an accepted envelope ("QR code could not be parsed" when parsing fails, "QR code format is not valid" when the parsed value is rejected); then INCOMPATIBLE_VERSION when the version is not `1.0` ("This QR code was created with an incompatible version"); then DATA_TOO_LARGE when the re-serialised envelope exceeds 2048 UTF-16 code units or a collection holds more than 10 habits ("QR code contains too much data") |
| QRValidation.ValidateQRCodeAccepts | src/utils/qrValidation.ts:198-226 | a QR string is accepted if and only if it parses to a valid envelope, has version `1.0` and is within the size limits (`isCompatibleVersion`, `validateDataSize`) |
| QRValidation.UnparsableIsInvalidFormat | src/utils/qrValidation.ts:227-233 | text that does not parse gives INVALID_FORMAT with the message "QR code could not be parsed" |
| QRValidation.OtherVersionIsIncompatible | src/utils/qrValidation.ts:150-154 | `isCompatibleVersion`: a well-formed envelope with any version other than `1.0` gives INCOMPATIBLE_VERSION |
| QRValidationTests.NonBlankLiteral | src/utils/qrValidation.ts:114 | a string starting with a non-space character is not blank after trimming |
| QRValidationTests.ValidHabitExample | src/utils/__tests__/qrValidation.test.ts:36-39 | the test's habit object is accepted |
| QRValidationTests.EmptyNameExample | src/utils/__tests__/qrValidation.test.ts:40-44 | the same object with an empty name is rejected |
| QRValidationTests.InvalidTimeOfDayExample | src/utils/__tests__/qrValidation.test.ts:45-49 | the same object with timeOfDay `invalid` is rejected |
| QRValidationTests.InvalidRepeatCycleExample | src/utils/__tests__/qrValidation.test.ts:50-54 | the same object with repeatCycle `invalid` is rejected |
| QRValidationTests.MalformedTextExample | src/utils/__tests__/qrValidation.test.ts:120-124 | text that does not parse is invalid, with INVALID_FORMAT |
| QRValidationTests.TrimUnpadded | src/utils/qrValidation.ts:139-141 | trimming a string with no space at either end leaves it unchanged |
| QRValidationTests.TrimPaddedName | src/utils/__tests__/qrValidation.test.ts:138 | `"  Morning Exercise  "` trims to `"Morning Exercise"` |
| QRValidationTests.TrimPaddedGoal | src/utils/__tests__/qrValidation.test.ts:140 | `"  Run for 30 minutes  "` trims to `"Run for 30 minutes"` |
| QRValidationTests.SanitizeStrings | src/utils/qrValidation.ts:137-145 | for an object whose five shareable fields are strings with non-empty enums, the sanitised object is exactly the trimmed name, icon and goal and the two enums |
| QRValidationTests.SanitizeExample | src/utils/__tests__/qrValidation.test.ts:136-160 | sanitising the test's dirty object (padded name and goal, the runner emoji icon, id, streak and totalXP) gives exactly the object the test expects: trimmed name and goal, the icon and enums kept, no `id`, `streak` or `totalXP` |
| Json.Get | src/utils/qrValidation.ts:18 | a property is present exactly when the value is an object holding that key |
| Json.StringOrEmpty | src/utils/qrValidation.ts:139-141 | `String(x \|\| '')` gives the string itself for a string, and the empty string for a falsy value |
| Text.TrimStart | src/utils/qrValidation.ts:87 | trimming the start never lengthens a string |
| Text.TrimStartShape | src/utils/qrValidation.ts:87 | the start-trimmed string is a suffix of the input that does not begin with whitespace, and every character removed is whitespace; leading whitespace shortens it |
| Text.TrimEnd | src/utils/qrValidation.ts:87 | trimming the end never lengthens a string |
| Text.TrimEndShape | src/utils/qrValidation.ts:87 | the end-trimmed string is a prefix of the input that does not end with whitespace, and every character removed is whitespace |
| Text.TrimStartPadding | src/utils/qrValidation.ts:139-141 | whitespace put in front of a string makes no difference to trimming its start |
| Text.TrimEndPadding | src/utils/qrValidation.ts:139-141 | whitespace put after a string makes no difference to trimming its end |
| Text.TrimPadded | src/utils/qrValidation.ts:139-141 | a text that starts and ends with non-whitespace, padded on both sides with whitespace, trims back to that text |
| Text.TrimIdempotent | src/utils/habitConverter.ts:57 | trimming twice is trimming once |
| Text.TrimEmptyIffAllSpace | src/utils/qrValidation.ts:87 | `s.trim().length === 0` holds exactly when every character is whitespace |
| Text.TrimEndKeepsNonSpaceHead | src/utils/qrValidation.ts:114 | a string starting with a non-space character stays non-empty after trimming its end |
| Text.ToLower | src/utils/habitConverter.ts:111 | lower-casing keeps the length, leaves no upper-case letter, and keeps every character that is not an upper-case letter |
| Text.ToLowerIdempotent | src/utils/habitConverter.ts:111 | lower-casing twice is lower-casing once |
| Text.KeepWordAndSpace | src/utils/habitConverter.ts:139-140 | `replace(/[^\w\s]/g, '')`: the result holds only word and whitespace characters and is no longer than the input; a string of kept characters is unchanged and a string with none becomes empty |
| Text.KeepWordAndSpaceAppend | src/utils/habitConverter.ts:139-140 | the filter distributes over concatenation, so it keeps the kept characters in their order |
| Text.FirstSpace | src/utils/habitConverter.ts:143 | the index of the first whitespace character, or the length when there is none |
| Text.SplitOnSpaces | src/utils/habitConverter.ts:143-144 | `split(/\s+/)` returns at least one piece, and no piece contains whitespace |
| Text.SplitOnSpacesRebuilds | src/utils/habitConverter.ts:143-144 | the pieces are separated by the maximal whitespace runs: joined back with non-empty all-whitespace separators they rebuild the input, and every piece but the first and last is non-empty |
| Text.NatToString | src/utils/habitConverter.ts:97 | the decimal rendering of a counter is non-empty and made of digits |
| Text.NatToStringInjective | src/utils/habitConverter.ts:97 | distinct counters render differently |
| Text.Utf16Length | src/utils/qrValidation.ts:163 | `String.length` counts UTF-16 code units: a character outside the Basic Multilingual Plane counts twice, so the length lies between the number of characters and twice that, and equals it for text inside the plane |
| HabitsSlice.StageForStreak | src/store/slices/habitsSlice.ts:60-63 | the growth stage is 0 exactly below a streak of 7, 1 exactly from 7 to 13, 2 exactly from 14 to 20, and 3 exactly from 21 |
| HabitsSlice.CompletionXP | src/store/slices/habitsSlice.ts:39-42 | a completion earns 10 XP, or `floor(10 * 1.5) = 15` exactly when the new streak exceeds 7 |
| HabitsSlice.Completed | src/store/slices/habitsSlice.ts:34-47 | completing marks the habit done, stamps it, adds one to the streak and the streak's XP. It moves the stage only from a streak of 7 up, and leaves every other field alone |
| HabitsSlice.Uncompleted | src/store/slices/habitsSlice.ts:55-63 | un-completing clears the flag, lowers the streak by one but not below 0, and recomputes the stage |
| HabitsSlice.ResetForNewDay | src/store/slices/habitsSlice.ts:70-77 | after the reset no habit is completed; a habit that was not completed loses its streak and stage; a completed one keeps them |
| HabitsSlice.FindIndex | src/store/slices/habitsSlice.ts:87 | `findIndex`: the first index with the id, or -1 exactly when none has it |
| HabitsSlice.WithoutId | src/store/slices/habitsSlice.ts:82 | `filter`: the survivors are exactly the habits with another id; with no habit of that id the list is unchanged, and with only such habits it is empty |
| HabitsSlice.WithoutIdAppend | src/store/slices/habitsSlice.ts:82 | the filter distributes over concatenation, so survivors keep their order |
| HabitsSlice.CompletedKeepsInvariants | src/store/slices/habitsSlice.ts:32-51 | completing keeps streak, XP and stage in range, and keeps the stage in step with the streak |
| HabitsSlice.UncompleteUndoesComplete | src/store/slices/habitsSlice.ts:53-67 | un-completing right after completing restores the flag and the streak (the XP earned is kept) |
| HabitsSlice.HabitsState.constructor | src/store/slices/habitsSlice.ts:10-13 | the initial state has no habits and no progress |
| HabitsSlice.HabitsState.AddHabit | src/store/slices/habitsSlice.ts:19-30 | appends a fresh habit (zero streak and XP, not completed, stage 0) and keeps the state valid |
| HabitsSlice.HabitsState.CompleteHabit | src/store/slices/habitsSlice.ts:32-51 | completes the first habit with the id when it is not yet completed and records its progress as true; otherwise nothing changes |
| HabitsSlice.HabitsState.UncompleteHabit | src/store/slices/habitsSlice.ts:53-67 | un-completes the first habit with the id when it is completed and records its progress as false; otherwise nothing changes |
| HabitsSlice.HabitsState.ResetDailyProgress | src/store/slices/habitsSlice.ts:69-79 | the loop applies the daily reset to every habit and clears the progress map |
| HabitsSlice.HabitsState.DeleteHabit | src/store/slices/habitsSlice.ts:81-84 | removes every habit with the id and its progress entry |
| HabitsSlice.HabitsState.UpdateHabit | src/store/slices/habitsSlice.ts:86-91 | merges the patch into the first habit with the id; with no such habit nothing changes; the length and every habit's id stay the same. A patch that sets `lastCompleted` to `undefined` explicitly clears it |
| UserSlice.UnlockIfReachedSteps | src/store/slices/userSlice.ts:49-51 | one unlock check only appends, adds at most the biome it checks and only when the level reaches it, and never duplicates a biome |
| UserSlice.UnlockEachAppendsInOrder | src/store/slices/userSlice.ts:48-62 | checking biomes of increasing unlock level in turn only appends, appends exactly the missing reached ones, never duplicates, and appends them by increasing unlock level |
| UserSlice.UnlockBiomes | src/store/slices/userSlice.ts:48-63 | unlocking only appends; the result holds exactly the old biomes and those whose level is reached; it never duplicates a biome; the new biomes come in the order desert, snowy, ocean, nether, end (increasing unlock level) |
| UserSlice.UnlockBiomesSteps | src/store/slices/userSlice.ts:49-61 | `UnlockBiomes` is the five single-biome checks applied one after the other, desert first and end last |
| UserSlice.ClampHappiness | src/store/slices/userSlice.ts:76 | happiness is clamped into 0..100: unchanged when already inside, 0 below and 100 above |
| UserSlice.NewUser | src/store/slices/userSlice.ts:19-37 | a new user satisfies the user invariant: level at least 1 and at least the level of its XP, the current biome unlocked, no biome listed twice, every biome of its level unlocked, happiness in 0..100 and evolution stage in 0..2 |
| UserSlice.WithXP | src/store/slices/userSlice.ts:39-63 | adding XP adds to the total. The level rises to `floor(total / 100) + 1` when that is higher and never drops. On a level-up the biomes become `UnlockBiomes` of the old list and the new level; otherwise they stay as they were. Nothing else changes |
| UserSlice.WithXPKeepsInvariant | src/store/slices/userSlice.ts:39-63 | adding XP never lowers the level, never loses a biome, and keeps the user invariant |
| UserSlice.WithXPTracksLevel | src/store/slices/userSlice.ts:44 | for non-negative gains from a consistent user, the level is exactly the level of the new total |
| UserSlice.UserState.constructor | src/store/slices/userSlice.ts:10-13 | initially there is no user and onboarding is not done |
| UserSlice.UserState.CreateUser | src/store/slices/userSlice.ts:19-37 | sets the new user and marks onboarding done |
| UserSlice.UserState.AddXP | src/store/slices/userSlice.ts:39-63 | applies `WithXP` to the user when there is one; otherwise nothing changes |
| UserSlice.UserState.PushReachedBiomes | src/store/slices/userSlice.ts:48-63 | the five conditional pushes give exactly `UnlockBiomes` of the old list and the new level |
| UserSlice.UserState.ChangeBiome | src/store/slices/userSlice.ts:66-72 | switches the current biome only to an unlocked one; otherwise nothing changes |
| UserSlice.UserState.UpdatePetHappiness | src/store/slices/userSlice.ts:74-83 | sets the clamped happiness and feeding time. The pet evolves one stage, capped at 2, when happiness is at least 80 and the level at least 10 |
| UserSlice.UserState.DecreasePetHappiness | src/store/slices/userSlice.ts:85-90 | lowers happiness by 10, not below 0 |
| UserSlice.UserState.ResetOnboarding | src/store/slices/userSlice.ts:92-95 | forgets the user and the onboarding flag |
| ThemeSlice.ThemeState.constructor | src/store/slices/themeSlice.ts:11-16 | light mode, the forest biome, sound and notifications on |
| ThemeSlice.ThemeState.ToggleDarkMode | src/store/slices/themeSlice.ts:22-24 | flips dark mode and nothing else |
| ThemeSlice.ThemeState.SetBiome | src/store/slices/themeSlice.ts:25-27 | sets the biome and nothing else |
| ThemeSlice.ThemeState.ToggleSound | src/store/slices/themeSlice.ts:28-30 | flips sound and nothing else |
| ThemeSlice.ThemeState.ToggleNotifications | src/store/slices/themeSlice.ts:31-33 | flips notifications and nothing else |
| ThemeSlice.ThemeState.ToggleTwiceRestores | src/store/slices/themeSlice.ts:22-33 | each toggle is its own inverse: toggling everything twice restores the state |

## Left out

- JSON text: `JSON.parse` and `JSON.stringify` are a codec parameter. Their round trip is a hypothesis of the lemmas that need it, not a proved fact. `parseQRCodeString` (src/utils/habitConverter.ts:164-166) is the codec's `parse` itself.
- Numbers are unbounded integers. Fractions, NaN and Infinity are not modelled, so `typeof x === 'number'` means "is an integer".
- Text.ToLower: lower-cases ASCII letters only; JavaScript's full Unicode case mapping is not modelled. `\w` is likewise the ASCII word class.
- Text.IntToString / Text.NatToString: render decimal integers only, which is all the variant-name counter needs.
- Clocks: `Date.now()` and `new Date()` are parameters, and the ids `addHabit` and `createUser` derive from them are parameters as well. Dates are integer timestamps in milliseconds since the epoch, as in the test habits.
- QRValidation.SanitizeHabitData: requires a non-null input. In JavaScript, reading a property of `null` throws, and that exception is not modelled.
- QRValidation.ValidateDataSize takes the length of the serialised text as a parameter instead of computing `JSON.stringify` itself.
- INVALID_APP, INVALID_HABIT_DATA and INVALID_COLLECTION_DATA are declared, but `validateQRCode` never produces them. The model declares them and proves they never occur.
- HabitsSlice.HabitsState.UpdateHabit: does not promise to keep the state valid. A patch may set any streak, XP or stage, exactly as the reducer allows.
- HabitsSlice.HabitsState.UpdateHabit: a patch that sets a required field (name, streak and so on) explicitly to `undefined` is not modelled. `Partial<Habit>` admits it and the spread would store `undefined` in the habit; only `lastCompleted`, which is optional, can be cleared. No code in this model calls `updateHabit`.
- Duplicate ids: `addHabit` derives the id from `Date.now().toString()`, so two habits added within one millisecond share an id. The id is a parameter of `AddHabit`, and the model does not rule such a clash out. `updateHabit` keeps every id, as `UpdateHabit` states.
- HabitsSlice.HabitsState.AddHabit: the payload (`HabitDraft`) carries no `lastCompleted`; the new habit always starts without one. The source's payload type allows an optional `lastCompleted`, which `addHabit` would copy; the only payloads built in this core (`fromShareableHabit`) never set it.
- Redux plumbing, the store, navigation, screens and components are not part of this model. Neither is the conflict-resolution UI that uses the conflict and similarity checks.
- Aliasing: the slices are classes with `seq` and `map` fields that the methods reassign. Immer's draft proxies and object identity are not modelled.
