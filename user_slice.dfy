/**
 * The user store: the player, their level and biomes, and their pet,
 * updated in place by the reducers. Clock readings are parameters.
 */
module UserSlice {
  import opened Wrappers
  import opened Types
  import Biomes

  /** The level a total XP gives: one more than the whole hundreds (floor division). */
  function LevelForXP(totalXP: int): int {
    totalXP / Biomes.LEVEL_XP_REQUIREMENT + 1
  }

  /** The level at which a biome unlocks; the starting biome needs none. */
  function UnlockLevel(biome: BiomeType): Option<int> {
    match biome
    case Forest => None
    case Desert => Some(5)
    case Snowy => Some(10)
    case Ocean => Some(15)
    case Nether => Some(25)
    case End => Some(50)
  }

  /** The level reaches the biome's unlock level. */
  predicate UnlockedAtLevel(biome: BiomeType, level: int) {
    UnlockLevel(biome).Some? && level >= UnlockLevel(biome).value
  }

  predicate NoDuplicates(biomes: seq<BiomeType>) {
    forall i, j :: 0 <= i < j < |biomes| ==> biomes[i] != biomes[j]
  }

  /** `if (level >= min && !list.includes(biome)) list.push(biome)`. */
  function UnlockIfReached(unlocked: seq<BiomeType>, biome: BiomeType, level: int): seq<BiomeType>
    requires UnlockLevel(biome).Some?
  {
    if UnlockedAtLevel(biome, level) && biome !in unlocked then unlocked + [biome] else unlocked
  }

  /** One unlock step only appends, adds at most the biome it checks, and never duplicates. */
  lemma UnlockIfReachedSteps(unlocked: seq<BiomeType>, biome: BiomeType, level: int)
    requires UnlockLevel(biome).Some?
    ensures |unlocked| <= |UnlockIfReached(unlocked, biome, level)|
    ensures UnlockIfReached(unlocked, biome, level)[..|unlocked|] == unlocked
    ensures forall b :: b in UnlockIfReached(unlocked, biome, level) <==> b in unlocked || (b == biome && UnlockedAtLevel(biome, level))
    ensures NoDuplicates(unlocked) ==> NoDuplicates(UnlockIfReached(unlocked, biome, level))
  {
  }

  lemma PrefixOfPrefix(a: seq<BiomeType>, b: seq<BiomeType>, c: seq<BiomeType>)
    requires |a| <= |b| <= |c| && b[..|a|] == a && c[..|b|] == b
    ensures c[..|a|] == a
  {
    assert c[..|a|] == c[..|b|][..|a|];
  }

  /** The biomes `addXP` checks, in the order it checks them. */
  const UnlockOrder: seq<BiomeType> := [Desert, Snowy, Ocean, Nether, End]

  /** Biomes that each have an unlock level, listed by strictly increasing level. */
  predicate Ascending(order: seq<BiomeType>) {
    (forall k :: 0 <= k < |order| ==> UnlockLevel(order[k]).Some?)
    && forall i, j :: 0 <= i < j < |order| ==> UnlockLevel(order[i]).value < UnlockLevel(order[j]).value
  }

  /** The biomes appended after `unlocked` come in increasing order of unlock level. */
  predicate AppendedInOrder(unlocked: seq<BiomeType>, r: seq<BiomeType>) {
    |unlocked| <= |r|
    && forall i, j :: |unlocked| <= i < j < |r| ==>
      UnlockLevel(r[i]).Some? && UnlockLevel(r[j]).Some? && UnlockLevel(r[i]).value < UnlockLevel(r[j]).value
  }

  /** The unlock check applied for each biome of `order` in turn. */
  function UnlockEach(unlocked: seq<BiomeType>, order: seq<BiomeType>, level: int): seq<BiomeType>
    requires forall k :: 0 <= k < |order| ==> UnlockLevel(order[k]).Some?
    decreases |order|
  {
    if order == [] then unlocked
    else UnlockEach(UnlockIfReached(unlocked, order[0], level), order[1..], level)
  }

  /**
   * Checking the biomes of an ascending order in turn only appends, appends
   * exactly the reached biomes of the order that were missing, never
   * duplicates, and appends them in the order's order.
   */
  lemma {:induction false} UnlockEachAppendsInOrder(unlocked: seq<BiomeType>, order: seq<BiomeType>, level: int)
    requires Ascending(order)
    ensures var r := UnlockEach(unlocked, order, level);
      |unlocked| <= |r| && r[..|unlocked|] == unlocked
      && (forall b :: b in r <==> b in unlocked || (b in order && UnlockedAtLevel(b, level)))
      && (NoDuplicates(unlocked) ==> NoDuplicates(r))
      && (forall i :: |unlocked| <= i < |r| ==> r[i] in order)
      && AppendedInOrder(unlocked, r)
    decreases |order|
  {
    if order != [] {
      var b, tail := order[0], order[1..];
      assert order == [b] + tail;
      var u1 := UnlockIfReached(unlocked, b, level);
      UnlockIfReachedSteps(unlocked, b, level);
      assert Ascending(tail) by {
        assert forall k :: 0 <= k < |tail| ==> tail[k] == order[k + 1];
      }
      assert forall x :: x in tail ==> UnlockLevel(b).value < UnlockLevel(x).value by {
        assert forall k :: 0 <= k < |tail| ==> tail[k] == order[k + 1];
      }
      UnlockEachAppendsInOrder(u1, tail, level);
      var r := UnlockEach(u1, tail, level);
      PrefixOfPrefix(unlocked, u1, r);
      assert |u1| <= |unlocked| + 1;
      assert forall i :: |unlocked| <= i < |u1| ==> r[i] == b by {
        forall i | |unlocked| <= i < |u1|
          ensures r[i] == b
        {
          assert u1 == unlocked + [b];
          assert r[i] == r[..|u1|][i];
        }
      }
      forall i, j | |unlocked| <= i < j < |r|
        ensures UnlockLevel(r[i]).Some? && UnlockLevel(r[j]).Some? && UnlockLevel(r[i]).value < UnlockLevel(r[j]).value
      {
        if i >= |u1| {
          assert AppendedInOrder(u1, r);
        } else {
          assert r[j] in tail;
        }
      }
    }
  }

  /** Every biome with an unlock level is one `addXP` checks. */
  lemma UnlockableIsInOrder(b: BiomeType)
    ensures UnlockLevel(b).Some? <==> b in UnlockOrder
  {
    match b
    case Forest =>
    case Desert => assert UnlockOrder[0] == b;
    case Snowy => assert UnlockOrder[1] == b;
    case Ocean => assert UnlockOrder[2] == b;
    case Nether => assert UnlockOrder[3] == b;
    case End => assert UnlockOrder[4] == b;
  }

  /** The unlocked biomes after reaching `level`: desert, snowy, ocean, nether and end, in that order, each once. */
  function UnlockBiomes(unlocked: seq<BiomeType>, level: int): (r: seq<BiomeType>)
    ensures |unlocked| <= |r| && r[..|unlocked|] == unlocked
    ensures forall b :: b in r <==> b in unlocked || UnlockedAtLevel(b, level)
    ensures NoDuplicates(unlocked) ==> NoDuplicates(r)
    ensures forall i, j :: |unlocked| <= i < j < |r| ==>
      UnlockLevel(r[i]).Some? && UnlockLevel(r[j]).Some? && UnlockLevel(r[i]).value < UnlockLevel(r[j]).value
  {
    UnlockEachAppendsInOrder(unlocked, UnlockOrder, level);
    forall b | UnlockedAtLevel(b, level)
      ensures b in UnlockOrder
    {
      UnlockableIsInOrder(b);
    }
    UnlockEach(unlocked, UnlockOrder, level)
  }

  /** Unfolded, UnlockBiomes is the five checks of `addXP` one after the other. */
  lemma UnlockBiomesSteps(unlocked: seq<BiomeType>, level: int)
    ensures UnlockBiomes(unlocked, level) ==
      UnlockIfReached(UnlockIfReached(UnlockIfReached(UnlockIfReached(UnlockIfReached(
        unlocked, Desert, level), Snowy, level), Ocean, level), Nether, level), End, level)
  {
    var r1 := UnlockIfReached(unlocked, Desert, level);
    var r2 := UnlockIfReached(r1, Snowy, level);
    var r3 := UnlockIfReached(r2, Ocean, level);
    var r4 := UnlockIfReached(r3, Nether, level);
    assert UnlockOrder[1..] == [Snowy, Ocean, Nether, End];
    assert [Snowy, Ocean, Nether, End][1..] == [Ocean, Nether, End];
    assert [Ocean, Nether, End][1..] == [Nether, End];
    assert [Nether, End][1..] == [End];
    assert [End][1..] == [];
    assert UnlockEach(unlocked, UnlockOrder, level) == UnlockEach(r1, [Snowy, Ocean, Nether, End], level);
    assert UnlockEach(r1, [Snowy, Ocean, Nether, End], level) == UnlockEach(r2, [Ocean, Nether, End], level);
    assert UnlockEach(r2, [Ocean, Nether, End], level) == UnlockEach(r3, [Nether, End], level);
    assert UnlockEach(r3, [Nether, End], level) == UnlockEach(r4, [End], level);
  }

  /** Every biome the level reaches is unlocked. */
  predicate UnlockedUpTo(unlocked: seq<BiomeType>, level: int) {
    forall b :: UnlockedAtLevel(b, level) ==> b in unlocked
  }

  /** What the reducers keep true of a user. */
  predicate UserInvariant(user: User) {
    user.level >= 1
    && user.level >= LevelForXP(user.totalXP)
    && user.currentBiome in user.unlockedBiomes
    && NoDuplicates(user.unlockedBiomes)
    && UnlockedUpTo(user.unlockedBiomes, user.level)
    && 0 <= user.pet.happiness <= 100
    && 0 <= user.pet.evolutionStage <= 2
  }

  /** `Math.max(0, Math.min(100, x))`. */
  function ClampHappiness(x: int): (h: int)
    ensures 0 <= h <= 100
    ensures 0 <= x <= 100 ==> h == x
    ensures x < 0 ==> h == 0
    ensures x > 100 ==> h == 100
  {
    if x < 0 then 0 else if x > 100 then 100 else x
  }

  /** The new user `createUser` builds: level 1, only the chosen biome, a happy baby pig. */
  function NewUser(id: string, username: string, biome: BiomeType, now: int): (u: User)
    ensures UserInvariant(u)
  {
    User(id, username, 0, 1, biome, [biome], Pet("Blocky", Pig, 100, 0, now), now)
  }

  /** What `addXP` does to a user: more XP, and on reaching a higher level, that level and its biomes. */
  function WithXP(user: User, amount: int): (u: User)
    ensures u.totalXP == user.totalXP + amount
    ensures u.level == if LevelForXP(u.totalXP) > user.level then LevelForXP(u.totalXP) else user.level
    ensures u.unlockedBiomes == if u.level > user.level then UnlockBiomes(user.unlockedBiomes, u.level) else user.unlockedBiomes
    ensures u == user.(totalXP := u.totalXP, level := u.level, unlockedBiomes := u.unlockedBiomes)
  {
    var totalXP := user.totalXP + amount;
    var newLevel := LevelForXP(totalXP);
    if newLevel > user.level
    then user.(totalXP := totalXP, level := newLevel, unlockedBiomes := UnlockBiomes(user.unlockedBiomes, newLevel))
    else user.(totalXP := totalXP)
  }

  /**
   * Adding XP keeps the user invariant: the level never falls, every biome
   * the level reaches is unlocked, none twice, and the current biome stays
   * unlocked.
   */
  lemma WithXPKeepsInvariant(user: User, amount: int)
    ensures WithXP(user, amount).level >= user.level
    ensures forall b :: b in user.unlockedBiomes ==> b in WithXP(user, amount).unlockedBiomes
    ensures UserInvariant(user) ==> UserInvariant(WithXP(user, amount))
  {
    var u := WithXP(user, amount);
    if UserInvariant(user) && LevelForXP(u.totalXP) > user.level {
      assert UnlockedUpTo(u.unlockedBiomes, u.level);
    }
  }

  /** With XP that is never negative, the level stays exactly the one the total XP gives. */
  lemma WithXPTracksLevel(user: User, amount: int)
    requires amount >= 0 && user.level == LevelForXP(user.totalXP)
    ensures WithXP(user, amount).level == LevelForXP(user.totalXP + amount)
  {
  }

  class UserState {
    var user: Option<User>
    var isOnboarded: bool

    /** A user exists exactly when onboarding is done, and it satisfies the user invariant. */
    predicate Valid()
      reads this
    {
      (user.Some? <==> isOnboarded) && (user.Some? ==> UserInvariant(user.value))
    }

    /** `initialState`: no user, not onboarded. */
    constructor ()
      ensures user == None && !isOnboarded && Valid()
    {
      user := None;
      isOnboarded := false;
    }

    /** `createUser`: a fresh user with the chosen biome; onboarding is done. */
    method CreateUser(id: string, username: string, biome: BiomeType, now: int)
      modifies this
      ensures user == Some(NewUser(id, username, biome, now))
      ensures isOnboarded
      ensures Valid()
    {
      user := Some(NewUser(id, username, biome, now));
      isOnboarded := true;
    }

    /**
     * `addXP`: adds to the total; when the level the new total gives is
     * higher, the level rises to it and the biomes it reaches are unlocked.
     * Without a user nothing changes.
     */
    method AddXP(amount: int)
      modifies this
      ensures isOnboarded == old(isOnboarded)
      ensures old(user).None? ==> user == old(user)
      ensures old(user).Some? ==> user == Some(WithXP(old(user).value, amount))
      ensures old(Valid()) ==> Valid()
    {
      if user.Some? {
        var u := user.value;
        var totalXP := u.totalXP + amount;
        var newLevel := LevelForXP(totalXP);
        var level := u.level;
        var biomes := u.unlockedBiomes;
        if newLevel > level {
          level := newLevel;
          biomes := PushReachedBiomes(biomes, newLevel);
        }
        var updated := u.(totalXP := totalXP, level := level, unlockedBiomes := biomes);
        assert updated == WithXP(u, amount);
        WithXPKeepsInvariant(u, amount);
        user := Some(updated);
      }
    }

    /** The five `push`es of `addXP`, each when the level reaches the biome and it is not yet listed. */
    static method PushReachedBiomes(unlocked: seq<BiomeType>, newLevel: int) returns (biomes: seq<BiomeType>)
      ensures biomes == UnlockBiomes(unlocked, newLevel)
    {
      biomes := unlocked;
      if newLevel >= 5 && Desert !in biomes {
        biomes := biomes + [Desert];
      }
      assert biomes == UnlockIfReached(unlocked, Desert, newLevel);
      ghost var beforeSnowy := biomes;
      if newLevel >= 10 && Snowy !in biomes {
        biomes := biomes + [Snowy];
      }
      assert biomes == UnlockIfReached(beforeSnowy, Snowy, newLevel);
      ghost var beforeOcean := biomes;
      if newLevel >= 15 && Ocean !in biomes {
        biomes := biomes + [Ocean];
      }
      assert biomes == UnlockIfReached(beforeOcean, Ocean, newLevel);
      ghost var beforeNether := biomes;
      if newLevel >= 25 && Nether !in biomes {
        biomes := biomes + [Nether];
      }
      assert biomes == UnlockIfReached(beforeNether, Nether, newLevel);
      ghost var beforeEnd := biomes;
      if newLevel >= 50 && End !in biomes {
        biomes := biomes + [End];
      }
      assert biomes == UnlockIfReached(beforeEnd, End, newLevel);
      UnlockBiomesSteps(unlocked, newLevel);
    }

    /** `changeBiome`: switches to the biome only if it is unlocked. */
    method ChangeBiome(biome: BiomeType)
      modifies this
      ensures isOnboarded == old(isOnboarded)
      ensures if old(user).Some? && biome in old(user).value.unlockedBiomes
              then user == Some(old(user).value.(currentBiome := biome))
              else user == old(user)
      ensures user.Some? ==> user.value.currentBiome == old(user).value.currentBiome || user.value.currentBiome in user.value.unlockedBiomes
      ensures old(Valid()) ==> Valid()
    {
      if user.Some? && biome in user.value.unlockedBiomes {
        user := Some(user.value.(currentBiome := biome));
      }
    }

    /**
     * `updatePetHappiness`: stores the value clamped to 0..100 and the feeding
     * time; a happy pet (80 or more) of a user at level 10 or more evolves
     * one stage, up to stage 2.
     */
    method UpdatePetHappiness(amount: int, now: int)
      modifies this
      ensures isOnboarded == old(isOnboarded)
      ensures old(user).None? ==> user == old(user)
      ensures old(user).Some? ==>
        var u := old(user).value;
        var happiness := ClampHappiness(amount);
        var stage := if happiness >= 80 && u.level >= 10
                     then (if u.pet.evolutionStage + 1 < 2 then u.pet.evolutionStage + 1 else 2)
                     else u.pet.evolutionStage;
        user == Some(u.(pet := u.pet.(happiness := happiness, lastFed := now, evolutionStage := stage)))
      ensures old(Valid()) ==> Valid()
    {
      if user.Some? {
        var u := user.value;
        var pet := u.pet.(happiness := ClampHappiness(amount), lastFed := now);
        if pet.happiness >= 80 && u.level >= 10 {
          pet := pet.(evolutionStage := if pet.evolutionStage + 1 < 2 then pet.evolutionStage + 1 else 2);
        }
        user := Some(u.(pet := pet));
      }
    }

    /** `decreasePetHappiness`: ten points less, not below zero. */
    method DecreasePetHappiness()
      modifies this
      ensures isOnboarded == old(isOnboarded)
      ensures old(user).None? ==> user == old(user)
      ensures old(user).Some? ==>
        var u := old(user).value;
        user == Some(u.(pet := u.pet.(happiness := if u.pet.happiness - 10 > 0 then u.pet.happiness - 10 else 0)))
      ensures old(Valid()) ==> Valid()
    {
      if user.Some? {
        var u := user.value;
        user := Some(u.(pet := u.pet.(happiness := if u.pet.happiness - 10 > 0 then u.pet.happiness - 10 else 0)));
      }
    }

    /** `resetOnboarding`: forgets the user. */
    method ResetOnboarding()
      modifies this
      ensures user == None && !isOnboarded
      ensures Valid()
    {
      isOnboarded := false;
      user := None;
    }
  }
}
