/** The theme store: four settings, each flipped or assigned in place. */
module ThemeSlice {
  import opened Types

  class ThemeState {
    var isDarkMode: bool
    var currentBiome: BiomeType
    var soundEnabled: bool
    var notificationsEnabled: bool

    /** `initialState`: light mode, the forest, sound and notifications on. */
    constructor ()
      ensures !isDarkMode && currentBiome == Forest && soundEnabled && notificationsEnabled
    {
      isDarkMode := false;
      currentBiome := Forest;
      soundEnabled := true;
      notificationsEnabled := true;
    }

    /** `toggleDarkMode`: flips dark mode and nothing else. */
    method ToggleDarkMode()
      modifies this
      ensures isDarkMode == !old(isDarkMode)
      ensures currentBiome == old(currentBiome) && soundEnabled == old(soundEnabled)
      ensures notificationsEnabled == old(notificationsEnabled)
    {
      isDarkMode := !isDarkMode;
    }

    /** `setBiome`: any biome, unlocked or not; nothing else changes. */
    method SetBiome(biome: BiomeType)
      modifies this
      ensures currentBiome == biome
      ensures isDarkMode == old(isDarkMode) && soundEnabled == old(soundEnabled)
      ensures notificationsEnabled == old(notificationsEnabled)
    {
      currentBiome := biome;
    }

    /** `toggleSound`: flips sound and nothing else. */
    method ToggleSound()
      modifies this
      ensures soundEnabled == !old(soundEnabled)
      ensures isDarkMode == old(isDarkMode) && currentBiome == old(currentBiome)
      ensures notificationsEnabled == old(notificationsEnabled)
    {
      soundEnabled := !soundEnabled;
    }

    /** `toggleNotifications`: flips notifications and nothing else. */
    method ToggleNotifications()
      modifies this
      ensures notificationsEnabled == !old(notificationsEnabled)
      ensures isDarkMode == old(isDarkMode) && currentBiome == old(currentBiome)
      ensures soundEnabled == old(soundEnabled)
    {
      notificationsEnabled := !notificationsEnabled;
    }

    /** Each toggle applied twice leaves the whole theme as it was. */
    method ToggleTwiceRestores()
      modifies this
      ensures isDarkMode == old(isDarkMode) && currentBiome == old(currentBiome)
      ensures soundEnabled == old(soundEnabled) && notificationsEnabled == old(notificationsEnabled)
    {
      ToggleDarkMode();
      ToggleDarkMode();
      ToggleSound();
      ToggleSound();
      ToggleNotifications();
      ToggleNotifications();
    }
  }
}
