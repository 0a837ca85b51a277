/**
 * The theme preference: `initializeTheme`, `toggleTheme` and `updateThemeIcons`.
 * The stored value lives under the storage key `theme`; the applied theme is the
 * `dark` class on the root element; sun and moon icons are hidden accordingly.
 */
module Theme {
  import opened Wrappers
  import Notifications

  const DarkName: string := "dark"
  const LightName: string := "light"

  /**
   * `stored` is the value under the storage key (None when absent), `dark` is the
   * root element's `dark` class, and the two flags are the icons' `hidden` classes.
   */
  datatype ThemeState = ThemeState(stored: Option<string>, dark: bool, sunHidden: bool, moonHidden: bool)

  /** Sun icons are hidden exactly in the dark theme, moon icons exactly in the light one. */
  predicate IconsMatch(s: ThemeState) {
    s.sunHidden == s.dark && s.moonHidden == !s.dark
  }

  /** `localStorage.getItem('theme') || 'light'`: absence and the empty string both fall back. */
  function SavedTheme(stored: Option<string>): (name: string)
    ensures name == DarkName <==> stored == Some(DarkName)
    ensures stored.None? ==> name == LightName
  {
    if stored.None? || stored.value == "" then LightName else stored.value
  }

  /** `updateThemeIcons(isDark)`: both icon sets are set, whatever they were. */
  function UpdateThemeIcons(s: ThemeState, isDark: bool): (r: ThemeState)
    ensures r.stored == s.stored && r.dark == s.dark
    ensures r.dark == isDark ==> IconsMatch(r)
  {
    s.(sunHidden := isDark, moonHidden := !isDark)
  }

  /** The name a theme is stored under. */
  function NameOf(dark: bool): string {
    if dark then DarkName else LightName
  }

  /** Load time: the dark theme exactly when the stored value is `"dark"`. */
  function Initialize(stored: Option<string>): (s: ThemeState)
    ensures s.stored == stored
    ensures s.dark <==> stored == Some(DarkName)
    ensures IconsMatch(s)
  {
    var dark := SavedTheme(stored) == DarkName;
    UpdateThemeIcons(ThemeState(stored, dark, false, false), dark)
  }

  /**
   * `toggleTheme`: flips the applied theme (read from the root element, not from
   * storage), stores the new theme's name, updates the icons and asks for one
   * success notification naming the new theme.
   */
  function Toggle(s: ThemeState): (r: (ThemeState, Notifications.Notice))
    ensures r.0.dark == !s.dark
    ensures r.0.stored == Some(NameOf(r.0.dark))
    ensures IconsMatch(r.0)
    ensures r.1.kind == "success"
    ensures r.1.message == if r.0.dark then "Dark theme activated" else "Light theme activated"
  {
    if s.dark then
      (UpdateThemeIcons(s.(dark := false, stored := Some(LightName)), false),
       Notifications.Notice("Light theme activated", "success"))
    else
      (UpdateThemeIcons(s.(dark := true, stored := Some(DarkName)), true),
       Notifications.Notice("Dark theme activated", "success"))
  }

  /** Two toggles restore the applied theme and its icons. */
  lemma ToggleTwiceRestores(s: ThemeState)
    requires IconsMatch(s)
    ensures var r := Toggle(Toggle(s).0).0;
      r.dark == s.dark && r.sunHidden == s.sunHidden && r.moonHidden == s.moonHidden
    ensures Toggle(Toggle(s).0).0.stored == Some(NameOf(s.dark))
  {
  }

  /** A reload after a toggle reproduces the toggled state, icons included. */
  lemma ReloadAfterToggle(s: ThemeState)
    ensures Initialize(Toggle(s).0.stored) == Toggle(s).0
  {
  }

  /** Saving a theme and loading it back applies that theme. */
  lemma StoredThemeRoundTrip(dark: bool)
    ensures Initialize(Some(NameOf(dark))).dark == dark
    ensures Initialize(Some(NameOf(dark))) == Initialize(Toggle(Initialize(Some(NameOf(!dark)))).0.stored)
  {
  }

  /** Anything but exactly `"dark"` loads the light theme. */
  lemma OtherValuesLoadLight(stored: Option<string>)
    requires stored != Some(DarkName)
    ensures !Initialize(stored).dark && !Initialize(stored).sunHidden && Initialize(stored).moonHidden
  {
  }
}
