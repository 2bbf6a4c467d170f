/**
 * The theme preference (src/context/ThemeContext.tsx): a stored choice of
 * light, dark or "follow the system", the dark-mode flag derived from it and
 * the device's colour scheme, the toggle, and acceptance of a saved value.
 */
module Theme {
  import opened Wrappers

  /** `ThemeType`: the user's choice. */
  datatype ThemeType = Light | Dark | System

  /** What `useColorScheme()` reports; it may report nothing. */
  datatype ColorScheme = SchemeLight | SchemeDark | NoScheme

  /** The string a choice is saved as. */
  function ThemeName(t: ThemeType): string
  {
    match t
    case Light => "light"
    case Dark => "dark"
    case System => "system"
  }

  /** Accepts a saved string only when it is exactly one of the three names. */
  function ParseThemeName(s: string): (r: Option<ThemeType>)
    ensures r.Some? ==> ThemeName(r.value) == s
  {
    if s == "light" then Some(Light)
    else if s == "dark" then Some(Dark)
    else if s == "system" then Some(System)
    else None
  }

  /** `isDarkMode`: dark chosen, or the system followed while it is dark. */
  predicate IsDarkMode(t: ThemeType, scheme: ColorScheme)
  {
    t == Dark || (t == System && scheme == SchemeDark)
  }

  /**
   * The `toggleTheme` updater: from `system` it switches to the opposite of
   * what the system shows; otherwise it flips light and dark.
   */
  function Toggled(prev: ThemeType, scheme: ColorScheme): (r: ThemeType)
    ensures r != System
    ensures IsDarkMode(r, scheme) == !IsDarkMode(prev, scheme)
  {
    if prev == System then (if scheme == SchemeDark then Light else Dark)
    else if prev == Dark then Light
    else Dark
  }

  /**
   * The load effect: a saved value replaces the current choice only when it
   * is present and one of the three names.
   */
  function AfterLoad(current: ThemeType, saved: Option<string>): ThemeType
  {
    if saved.Some? && saved.value != "" && ParseThemeName(saved.value).Some? then ParseThemeName(saved.value).value
    else current
  }

  /** Every choice is saved under a name that reads back as the same choice. */
  lemma ThemeNameRoundTrip(t: ThemeType)
    ensures ParseThemeName(ThemeName(t)) == Some(t)
  {
  }

  /** Toggling twice from an explicit light or dark choice restores it. */
  lemma ToggleTwice(t: ThemeType, scheme: ColorScheme)
    requires t != System
    ensures Toggled(Toggled(t, scheme), scheme) == t
  {
  }

  /** Toggling twice from `system` settles on what the system showed, as an explicit choice. */
  lemma ToggleTwiceFromSystem(scheme: ColorScheme)
    ensures Toggled(Toggled(System, scheme), scheme) == (if scheme == SchemeDark then Dark else Light)
    ensures IsDarkMode(Toggled(Toggled(System, scheme), scheme), scheme) == IsDarkMode(System, scheme)
  {
  }

  /** A missing value or an unknown string leaves the choice; a valid name sets it. */
  lemma AfterLoadAccepts(current: ThemeType, saved: Option<string>)
    ensures saved.None? ==> AfterLoad(current, saved) == current
    ensures forall t :: saved == Some(ThemeName(t)) ==> AfterLoad(current, saved) == t
    ensures AfterLoad(current, saved) != current ==> saved == Some(ThemeName(AfterLoad(current, saved)))
  {
  }

  /** The `themeType` state of the theme provider. */
  class ThemePreference {
    var themeType: ThemeType

    /** The initial state is `system`. */
    constructor()
      ensures themeType == System
    {
      themeType := System;
    }

    function DarkMode(scheme: ColorScheme): bool
      reads this
    {
      IsDarkMode(themeType, scheme)
    }

    /** `toggleTheme()`. */
    method Toggle(scheme: ColorScheme)
      modifies this
      ensures themeType == Toggled(old(themeType), scheme)
      ensures themeType != System
      ensures DarkMode(scheme) == !old(DarkMode(scheme))
    {
      themeType := Toggled(themeType, scheme);
    }

    /** `setThemeType(t)`, exposed to the settings screen. */
    method SetThemeType(t: ThemeType)
      modifies this
      ensures themeType == t
    {
      themeType := t;
    }

    /** The load effect, given what storage returned. */
    method LoadSaved(saved: Option<string>)
      modifies this
      ensures themeType == AfterLoad(old(themeType), saved)
    {
      if saved.Some? && saved.value != "" {
        var parsed := ParseThemeName(saved.value);
        if parsed.Some? {
          themeType := parsed.value;
        }
      }
    }
  }
}
