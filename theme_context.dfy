/**
 * The theme provider: a 'light'/'dark' switch that starts from the device's
 * colour scheme, and the palette each theme name selects.
 */
module ThemeContext {
  import opened Wrappers

  datatype Palette = Palette(
    background: string,
    color: string,
    header: string,
    noteBackground: string,
    noteText: string)

  const LightPalette := Palette("#F5F5F5", "#333", "#FFF", "#FFF", "#333")
  const DarkPalette := Palette("#121212", "#E0E0E0", "#333", "#1F1F1F", "#E0E0E0")

  /** The `themes` table: exactly the two theme names, each with its palette. */
  function Themes(): (m: map<string, Palette>)
    ensures m.Keys == {"light", "dark"}
    ensures m["light"] == LightPalette && m["dark"] == DarkPalette
  {
    map["light" := LightPalette, "dark" := DarkPalette]
  }

  /**
   * `themes[theme]`: a palette for the two known names, `undefined` for any
   * other. The table is a map here, not an object, so names the JavaScript
   * object inherits (`"constructor"`, `"toString"`) find nothing; the device
   * only ever reports 'light', 'dark' or nothing, for which the two agree.
   */
  function StylesFor(theme: string): (p: Option<Palette>)
    ensures p.Some? <==> theme == "light" || theme == "dark"
    ensures theme == "light" ==> p == Some(LightPalette)
    ensures theme == "dark" ==> p == Some(DarkPalette)
  {
    var themes := Themes();
    if theme in themes then Some(themes[theme]) else None
  }

  /** `Appearance.getColorScheme() || 'light'`: the device's scheme, unless it reports none. */
  function InitialTheme(deviceScheme: Option<string>): (t: string)
    ensures deviceScheme.None? || deviceScheme == Some("") ==> t == "light"
    ensures deviceScheme.Some? && deviceScheme.value != "" ==> t == deviceScheme.value
  {
    match deviceScheme
    case Some(scheme) => if scheme != "" then scheme else "light"
    case None => "light"
  }

  /** The toggle: 'light' becomes 'dark', anything else becomes 'light'. */
  function Toggled(theme: string): (t: string)
    ensures t == "dark" <==> theme == "light"
    ensures t == "light" <==> theme != "light"
  {
    if theme == "light" then "dark" else "light"
  }

  /** Toggling twice from either known theme gets back to it. */
  lemma ToggleTwice(theme: string)
    requires theme == "light" || theme == "dark"
    ensures Toggled(Toggled(theme)) == theme
  {
  }

  /** After a toggle the theme always names a palette, whatever the device reported at start. */
  lemma ToggledHasStyles(theme: string)
    ensures StylesFor(Toggled(theme)).Some?
    ensures StylesFor(Toggled(theme)).value == if theme == "light" then DarkPalette else LightPalette
  {
  }

  class ThemeProvider {
    var theme: string

    constructor (deviceScheme: Option<string>)
      ensures theme == InitialTheme(deviceScheme)
    {
      theme := InitialTheme(deviceScheme);
    }

    method ToggleTheme()
      modifies this
      ensures theme == Toggled(old(theme))
      ensures theme == "light" || theme == "dark"
    {
      theme := Toggled(theme);
    }

    /** `useThemeStyles()`: the palette for the current theme, if it names one. */
    function Styles(): (p: Option<Palette>)
      reads this
      ensures p.Some? <==> theme == "light" || theme == "dark"
      ensures theme == "light" ==> p == Some(LightPalette)
      ensures theme == "dark" ==> p == Some(DarkPalette)
    {
      StylesFor(theme)
    }
  }
}
