/**
 * The start-up settings read from `localStorage` (src/utils/AppUtils.ts) and
 * the theme toggle of the application shell (src/App.tsx). A stored value is
 * `Some(text)`, a missing key `None`; the browser queries (user agent, window
 * width, touch support, the colour-scheme media query) are parameters.
 */
module AppSettings {
  import opened Wrappers
  import opened Text

  datatype Theme = Light | Dark

  datatype ViewMode = EditorOnly | PreviewOnly | Both

  /** The text each theme is stored as. */
  function ThemeName(t: Theme): string {
    match t
    case Light => "light"
    case Dark => "dark"
  }

  /** The text each view mode is stored as. */
  function ViewModeName(m: ViewMode): string {
    match m
    case EditorOnly => "editor"
    case PreviewOnly => "preview"
    case Both => "both"
  }

  /** `String(b)`: the text a boolean setting is stored as. */
  function BoolName(b: bool): string {
    if b then "true" else "false"
  }

  // ---------------------------------------------------------------------------
  // isMobileDevice
  // ---------------------------------------------------------------------------

  /** The words of the user-agent pattern, matched case-insensitively anywhere in the string. */
  const MobileMarkers: seq<string> :=
    ["android", "webos", "iphone", "ipad", "ipod", "blackberry", "iemobile", "opera mini", "mobile", "tablet"]

  const MobileMaxWidth := 768

  /** The user agent names one of the mobile markers, in any ASCII letter case. */
  predicate LooksMobile(userAgent: string) {
    exists k | 0 <= k < |MobileMarkers| :: Contains(ToLower(userAgent), MobileMarkers[k])
  }

  /** `isMobileDevice()`: a mobile user agent, or a narrow window with touch events. */
  predicate IsMobileDevice(userAgent: string, innerWidth: int, hasTouch: bool) {
    LooksMobile(userAgent) || (innerWidth <= MobileMaxWidth && hasTouch)
  }

  /** An iPhone user agent is mobile whatever the window. */
  lemma IPhoneIsMobile(innerWidth: int, hasTouch: bool)
    ensures IsMobileDevice("iPhone", innerWidth, hasTouch)
  {
    var lower := ToLower("iPhone");
    assert lower == "iphone";
    assert OccursAt(lower, MobileMarkers[2], 0);
  }

  /**
   * A marker written in any letter case anywhere inside a longer user agent
   * makes the device mobile, whatever the window.
   */
  lemma MarkerAnywhere(before: string, marker: string, after: string, k: nat, innerWidth: int, hasTouch: bool)
    requires k < |MobileMarkers| && ToLower(marker) == MobileMarkers[k]
    ensures IsMobileDevice(before + marker + after, innerWidth, hasTouch)
  {
    var lower := ToLower(before + marker + after);
    ToLowerConcat(before + marker, after);
    ToLowerConcat(before, marker);
    assert lower == ToLower(before) + MobileMarkers[k] + ToLower(after);
    var i := |before|;
    assert lower[i..i + |MobileMarkers[k]|] == MobileMarkers[k];
    assert OccursAt(lower, MobileMarkers[k], i);
  }

  /**
   * For a user agent without a marker, the width bound is inclusive: a touch
   * window 768 wide is mobile, one 769 wide is not, and without touch no
   * width is.
   */
  lemma WidthBoundInclusive(userAgent: string, innerWidth: int)
    requires !LooksMobile(userAgent)
    ensures IsMobileDevice(userAgent, 768, true)
    ensures !IsMobileDevice(userAgent, 769, true)
    ensures !IsMobileDevice(userAgent, innerWidth, false)
  {
  }

  // ---------------------------------------------------------------------------
  // The initial values
  // ---------------------------------------------------------------------------

  /** `getInitialTheme()`: a stored `dark` or `light`, else the system preference. */
  function InitialTheme(stored: Option<string>, prefersDark: bool): (t: Theme)
    ensures t == Dark <==> stored == Some("dark") || (stored != Some("light") && prefersDark)
  {
    if stored == Some("dark") then Dark
    else if stored == Some("light") then Light
    else if prefersDark then Dark
    else Light
  }

  /** `getInitialViewMode()`: a stored mode, else preview on mobile devices and both panes elsewhere. */
  function InitialViewMode(stored: Option<string>, mobile: bool): (m: ViewMode)
    ensures stored.Some? && (stored.value == "editor" || stored.value == "preview" || stored.value == "both") ==>
              ViewModeName(m) == stored.value
    ensures !(stored.Some? && (stored.value == "editor" || stored.value == "preview" || stored.value == "both")) ==>
              m == (if mobile then PreviewOnly else Both)
  {
    if stored == Some("editor") then EditorOnly
    else if stored == Some("preview") then PreviewOnly
    else if stored == Some("both") then Both
    else if mobile then PreviewOnly
    else Both
  }

  /** `getInitialScrollLock()`: locked unless the stored text is exactly `false`. */
  function InitialScrollLock(stored: Option<string>): (locked: bool)
    ensures !locked <==> stored == Some("false")
  {
    !(stored == Some("false"))
  }

  /** A stored theme comes back whatever the system prefers. */
  lemma ThemeRoundTrip(t: Theme, prefersDark: bool)
    ensures InitialTheme(Some(ThemeName(t)), prefersDark) == t
  {
  }

  /** A stored view mode comes back on any device. */
  lemma ViewModeRoundTrip(m: ViewMode, mobile: bool)
    ensures InitialViewMode(Some(ViewModeName(m)), mobile) == m
  {
  }

  /** A stored scroll-lock flag comes back. */
  lemma ScrollLockRoundTrip(b: bool)
    ensures InitialScrollLock(Some(BoolName(b))) == b
  {
  }

  /** Text other than exactly `false` (`False`, `0`, the empty string) keeps the lock on. */
  lemma ScrollLockOnlyExactFalse()
    ensures InitialScrollLock(Some("False")) && InitialScrollLock(Some("0")) && InitialScrollLock(Some(""))
    ensures InitialScrollLock(None)
  {
  }

  /** Unknown stored text is ignored: `Dark` (capital D) counts as no stored theme. */
  lemma UnknownThemeIgnored(prefersDark: bool)
    ensures InitialTheme(Some("Dark"), prefersDark) == InitialTheme(None, prefersDark)
  {
  }

  // ---------------------------------------------------------------------------
  // The theme toggle
  // ---------------------------------------------------------------------------

  /** `toggleTheme`: dark becomes light and anything else becomes dark. */
  function Toggled(t: Theme): (r: Theme)
    ensures r != t
  {
    if t == Dark then Light else Dark
  }

  /** Toggling twice restores the theme. */
  lemma ToggleInvolution(t: Theme)
    ensures Toggled(Toggled(t)) == t
  {
  }

  /** The toggled theme, once stored by the shell, is the theme of the next start. */
  lemma ToggledThemePersists(t: Theme, prefersDark: bool)
    ensures InitialTheme(Some(ThemeName(Toggled(t))), prefersDark) == Toggled(t)
  {
    ThemeRoundTrip(Toggled(t), prefersDark);
  }
}
