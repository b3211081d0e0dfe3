/**
 * The two fixed colour tables, the choice between them, the toggle
 * control's label, and how a table is spread over the window's elements.
 */
module Themes {

  /** One colour table: seven entries. */
  datatype Theme = Theme(
    bg: string,
    frameBg: string,
    titleFg: string,
    timeFg: string,
    subFg: string,
    buttonBg: string,
    buttonFg: string)

  const LightTheme: Theme := Theme("#93C5FD", "#19B0A8", "#A7F3D0", "#FBBF24", "#93C5FD", "#0C7489", "#E0F2FE")
  const DarkTheme: Theme := Theme("#1E2939", "#0F172A", "#94A3B8", "#F59E0B", "#64748B", "#334155", "#CBD5E1")

  /** The colour the time label takes once the target is reached. */
  const ReachedFg: string := "#340399"

  const DarkLabel: string := "\U{1F319} Light Mode"
  const LightLabel: string := "\U{1F4A1} Dark Mode"

  /** The table in force for a dark-mode flag. */
  function ThemeFor(isDark: bool): Theme {
    if isDark then DarkTheme else LightTheme
  }

  /** The toggle control's label: it offers the mode that is not in force. */
  function ButtonLabel(isDark: bool): string {
    if isDark then DarkLabel else LightLabel
  }

  /** The dark table and the label offering light mode are in force exactly
      when the flag is set, so the flag can be read off either of them. */
  lemma ModeDeterminesLook(isDark: bool)
    ensures ThemeFor(isDark) == DarkTheme <==> isDark
    ensures ButtonLabel(isDark) == DarkLabel <==> isDark
    ensures ThemeFor(isDark) == LightTheme <==> !isDark
    ensures ButtonLabel(isDark) == LightLabel <==> !isDark
  {
  }

  /** The colours currently on screen, element by element. */
  datatype Palette = Palette(
    windowBg: string,
    frameBg: string,
    titleFg: string,
    titleBg: string,
    timeFg: string,
    timeBg: string,
    subFg: string,
    subBg: string,
    buttonBg: string,
    buttonFg: string)

  /** How a table is applied: the window takes the table's background, the
      frame and every label the panel background, each label its own
      foreground, the button its two colours. */
  function Painted(t: Theme): Palette {
    Palette(t.bg, t.frameBg, t.titleFg, t.frameBg, t.timeFg, t.frameBg, t.subFg, t.frameBg, t.buttonBg, t.buttonFg)
  }

  /** The colours on screen are those of the table for the flag, except
      that the time label may show the reached colour. */
  predicate Themed(isDark: bool, p: Palette) {
    var t := ThemeFor(isDark);
    && (p.timeFg == t.timeFg || p.timeFg == ReachedFg)
    && p == Painted(t).(timeFg := p.timeFg)
  }

  /** Two palettes themed for the same flag differ at most in the time
      label's colour. */
  lemma ThemedAgree(isDark: bool, p: Palette, q: Palette)
    requires Themed(isDark, p) && Themed(isDark, q)
    ensures p.(timeFg := q.timeFg) == q
  {
  }

  /** Painting determines the table it was painted from. */
  lemma PaintedInjective(a: bool, b: bool)
    ensures Painted(ThemeFor(a)) == Painted(ThemeFor(b)) <==> a == b
  {
  }

  /** The two tables differ in every entry, so a change of mode repaints
      every element; only the time label may keep its colour, when it shows
      the reached colour in both modes. */
  lemma ModeChangeRepaints(isDark: bool, p: Palette, q: Palette)
    requires Themed(isDark, p) && Themed(!isDark, q)
    ensures && p.windowBg != q.windowBg && p.frameBg != q.frameBg
            && p.titleFg != q.titleFg && p.titleBg != q.titleBg
            && p.timeBg != q.timeBg && p.subFg != q.subFg && p.subBg != q.subBg
            && p.buttonBg != q.buttonBg && p.buttonFg != q.buttonFg
    ensures p.timeFg == q.timeFg ==> p.timeFg == ReachedFg
  {
  }
}
