/**
 * The countdown widget: a window whose elements are repainted in place.
 * Each field below is a piece of state the widget changes: the dark-mode
 * flag, the colours of every element, the three texts that change, the
 * drag offset, the window position and the preference file.
 *
 * The outside world enters as parameters: the remaining time of a tick (in
 * microseconds), the pointer coordinates of a drag, the file found at start
 * and how a write of the file ends.
 */
module Widget {
  import opened Wrappers
  import opened Countdown
  import opened Themes
  import opened Preferences

  datatype Point = Point(x: int, y: int)

  /** Where the window is first placed on the screen. */
  const InitialPosition: Point := Point(40, 40)
  /** The time label's text before the first tick. */
  const PlaceholderText: string := "--d --:--:--"
  /** The small status line's text at start. */
  const HintText: string := "(Right-click to exit | Press 'D' for dark mode)"
  /** The status line's text once the target is reached. */
  const CongratulationsText: string := "Congratulations!"

  class CountdownWidget {
    var isDark: bool
    /** The colour of every element on screen. */
    var colours: Palette
    var timeText: string
    var subText: string
    var buttonText: string
    /** The coordinates of the last press of the primary button, relative
        to the widget pressed; none until the first press. */
    var dragOffset: Option<Point>
    var position: Point
    /** The preference file as it stands on disk. */
    var configFile: ConfigFile

    /** The object invariant: every element shows the table of the current
        mode, except that the time label may show the reached colour, and
        the toggle control's label matches the mode. */
    predicate Valid()
      reads this
    {
      Themed(isDark, colours) && buttonText == ButtonLabel(isDark)
    }

    /** The file on disk would start the widget in its current mode. */
    predicate PreferenceInSync()
      reads this
    {
      StartsDark(configFile) == isDark
    }

    /** Start-up: the mode comes from the preference file, every element is
        painted from that mode's table, the window sits at its initial
        position, and a first tick renders the time. */
    constructor (file: ConfigFile, remainingUs: int)
      ensures Valid() && PreferenceInSync()
      ensures isDark == StartsDark(file) && configFile == file
      ensures position == InitialPosition && dragOffset == None
      ensures timeText == CountdownText(remainingUs)
      ensures subText == if remainingUs <= 0 then CongratulationsText else HintText
      ensures colours.timeFg == if remainingUs <= 0 then ReachedFg else ThemeFor(isDark).timeFg
    {
      var dark := StartsDark(file);
      isDark := dark;
      colours := Painted(ThemeFor(dark));
      timeText := PlaceholderText;
      subText := HintText;
      buttonText := ButtonLabel(dark);
      dragOffset := None;
      position := InitialPosition;
      configFile := file;
      new;
      UpdateCountdown(remainingUs);
    }

    /** One tick. When nothing remains the time label shows the reached text
        in the reached colour and the status line congratulates; otherwise
        only the time label's text changes, to the counting text, so an
        earlier congratulation and colour stay. */
    method UpdateCountdown(remainingUs: int)
      modifies this`timeText, this`subText, this`colours
      ensures timeText == CountdownText(remainingUs)
      ensures subText == if remainingUs <= 0 then CongratulationsText else old(subText)
      ensures colours == if remainingUs <= 0 then old(colours).(timeFg := ReachedFg) else old(colours)
      ensures old(Valid()) ==> Valid()
    {
      if remainingUs <= 0 {
        timeText, colours := ReachedText, colours.(timeFg := ReachedFg);
        subText := CongratulationsText;
      } else {
        var total := WholeSeconds(remainingUs);
        timeText := CountingText(total);
      }
    }

    /** Writes the record holding the current flag; a failure is ignored. */
    method SavePreferences(outcome: WriteOutcome)
      modifies this`configFile
      ensures configFile == AfterSave(old(configFile), isDark, outcome)
      ensures outcome == Written ==> PreferenceInSync()
    {
      configFile := AfterSave(configFile, isDark, outcome);
      SaveLoadRoundTrip(old(configFile), isDark);
    }

    /** Flips the mode, repaints every element and the toggle control's
        label from the new mode's table, saves the new flag and renders the
        time again. */
    method ToggleDarkMode(remainingUs: int, outcome: WriteOutcome)
      modifies this`isDark, this`colours, this`buttonText, this`configFile, this`timeText, this`subText
      ensures isDark == !old(isDark)
      ensures Valid()
      ensures colours.timeFg == if remainingUs <= 0 then ReachedFg else ThemeFor(isDark).timeFg
      ensures configFile == AfterSave(old(configFile), isDark, outcome)
      ensures outcome == Written ==> PreferenceInSync()
      ensures timeText == CountdownText(remainingUs)
      ensures subText == if remainingUs <= 0 then CongratulationsText else old(subText)
      ensures position == old(position) && dragOffset == old(dragOffset)
    {
      isDark := !isDark;
      colours, buttonText := Painted(ThemeFor(isDark)), ButtonLabel(isDark);
      SavePreferences(outcome);
      UpdateCountdown(remainingUs);
    }

    /** A press of the primary button records the event's coordinates. The
        handler is bound on the window, and every child (the frame, the
        labels, the button) passes its presses to it with coordinates
        relative to that child, not to the window. The frame fills the
        window; the labels and the button sit inside its padding. */
    method StartMove(eventX: int, eventY: int)
      modifies this`dragOffset
      ensures dragOffset == Some(Point(eventX, eventY))
    {
      dragOffset := Some(Point(eventX, eventY));
    }

    /** Motion with the button held puts the window's corner at the pointer
        minus the recorded offset; nothing keeps the window on screen. The
        offset stays under the pointer only when the press was on the window
        or the frame, which fills it (see PressOnChildShifts). Before any press there is no offset
        and the window stays put. */
    method DoMove(pointerX: int, pointerY: int)
      modifies this`position
      ensures dragOffset.Some? ==>
        pointerX - position.x == dragOffset.value.x && pointerY - position.y == dragOffset.value.y
      ensures dragOffset.None? ==> position == old(position)
    {
      if dragOffset.Some? {
        position := Point(pointerX - dragOffset.value.x, pointerY - dragOffset.value.y);
      }
    }
  }

  /** Toggling twice restores the mode, the toggle control's label and
      every colour but the time label's, which is the reached colour or the
      mode's own as the second tick says; so all colours come back exactly
      when the second tick agrees with the time label's colour before. The
      file receives the opposite flag and then the original one, the time
      text is that of the second tick, the status line congratulates once
      either tick found the target reached, and the window stays put. */
  method ToggleTwice(w: CountdownWidget, remaining1: int, outcome1: WriteOutcome,
                     remaining2: int, outcome2: WriteOutcome)
    returns (ghost firstSave: ConfigFile)
    requires w.Valid()
    modifies w
    ensures w.Valid()
    ensures w.isDark == old(w.isDark) && w.buttonText == old(w.buttonText)
    ensures w.colours.(timeFg := old(w.colours.timeFg)) == old(w.colours)
    ensures w.colours.timeFg == if remaining2 <= 0 then ReachedFg else ThemeFor(old(w.isDark)).timeFg
    ensures (remaining2 <= 0 <==> old(w.colours.timeFg) == ReachedFg) ==> w.colours == old(w.colours)
    ensures firstSave == AfterSave(old(w.configFile), !old(w.isDark), outcome1)
    ensures w.configFile == AfterSave(firstSave, old(w.isDark), outcome2)
    ensures outcome1 == Written ==> firstSave == Document(PreferenceRecord(!old(w.isDark)))
    ensures outcome2 == Written ==> w.configFile == Document(PreferenceRecord(old(w.isDark)))
    ensures w.timeText == CountdownText(remaining2)
    ensures w.subText == if remaining1 <= 0 || remaining2 <= 0 then CongratulationsText else old(w.subText)
    ensures w.position == old(w.position) && w.dragOffset == old(w.dragOffset)
  {
    ghost var before := w.colours;
    w.ToggleDarkMode(remaining1, outcome1);
    firstSave := w.configFile;
    w.ToggleDarkMode(remaining2, outcome2);
    ThemedAgree(w.isDark, w.colours, before);
  }

  /** The reached state is not a latch: if a later tick sees time remaining
      again (the clock stepped back), the counting text returns while the
      congratulation and the reached colour stay; nothing else changes. */
  method ClockStepsBack(w: CountdownWidget, remaining1: int, remaining2: int)
    requires remaining1 <= 0 < remaining2
    modifies w
    ensures w.timeText == CountingText(WholeSeconds(remaining2))
    ensures w.subText == CongratulationsText && w.colours.timeFg == ReachedFg
    ensures w.colours == old(w.colours).(timeFg := ReachedFg)
    ensures w.isDark == old(w.isDark) && w.buttonText == old(w.buttonText) && w.configFile == old(w.configFile)
    ensures w.position == old(w.position) && w.dragOffset == old(w.dragOffset)
  {
    w.UpdateCountdown(remaining1);
    w.UpdateCountdown(remaining2);
  }

  /** A press on a child widget placed at `child` inside the window, at
      `(eventX, eventY)` within that child, followed by motion before the
      pointer has moved, shifts the window by the child's place. */
  method PressOnChildShifts(w: CountdownWidget, child: Point, eventX: int, eventY: int)
    modifies w
    ensures w.position == Point(old(w.position.x) + child.x, old(w.position.y) + child.y)
  {
    var pointerX := w.position.x + child.x + eventX;
    var pointerY := w.position.y + child.y + eventY;
    w.StartMove(eventX, eventY);
    w.DoMove(pointerX, pointerY);
  }
}
