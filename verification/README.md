# Retirement countdown widget — a Dafny model

The program is a small borderless desktop widget. It counts down to a fixed
date (31 March 2031, local time) and shows the time left as
`"{days}d Days HH:MM:SS"`. It switches between a light and a dark colour
table and remembers the choice in a one-key JSON preference file. It can be
dragged around the screen.

This project models the three pieces of logic inside the widget, and proves
what they promise:

- **The countdown tick** (`countdown.dfy`, module `Countdown`). The remaining
  time is an integer number of microseconds. It is truncated toward zero to
  whole seconds. The whole seconds are split by floor division and remainder
  into days, hours, minutes and seconds. They are rendered with the day count
  unpadded and the three clock fields zero-padded to two digits. When nothing
  remains, the fixed reached text `🎊 00:00:00` is shown instead. The proofs
  cover these facts:
  - the four parts add back up to the total, and each clock field is in range;
  - a canonical duration and its total determine each other;
  - each rendered field is exactly two digits;
  - the rendered text can be read back to the exact number of whole seconds.
  A strict reader (`ParseCountingText`, `ParseDecimal`) accepts only days
  without a leading zero and in-range clock fields. A text is the counting
  text of a total exactly when the reader reads that total from it, so two
  different totals never show the same text.
- **The colour tables and the toggle** (`themes.dfy`, module `Themes`). There
  are two fixed tables of seven colours each. `Painted` says how a table is
  spread over the window, the frame, the three labels and the button. The
  toggle control's label offers the mode that is not in force.
- **The preference file** (`preferences.dfy`, module `Preferences`). The file
  is abstract: it is missing, unreadable, not JSON, or a parsed JSON document.
  Loading returns the document's `dark_mode` member if the document is an
  object that has it, and `false` in every other case. The loaded value is
  used as a condition, so any JSON value with the usual truthiness is
  accepted. Saving writes the record `{"dark_mode": flag}`. A save can
  complete, fail to open the file (the file is unchanged), or be cut short.
  A write that is cut short leaves text that is not JSON, because every
  strict prefix of the record is invalid.
- **The widget** (`widget.dfy`, class `Widget.CountdownWidget`). Its fields
  are the state the program changes in place:
  - the dark-mode flag;
  - the colour of every element (`colours`, one `Palette` value);
  - the time, status and button texts;
  - the drag offset and the window position;
  - the preference file on disk.

  The methods update these fields as the program's handlers do. Their
  contracts tie the new state to the pure functions above. `Valid()` is the
  theme invariant: every element shows the current mode's table, except that
  the time label may show the reached colour, and the button label matches
  the mode. `PreferenceInSync()` says that the file on disk would restart the
  widget in its current mode. Two client methods, `ToggleTwice` and
  `ClockStepsBack`, prove properties that need two calls in a row.

The outside world enters as parameters:
- the remaining time of a tick;
- the file found at start;
- how a write ends;
- the pointer position for a press and for a drag.

The reached state is not a latch: the code re-tests the sign of the
remaining time on every tick, and the model does the same. `ClockStepsBack` shows that a later positive tick brings the counting
text back, while the congratulation and the reached colour stay.

## Model

| member | source | states |
|---|---|---|
| Countdown.WholeSeconds | retirement_countdown.py:184 | the integer conversion truncates toward zero: for a non-negative remaining time, `s` whole seconds satisfy `s*10^6 <= us < (s+1)*10^6`; for a negative one, the mirror bounds with `s <= 0` |
| Countdown.Decompose | retirement_countdown.py:186-190 | days, hours, minutes and seconds add back up to the total (`days*86400 + hours*3600 + minutes*60 + seconds == total`), with `hours < 24`, `minutes < 60`, `seconds < 60` |
| Countdown.DecomposeCompose | retirement_countdown.py:186-190 | decomposing the total of any in-range duration gives that duration back, so the split is the unique in-range one |
| Countdown.DecimalDigits | retirement_countdown.py:192 | the unpadded day count is one or more decimal digits, starts with '0' only for zero, and is one digit exactly when the number is below 10 |
| Countdown.DecimalRoundTrip | retirement_countdown.py:192 | reading back the decimal text of `n` gives `n` |
| Countdown.ParseDecimalRoundTrip | retirement_countdown.py:192 | every digit string without a leading zero is the decimal text of its value (the converse round trip) |
| Countdown.Pad2 | retirement_countdown.py:192 | a `02d` field is all digits, at least two of them, exactly two when the value is below 100, starts with '0' exactly when the value is below 10, and reads back as the value |
| Countdown.CountingText | retirement_countdown.py:192 | the counting text is 15 characters longer than the day count's decimal text; its content is fixed by `CountingTextExactly` |
| Countdown.CountingTextRoundTrip | retirement_countdown.py:184-192 | the counting text read back gives the whole seconds it was rendered from, so different totals give different texts |
| Countdown.ParseCountingTextRoundTrip | retirement_countdown.py:186-192 | every text the strict reader accepts is the counting text of the number it reads: days without a leading zero, hours below 24, minutes and seconds below 60, each clock field two digits |
| Countdown.CountingTextExactly | retirement_countdown.py:186-192 | a text is the counting text of `total` if and only if the strict reader reads `total` from it |
| Countdown.CountdownText | retirement_countdown.py:180-192 | the time text is the reached text exactly when the remaining time is `<= 0` |
| Countdown.CountdownTextReadsBack | retirement_countdown.py:180-192 | the time text reads back to the truncated whole seconds when time remains, and to nothing when the target is reached |
| Countdown.ExampleTenSeconds | retirement_countdown.py:184-192 | ten seconds remaining renders `0d Days 00:00:10` |
| Countdown.ExampleUnderOneSecond | retirement_countdown.py:180-192 | 0.4 s remaining is still counting and renders `0d Days 00:00:00` |
| Countdown.ExampleOneDay | retirement_countdown.py:184-192 | 93784.999999 s renders `1d Days 02:03:04` |
| Countdown.ExampleManyDays | retirement_countdown.py:186-192 | 1234 days renders `1234d Days 00:00:00` (days unpadded) |
| Themes.ModeDeterminesLook | retirement_countdown.py:98 | `ThemeFor` (:44, :118) chooses the table and `ButtonLabel` (:98, :132) the label: the dark table and the label `🌙 Light Mode` are in force exactly when the flag is set, and the light table and `💡 Dark Mode` exactly when it is not |
| Themes.ModeChangeRepaints | retirement_countdown.py:23-41 | palettes themed for opposite modes differ in every element's colour; the time label's colour can agree only when both show the reached colour |
| Themes.ThemedAgree | retirement_countdown.py:117-137 | two palettes painted for the same mode differ at most in the time label's colour |
| Themes.PaintedInjective | retirement_countdown.py:117-137 | `Painted` spreads a table over the window, frame, labels and button as :45-111 and :121-137 do; the painted palettes of the two modes are equal exactly when the modes are |
| Preferences.LoadPreferences | retirement_countdown.py:156-165 | loading yields the `dark_mode` member of a JSON object that has it, and `false` for a missing, unreadable or malformed file, a non-object document or a missing key |
| Preferences.StartupModes | retirement_countdown.py:156-165 | `StartsDark` takes the truthiness (`Truthy`) of the loaded value, as its uses as a condition at :44 and :98 do: `{"dark_mode": true}` starts dark; any other `dark_mode` value starts dark exactly when it is truthy; a missing, unreadable or malformed file, a non-object document or an object without the key starts light; other keys do not matter |
| Preferences.PreferenceRecord | retirement_countdown.py:170 | the saved record is an object with the single key `dark_mode` holding the flag |
| Preferences.SaveLoadRoundTrip | retirement_countdown.py:156-174 | `AfterSave` gives the file after a save attempt (:167-174); after a completed save, loading gives back exactly the saved boolean and starts in that mode |
| Preferences.FailedSaveFallsBack | retirement_countdown.py:167-174 | a save cut short leaves a file that starts light; a save that could not open the file leaves the previous preference in force |
| Widget.CountdownWidget.constructor | retirement_countdown.py:19-113 | the mode is the truthiness of the loaded value; every element is painted from that mode's table; the button label matches; the window is at (40, 40) with no drag offset; a first tick has rendered the time; the invariant holds and the file is in sync with the mode |
| Widget.CountdownWidget.UpdateCountdown | retirement_countdown.py:176-194 | the time text becomes the countdown text. When remaining `<= 0`, the time colour becomes `#340399` and the status text `Congratulations!`. Otherwise nothing but the time text changes. The theme invariant is kept |
| Widget.CountdownWidget.SavePreferences | retirement_countdown.py:167-174 | the file becomes the record for the current flag, or stays or breaks as the write outcome says; after a completed write the file is in sync with the mode |
| Widget.CountdownWidget.ToggleDarkMode | retirement_countdown.py:115-142 | the flag is negated. Every element is repainted from the new mode's table and the button label matches. The new flag is saved. The time is rendered again, so in the reached state the time colour is `#340399` again. Position and drag offset stay as they were |
| Widget.CountdownWidget.StartMove | retirement_countdown.py:144-146 | the press event's coordinates, relative to the widget pressed, are recorded as the drag offset |
| Widget.CountdownWidget.DoMove | retirement_countdown.py:148-151 | the window's corner moves to the pointer minus the recorded offset, with no clamping; before any press the window stays put |
| Widget.PressOnChildShifts | retirement_countdown.py:144-151 | a press on a child widget, followed by motion before the pointer moves, shifts the window by the child's place inside the window |
| Widget.ToggleTwice | retirement_countdown.py:115-142 | two toggles restore the flag, the button label and every colour but the time label's. The time label's colour is the reached colour after a reached second tick and the mode's own otherwise, so all colours come back exactly when that agrees with the colour before. The file is the result of saving the opposite flag and then the original one under the two write outcomes, so two completed writes leave the original record. The time text is the second tick's, the status line congratulates if either tick was reached, and the window stays put |
| Widget.ClockStepsBack | retirement_countdown.py:176-192 | a counting tick after a reached tick shows the counting text again, while `Congratulations!` and the reached colour stay; every other colour, the mode, the label, the file, the position and the drag offset are as before |

## Left out

- Window construction, the title, fonts, the window size, borderless and always-on-top attributes, key and mouse bindings, the right-click menu and its exit action, and the event loop: these are toolkit calls with no logic of their own.
- The 250 ms timer: every tick re-arms it, and so does the tick that every toggle runs, so after n toggles n + 1 timer chains run side by side. Every tick writes the same kind of values, so the display does not change. The model has no timer: each tick, from whichever chain, is one call of `UpdateCountdown` with its remaining time as a parameter.
- Reading the clock: the remaining time until 2031-03-31 00:00 is a parameter, in integer microseconds.
- WholeSeconds: the program divides a floating-point number of seconds and converts it to an integer. The model divides exact integers. The two agree while the remaining time is under about a century.
- File I/O, the existence test, and JSON text parsing and serialising: the file is an abstract value that is missing, unreadable, not JSON, or a parsed document. Any failure takes the fallback path.
- JSON numbers are modelled as integers. A fractional number would count as true exactly when it is non-zero, like an integer.
- The pointer position for a drag and the event coordinates of a press are parameters. The geometry string `+x+y` is modelled as the position pair.
- The layout of the children inside the window is not modelled. The drag handlers are bound on the window, and a press on a child reaches them with coordinates relative to that child. The frame fills the window, so a press on it behaves like a press on the window. A press on a label or the button makes the window jump on the first motion, by that child's place inside the window. That is at least the frame's padding of 14 by 12 pixels. `PressOnChildShifts` shows the jump for a given child position.
- A motion event before any press makes the program's handler fail inside the toolkit, which reports the error and carries on. The model leaves the window where it is.
- The placeholder text `--d --:--:--` is set at start-up, but the first tick always replaces it before the window is shown.
