# camControl core in Dafny

camControl is a small control panel for Video4Linux2 cameras. It drives the
`v4l2-ctl` tool. This project models the part of `main.py` that does not
depend on the widget toolkit:

- **Reading the control listing** (`CameraControl.get_ctls`). Each line of
  `v4l2-ctl -l` is matched against the line pattern. The attributes
  `min max step default value flags` are then searched for in the rest of
  the line and converted to integers where `int()` accepts them. The results
  fill an insertion-ordered table from control name to control.
- **The control table** (`setValue`, `getValue`, `update`).
  - `setValue` skips inactive controls. It stores a value only when the set
    command succeeds.
  - `getValue` reads the first all-digit token of the tool's reply.
  - `update` makes two passes in table order. The first leaves out `int`
    controls. The second leaves out `bool` and `menu` controls. Each pass
    writes back every control's stored value, or its default on reset.
- **The window's rules**:
  - the label text of a control;
  - the `.ccconf` suffix of a saved configuration;
  - the ON/OFF toggle, which sends the texts `"0"` and `"1"`;
  - the part of `sync` that sets button states and disables inactive sliders.

The device tool is not modelled. Every command CameraControl issues is
appended to a log. What the tool reports comes in as a parameter:

- whether a set command was accepted;
- what a get command printed;
- the lines of the listing.

`update` receives an oracle `accepts(k)`: the tool's answer to the k-th
command of the log.

Modules, one per file:

| file | module | contents |
|---|---|---|
| values.dfy | `Values` | character classes, Python `int()` and `str()` on integers, attribute values |
| listing.dfy | `ControlListing` | the line and attribute patterns, the control record, the table, the listing |
| commands.dfy | `Commands` | the tool's commands, one set command on the table, reading a get reply |
| update.dfy | `UpdateOrder` | the two passes of `update` and what they send and store |
| camera.dfy | `Camera` | the `CameraControl` class, imperative, proved against the functions above |
| gui.dfy | `Gui` | label text, suffix rule, toggle and refresh rules, and the `Window` class |

Non-matching listing lines are handled differently from the source. The
class skips a line that does not match. As written, the source raises on
such a line (see Findings). `ControlListing.ListingAsWritten` models the
source as written.

## Model

| member | source | states |
|---|---|---|
| Values.ParseInt | main.py:62-65 | `int()` accepts a text exactly when it is a numeral (ASCII digits, single underscores between digits, as in `1_000`) with an optional `-` or `+` in front. The result is the numeral's value, negated after `-`. |
| Values.ToValue | main.py:61-66 | An attribute becomes an integer exactly when `int()` accepts its text, and then it is the integer `int()` gives. Otherwise it is kept as the same text. |
| Values.IntText | main.py:93-95 | `str(i)`: the decimal digits of `i`, after a `-` when `i` is negative. `Values.IntTextRoundTrip` states that `int()` reads it back as `i`. |
| Values.ValueText | main.py:93-95 | `str(val)` of an integer is `IntText`, and a text is sent as it is. `Values.ValueTextRoundTrip` states that the listing's conversion reads it back as `val`. |
| Values.IntTextRoundTrip | main.py:61-66 | `int(str(i)) == i` for every integer, negative ones included. |
| Values.ValueTextRoundTrip | main.py:93-95 | Any value sent as `str(val)` is read back by the listing's conversion as that value. This holds for any integer, and for any text `int()` rejects. |
| Values.LetterKeepsText | main.py:61-66 | A text containing a letter, such as `inactive`, stays text. |
| Values.NegativeNumeral | main.py:72 | The captured leading minus sign is kept: `-n` becomes the negative integer. |
| ControlListing.IsInactive | main.py:89 | A control is inactive iff it has a `flags` attribute and that attribute is the text `inactive`; a control with no `flags` is active, as `get("flags", "")` gives. Its consequences are stated by `Commands.Set`, `UpdateOrder.PassKeeps` and `Gui.RefreshRule`. |
| ControlListing.WithValue | main.py:99 | Storing a value replaces `value` and nothing else in the control. |
| ControlListing.TailAt | main.py:33 | The pattern's tail `\(([a-z]+)\)\s*:\s(.*)$` at one index captures a nonempty lower-case type word. `ControlListing.RenderedLineMatches` states what it captures on a line in the tool's format. |
| ControlListing.FindTail | main.py:33 | The lazy `.*?`: the tail at the first index at or after the start where it matches. Its contract keeps the type a nonempty lower-case word. `ControlListing.FindTailSkip` states that indices without `(` are passed over, and `ControlListing.NoParenNoMatch` that a line without `(` has no tail. |
| ControlListing.MatchLine | main.py:33 | A matched line gives a nonempty word as the name and a nonempty lowercase word as the type. |
| ControlListing.MatchLineName | main.py:53 | A parsed line is keyed by its first word. The name starts at the line's first word character and runs to the end of that word. |
| ControlListing.NoParenNoMatch | main.py:33 | A line with no `(` does not match the pattern. |
| ControlListing.RenderedLineMatches | main.py:50-56 | A line in the tool's format `name id (type) : rest` yields exactly `name`, `type` and `rest`. |
| ControlListing.AttrAt | main.py:72 | `attr=(-?\w+)` at one index captures a nonempty text. `ControlListing.AttrAtInteger` states that it captures an integer with its sign. |
| ControlListing.FindAttr | main.py:58 | A capture found by the search is the capture of the attribute pattern at some index at or after the start. |
| ControlListing.FindAttrLeftmost | main.py:58 | `attr=` search finds a match iff one occurs. It then captures the leftmost occurrence. |
| ControlListing.AttrAtInteger | main.py:72 | `attr=` followed by an integer and then a non-word character captures the integer with its sign. |
| ControlListing.Attrs | main.py:57-66 | Each of the six attributes is present iff its search succeeds. It then holds the converted capture of the first occurrence. |
| ControlListing.ControlOf | main.py:54-66 | The `ctl` dictionary of a matching line: its type and the converted attributes. `ControlListing.Attrs` states which attributes it holds, and `ControlListing.ListingLast` that it is the control stored for the name. |
| ControlListing.Put | main.py:67 | Assigning `table[name]` keeps the table a valid ordered dictionary. A new key goes last and existing keys keep their places. |
| ControlListing.Listing | main.py:44-67 | The listing fills a valid ordered table. This is the corrected reading, which skips non-matching lines. |
| ControlListing.ListingHas | main.py:49-67 | The table has a control for a name iff some line parses to that name. |
| ControlListing.ListingOrder | main.py:67 | The table's keys are the names of the matching lines, each once, in the order of the first line that names it. A later line for a known name does not move it. |
| ControlListing.ListingLast | main.py:67 | The control stored for a name is the one parsed from the last line with that name. |
| ControlListing.ListingAsWritten | main.py:50-53 | The listing as written gives no table iff some line does not match. Otherwise it gives the corrected listing's table. |
| ControlListing.AsWrittenRaisesIff | main.py:50-53 | The listing as written raises iff some line does not match the pattern. |
| ControlListing.HeadingLineRaises | main.py:50-53 | A heading or blank line makes the listing as written raise. The corrected listing skips it. |
| Commands.Argv | main.py:45-48 | The tool's arguments start with `-d device` exactly when a device was given. Then come `-l`, or `--get-ctrl` or `--set-ctrl` with its one argument. A get command ends with the control name. |
| Commands.SetArgumentSplits | main.py:92-95 | The set command's argument is `name=str(val)`, with the `-d device` prefix only when a device was given. It splits back at its first `=`. |
| Commands.Set | main.py:88-100 | An inactive control gives true, with no command and no change. Otherwise exactly one `SetCtrl(name, val)` is logged. On success it returns true and the control becomes `WithValue(c, val)`: `val` is stored and nothing else in it changes. On failure it returns false and the control is unchanged. No other control changes. |
| Commands.Tokens | main.py:81 | `str.split()` yields nonempty tokens free of whitespace. |
| Commands.TokensSplit | main.py:81 | The tokens are those of `str.split()`: with whitespace separators between and around them they rebuild the text, and every separator between two tokens is nonempty. |
| Commands.ReadValue | main.py:81-83 | The reply gives a reading iff one of its tokens is all digits. |
| Commands.FirstDigits | main.py:81-83 | The `[0]` of the list of all-digit tokens, None where the list is empty. `Commands.FirstDigitsIsFirst` states that it is the first such token's number. |
| Commands.FirstDigitsIsFirst | main.py:81-83 | The reading exists iff some token is all digits. It is the number of the first such token. |
| Commands.ReadsPrintedValue | main.py:81-83 | The reply `name: 42` reads as 42. |
| Commands.NegativeReadingIgnored | main.py:81 | A negative reply `name: -5` gives no reading. |
| UpdateOrder.Skips | main.py:106-115 | The first pass leaves out `int` controls, the second `bool` and `menu` controls. Its consequences are stated by `UpdateOrder.PassLog` and `UpdateOrder.UpdateAttemptCounts`. |
| UpdateOrder.Key | main.py:108-111 | The attribute a pass sends is `default` on reset and `value` otherwise. Its consequences are stated by `UpdateOrder.PassLog`. |
| UpdateOrder.Pass | main.py:105-120 | A pass keeps the table's keys. It only appends to the log. |
| UpdateOrder.UpdateRun | main.py:102-120 | An update keeps the table's keys. It only appends to the log. |
| UpdateOrder.PassKeeps | main.py:105-120 | A pass changes nothing on `update()`. On reset it changes only stored values. Every command it adds is a set command for an active control that the pass does not skip. |
| UpdateOrder.PassCompletes | main.py:105-120 | A pass runs to its end iff every control it does not skip has the attribute it reads. Otherwise KeyError ends it. |
| UpdateOrder.PassLog | main.py:105-120 | A completed pass sends one set command per active, not-skipped control, in table order. Each command carries the control's `value`, or its `default` on reset. |
| UpdateOrder.UpdateOrdering | main.py:102-120 | No command for an `int` control comes before a command for a `bool` or `menu` control. |
| UpdateOrder.UpdateCommands | main.py:102-120 | An update completes iff every control has the attribute read. The log then grows by the first pass's commands followed by the second pass's, each pass in table order. |
| UpdateOrder.UpdateAttemptCounts | main.py:105-120 | A completed update sends each active `bool`, `menu` or `int` control exactly one command. Any other active control gets two, and an inactive control none. |
| UpdateOrder.UpdateKeepsValues | main.py:108-120 | After `update()` the table is unchanged. |
| UpdateOrder.UpdateResetValues | main.py:105-120 | After `update(reset=True)`, a control whose set command succeeded holds its default with its other attributes as they were. Every other control is unchanged, and inactive controls are never touched. |
| Camera.Relisted | main.py:44-48 | The table is emptied before the listing command runs, so a failing command leaves it empty. |
| Camera.LineAttrs | main.py:57-66 | The attribute loop computes `Attrs` of the rest of the line. |
| Camera.CameraControl.constructor | main.py:69-73 | The new object's table is the one the listing fills. The log holds the one listing command. |
| Camera.CameraControl.GetCtls | main.py:43-67 | Logs one listing command. Rebuilds the table as the listing fills it and reports success. Where the listing command raises, the table is left empty and failure is reported. |
| Camera.CameraControl.GetValue | main.py:75-86 | Logs one get command. With a reading and a known name it stores and returns the reading. Otherwise it returns 0 and the table is unchanged. This includes a failed command, a reply with no digit token and an unknown name. |
| Camera.CameraControl.SetValue | main.py:88-100 | The new state and the result are those of `Commands.Set`. |
| Camera.CameraControl.RunPass | main.py:105-120 | The loop's state and result are those of `UpdateOrder.Pass` over the table order. |
| Camera.CameraControl.Update | main.py:102-120 | The state and result are those of `UpdateOrder.UpdateRun`. The table stays valid. |
| Gui.Capitalize | main.py:144 | `str.capitalize()` keeps the length. It upper-cases the first character and lower-cases the others. |
| Gui.ReplaceAll | main.py:144-145 | `str.replace`: every occurrence of the pattern, left to right and not overlapping, replaced. `Gui.ReplaceUnderscore` and `Gui.ReplaceAbsent` state what it does here. |
| Gui.ReplaceUnderscore | main.py:144 | `replace("_", " ")` turns each underscore into a space and changes nothing else. |
| Gui.ReplaceAbsent | main.py:145 | `replace` leaves a text unchanged when the pattern's first character does not occur in it. |
| Gui.LabelText | main.py:144-145 | The label: underscores replaced by spaces, capitalized, a colon appended, then the long white-balance name shortened. What it gives is stated by `Gui.LabelTextShape` and `Gui.LabelTextFacts`. |
| Gui.LabelTextShape | main.py:144-145 | The label is the capitalized, space-separated name with a colon. A leading `White balance temperature` becomes `WB temperature`, and no other change is made. |
| Gui.LabelTextFacts | main.py:144-145 | Every label ends with `:` and contains no underscore. |
| Gui.EndsWith | main.py:253 | `str.endswith`: the last characters are the suffix. `Gui.SaveTargetFacts` states its use in the save rule. |
| Gui.SaveTarget | main.py:252-254 | No name gives no file. Otherwise the file name ends in `.ccconf` and starts with the chosen name. |
| Gui.SaveTargetFacts | main.py:252-254 | An empty dialog result saves nothing. Otherwise the saved file name ends in `.ccconf` and starts with the chosen name. It equals that name iff the name already ends in `.ccconf`. Applying the rule again changes nothing. |
| Gui.ToggleValue | main.py:231-236 | The toggle sends text, not an integer; both `"0"` and `"1"` are nonempty texts. |
| Gui.ToggleValueText | main.py:226-236 | The toggle's texts `"0"` and `"1"` reach the tool exactly as the integers 0 and 1 would. A later listing reads them back as those integers. |
| Gui.IsOn | main.py:209 | Python truthiness of a value: a nonzero integer or a nonempty text. Its use is stated by `Gui.RefreshRule`. |
| Gui.Refresh | main.py:207-224 | The refresh loop keeps the key sets of the button and disabled maps. |
| Gui.RefreshRule | main.py:207-224 | sync's loop completes iff every control has a value and its widget. Then every button shows whether its control's value is truthy, every other control is disabled iff it is flagged inactive, and controls outside the table keep their state. |
| Gui.Window.constructor | main.py:125-129 | The window over a CameraControl starts from the button states and disabled flags the widget construction gave. |
| Gui.Window.Sync | main.py:205-224 | Rebuilds the table from the new listing. The button states and disabled flags are then those of `Refresh` over the new table. Where the listing command raises, the table is empty, no widget changes and the method reports failure. |
| Gui.Window.Toggle | main.py:226-236 | The button's state flips. The control is sent `"0"` when it was on and `"1"` when it was off, with the effect `Commands.Set` gives. Nothing else changes. |
| Gui.Window.ButtonChange | main.py:226-238 | The toggle's command is followed by a sync. The table is the new listing's, and the widget state is `Refresh` applied after the flip. Where the listing command raises, only the flip remains. |

## Left out

**Not modelled:**
- The `sh.Command` calls (main.py:46-48, 71, 78-80, 93-95) are not executed. Commands go to a log, and the tool's replies, success and listing are parameters.
- The error messages printed on a failed get or set (main.py:85, 97) are output only.
- Widget construction, layout, styling and signal wiring (main.py:131-195) are left out. The window's initial button states and disabled flags are parameters of `Gui.Window.constructor`, not derived from `initUI`.
- Sliders: their position (main.py:167-173, 218) is a widget state, and a slider and its label share one disabled flag.
- Gui.Window.Sync and Gui.Window.ButtonChange: the signal wiring (main.py:169-170) is not modelled, so `sl_Change` (main.py:197-203) is not either. In the source, setting a slider's value at main.py:218 emits `valueChanged`, which calls `sl_Change`. That sends a set command through `setValue`, and a failed set starts a nested `sync`. The model's sync logs only its one listing command, which is what the source does when no slider value changes.
- `action_Slot` (main.py:240-265) is left out: its file dialogs, directory creation and JSON dump and load are file-system I/O and a library serialiser. Only the suffix rule (`Gui.SaveTarget`) is modelled.
- Argument parsing and the application loop (main.py:268-278) are left out.

**Behaviour the model fixes or simplifies:**
- Exceptions are not propagated. KeyError ends `update` or `sync` reported as `completed == false`, and the caller does not see an exception.
- Lines of the listing are taken without their line terminator.
- The `buttons` dictionary of the window (main.py:210, 214) is taken to have the same keys as `button_status`, since `initUI` fills both for every `bool` control.

**Contracts weaker than the source:**
- Values.IsWordChar: `\w` is ASCII letters, digits and `_`. Python's `\w` on `str` also matches other Unicode letters and digits, which `v4l2-ctl` does not print in names or values.
- Values.ParseInt: covers the texts the attribute pattern can capture (an optional `-` and word characters). The whitespace and non-ASCII digits that `int()` also accepts cannot occur in such a capture.
- Commands.IsDigitToken: `str.isdigit()` is modelled on ASCII digits. Other Unicode digits, on which `int()` may raise inside the `try`, are not modelled.
- Gui.Capitalize: upper and lower case are modelled on ASCII letters; other characters are left as they are.
- Camera.CameraControl.constructor: takes the lines of a listing that succeeded. A failing listing command makes `__init__` raise (main.py:73), so no object exists to model.
- Commands.Set: requires the name to be in the table. The source raises KeyError for an unknown name (main.py:89). `button_Change` and `sl_Change` pass such a name when a later listing no longer holds a control the window was built with (main.py:143, 160, 170, 205-206), for instance after a failed listing emptied the table; the model excludes that case.
- Camera.CameraControl.SetValue: the same precondition as `Commands.Set`.
- Gui.Window.Toggle: requires a known button and control (main.py:227, 89). The source's dictionary lookups raise KeyError otherwise, which the model excludes, as for `Commands.Set`.

## Findings

| source | as written | input that shows it | evidently intended | confidence | as-written member | corrected member |
|---|---|---|---|---|---|---|
| main.py:50-53 | `m = RE_CTL.split(line)`, then `if not m: continue`, then `m[1]`. `re.split` of a line that does not match returns `[line]`, so the guard never fires and `m[1]` raises IndexError. | A listing with a heading line such as `User Controls`, or a blank line (`ControlListing.HeadingLineRaises`). | Skip lines the pattern does not match. | not executed | ControlListing.ListingAsWritten | ControlListing.Listing |
