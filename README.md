# Remote keyboard input capture, modelled in Dafny

This project models the `remote-keyboard` element of the Android TV remote card,
a panel for a home-automation dashboard. The element hides a zero-opacity text
input over a button. Tapping the button focuses the input, which opens the
platform keyboard. The element then turns every key press, typed or
IME-composed fragment and paste into a remote-control call for the configured
keyboard entity.

The model has two parts.

- **`Translator`** (`translator.dfy`) holds the pure logic:
  - Mode resolution: the configured `keyboardMode` is upper-cased, and only
    `KODI` selects Kodi. `ANDROID TV`, every other value and an absent mode
    select Android TV.
  - The special-key table: `Backspace`, `Delete`, `Enter`, `ArrowLeft` and
    `ArrowRight` map to `DEL`, `FOWARD_DEL`, `ENTER`, `DPAD_LEFT` and
    `DPAD_RIGHT`.
  - The text payloads. Kodi gets `kodi.call_method` with `Input.SendText`,
    the text and `done: false`. Android TV gets `androidtv.adb_command` whose
    command is `input text "<text>"`, with the text spliced in unescaped.

  Partner definitions are proved against it: `ParseAdbText` reads the text
  back out of a command, `DecodeText` reads the text a service call carries,
  and `KodiSpelling` lists the spellings of `kodi`.
- **`RemoteKeyboardElement.RemoteKeyboard`** (`remote_keyboard.dfy`) is a class
  whose fields are the element's state:
  - the input's `value` and whether it is `focused`;
  - the marker colour and the z-indices of the input and its container;
  - `calls`, an append-only log of every dispatched call. The log holds host
    service calls, the base element's `sendCommand(code)` and haptic requests.

  Each event handler is a method that updates these fields. The class
  invariant `Valid()` says that the styles mirror focus: they are active
  exactly while the input is focused and unset otherwise.

`payload.dfy` gives the payload shape: a map from field names to strings,
string lists, numbers, number lists or booleans. `wrappers.dfy` gives `Option`,
which stands for a JavaScript value that may be `undefined`.

How `blur()` and `focus()` are modelled: `Blur` and `Focus` change the
`focused` flag only when focus actually moves. When it moves, they run the
bound `focusout` or `focus` handler (`OnFocusOut` / `OnFocus`) at once, so
these handlers set `focused` too. This is why, after a key press that had to
clear a value and after every paste, the input ends up focused, empty and
styled as active.

Two details follow the code as written:
- The `Delete` key's code is spelled `FOWARD_DEL` in the source, not
  `FORWARD_DEL`.
- A mapped key goes to the base element's `sendCommand(code)`, logged as
  `SendCommand(code)`. It is not a direct `androidtv.adb_command` service call,
  and the model does not assume what `sendCommand` puts on the wire.

## Model

| member | source | states |
|---|---|---|
| `Translator.ToUpper` | src/classes/remote-keyboard.ts:36 | upper-casing keeps the length and maps each character independently (ASCII letters and dotless i) |
| `Translator.ResolveModeKodiIff` | src/classes/remote-keyboard.ts:36-43 | the Kodi branch is taken exactly when the mode is one of the 24 case spellings of `kodi` |
| `Translator.ResolveModeDefault` | src/classes/remote-keyboard.ts:53-71 | an absent mode, and any mode not four characters long (`ANDROID TV` in every case), take the Android TV branch |
| `Translator.ResolveModeCaseInsensitive` | src/classes/remote-keyboard.ts:82-100 | upper-casing or ASCII lower-casing the configured mode never changes the selected protocol |
| `Translator.ResolveMode` | src/classes/remote-keyboard.ts:36-43 | no contract of its own; characterised by `ResolveModeKodiIff`, `ResolveModeDefault` and `ResolveModeCaseInsensitive` |
| `Translator.SpecialKey` | src/classes/remote-keyboard.ts:20-29 | a key has a code exactly when it is present and in the table, and that code is the key's own table entry; every code is non-empty, so the `if (key)` test is exactly table membership |
| `Translator.SpecialKeyTable` | src/classes/remote-keyboard.ts:20-28 | the five keys map to DEL, FOWARD_DEL, ENTER, DPAD_LEFT, DPAD_RIGHT; every other key, the empty key and an absent key map to nothing |
| `Translator.AdbTextCommand` | src/classes/remote-keyboard.ts:67 | the command is `input text "`, then the text verbatim, then `"`, so it has length `|text| + 13` and holds the text at offset 12 |
| `Translator.ParseAdbTextRoundTrip` | src/classes/remote-keyboard.ts:65-69 | the command holds the text verbatim: the characters between its delimiting quotes are the text |
| `Translator.ParseAdbTextSound` | src/classes/remote-keyboard.ts:94-97 | every command the reader accepts is the command of the text it reads |
| `Translator.AdbTextCommandQuotes` | src/classes/remote-keyboard.ts:67 | nothing is escaped: the command holds the text's quotes plus two, so only quote-free text gives a command with exactly two quotes |
| `Translator.AdbTextCommandUnescaped` | src/classes/remote-keyboard.ts:96 | typed `say "hi"` becomes `input text "say "hi""`, which has more than its two delimiting quotes |
| `Translator.TextCall` | src/classes/remote-keyboard.ts:53-71 | no contract of its own; characterised by `TextCallFaithful` and `TextCallInjective` |
| `Translator.TextCallFaithful` | src/classes/remote-keyboard.ts:53-71 | a text call addresses the keyboard entity and goes to `kodi` exactly in Kodi mode; the payload holds the text verbatim in both modes; Kodi calls carry `done: false` |
| `Translator.TextCallInjective` | src/classes/remote-keyboard.ts:82-100 | two different texts never produce the same call |
| `Translator.KeyDispatch` | src/classes/remote-keyboard.ts:28-43 | no contract of its own; characterised by `KeyDispatchIff` |
| `Translator.KeyDispatchIff` | src/classes/remote-keyboard.ts:28-43 | a key press dispatches exactly when the mode is Android TV and the key is in the table, and it dispatches that key's code |
| `Translator.TextDispatch` | src/classes/remote-keyboard.ts:79-80 | no contract of its own; characterised by `TextDispatchIff` |
| `Translator.TextDispatchIff` | src/classes/remote-keyboard.ts:50-51 | text dispatches exactly when it is present and non-empty, and the call carries exactly that text, verbatim, for the keyboard entity |
| `RemoteKeyboardElement.RemoteKeyboard.OnClick` | src/classes/remote-keyboard.ts:9-15 | logs one light haptic request, then focuses the input; the styles become active |
| `RemoteKeyboardElement.RemoteKeyboard.OnKeyDown` | src/classes/remote-keyboard.ts:17-45 | logs exactly the key dispatch; a mapped key leaves the value empty, and a pending value is cleared with the input refocused; an unmapped key, or a mapped key on an empty value, changes nothing about the input |
| `RemoteKeyboardElement.RemoteKeyboard.OnInput` | src/classes/remote-keyboard.ts:47-73 | logs exactly the text dispatch of the fragment and changes nothing else (the value is not cleared) |
| `RemoteKeyboardElement.RemoteKeyboard.OnPaste` | src/classes/remote-keyboard.ts:75-106 | logs the same dispatch typed text would produce; whether or not there was clipboard text, the input ends empty, focused and styled as active |
| `RemoteKeyboardElement.RemoteKeyboard.OnFocus` | src/classes/remote-keyboard.ts:108-116 | the value becomes empty, the marker gets the active colour, the input's z-index becomes 9 and the container's 1; nothing is dispatched |
| `RemoteKeyboardElement.RemoteKeyboard.OnFocusOut` | src/classes/remote-keyboard.ts:118-126 | the value becomes empty and all three style overrides are unset; nothing is dispatched |
| `RemoteKeyboardElement.RemoteKeyboard.Blur` | src/classes/remote-keyboard.ts:103 | a focused input loses focus through its focusout handler; an unfocused one is left as it is |
| `RemoteKeyboardElement.RemoteKeyboard.Focus` | src/classes/remote-keyboard.ts:105 | an unfocused input gains focus through its focus handler; afterwards the input is focused and the styles are active |
| `RemoteKeyboardElement.FocusRoundTrip` | src/classes/remote-keyboard.ts:108-126 | focus followed by focusout leaves the styles unset and the value empty, and dispatches nothing |
| `RemoteKeyboardElement.PasteTwice` | src/classes/remote-keyboard.ts:79-101 | pasting the same text twice logs two identical calls, each carrying that text verbatim |

The methods `ScenarioEnterThenTab`, `ScenarioKodi` and `ScenarioAndroidTvText`
work through sample event sequences and check the resulting call log with
assertions:
- with no mode, Enter sends `ENTER` and Tab sends nothing;
- in Kodi mode, Backspace clears the input and sends nothing, and a paste
  sends one `Input.SendText` call;
- in Android TV mode, `say "hi"` is typed with its quotes unescaped.

## Left out

- `render()` and `styles` (the Lit template and CSS) are not modelled. The
  inline `onchange`/`onkeyup` handlers in the markup also clear the value,
  but that is markup behaviour, so `OnInput` does not clear it.
- `hass.callService`, the base element's `sendCommand` and
  `fireHapticEvent` are foreign calls. They appear only as entries appended to
  `calls`. `base-keyboard-element.ts` is not part of this model, so neither is
  whatever `sendCommand` sends.
- The browser types text into the input's `value` before it fires `input`.
  The model has no operation for that. `value` is a field that a caller may
  set, as the scenarios do.
- DOM traversal (`currentTarget`, `parentElement`, `children[…]`) is replaced
  by the element's fields. `stopImmediatePropagation` and `preventDefault`
  leave no state in the model.
- Focus events in the browser may arrive through the event loop rather than
  inside `blur()`/`focus()`. The model runs the handlers at once.
- Translator.ToUpper: only ASCII `a`–`z` and U+0131 (dotless i, whose
  upper-case is `I`) are mapped. JavaScript's full Unicode case mapping, which
  includes length-changing cases such as `ß` → `SS`, is not modelled. No other
  character upper-cases into `K`, `O`, `D` or `I`, so mode resolution is not
  affected.
- Translator.ResolveModeCaseInsensitive: holds for upper-casing and for ASCII
  lower-casing only. JavaScript's `toLowerCase` also maps U+212A (Kelvin sign)
  to `k`. A mode of U+212A followed by `odi` takes the Android TV branch, but
  its lower-case `kodi` takes the Kodi branch. So full Unicode lower-casing can
  change the selected protocol.
- Strings are sequences of Unicode scalar values. JavaScript strings are
  UTF-16 code units, so a lone surrogate cannot be represented. The length
  `|text| + 13` counts scalar values, while JavaScript's `length` counts code
  units.
- What the Android TV device types is not modelled. The command is a shell
  line, and text holding `"`, `$`, `\`, or a backtick is re-read by the
  device's shell, so what is typed then differs from the text. For example,
  `input text "say "hi""` types `say hi`. The model promises only that the
  command holds the text verbatim between its delimiting quotes.
- Translator.SpecialKey: the table is exactly the five keys. In the source,
  a key named like an inherited member of a plain object (`constructor`,
  `toString`) would also give a truthy value. No `KeyboardEvent.key` the
  browser produces has such a name.
- The action schema in `src/models/interfaces/IActions.ts` is left out. It
  holds type declarations only: action kinds, gesture slots, targets and
  confirmations. Only the payload shape (`IData`) is borrowed. Payload numbers
  are reals, without floating-point rounding.
