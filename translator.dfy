/** The pure half of the remote keyboard: which protocol a keyboard mode
    selects, which remote key code a special key sends, and which service call
    a piece of typed or pasted text becomes. */
module Translator {
  import opened Wrappers
  import opened Payload

  // ---------------------------------------------------------------------------
  // Keyboard mode
  // ---------------------------------------------------------------------------

  /** The two protocols a keyboard mode selects. */
  datatype Mode = Kodi | AndroidTv

  /** Upper-case of one character: ASCII `a`-`z`, and U+0131 (dotless i),
      whose upper-case is the ASCII `I`. Every other character is kept. */
  function UpperChar(c: char): char
  {
    if 'a' <= c <= 'z' then (c as int - 32) as char
    else if c == '\U{0131}' then 'I'
    else c
  }

  /** Lower-case of one character: ASCII `A`-`Z`; every other character is kept. */
  function LowerChar(c: char): char
  {
    if 'A' <= c <= 'Z' then (c as int + 32) as char else c
  }

  /** `toUpperCase()`, character by character. */
  function ToUpper(s: string): (r: string)
    ensures |r| == |s|
    ensures forall i :: 0 <= i < |s| ==> r[i] == UpperChar(s[i])
  {
    if s == [] then [] else [UpperChar(s[0])] + ToUpper(s[1..])
  }

  /** ASCII lower-casing, character by character (only `A`-`Z` change). */
  function ToLower(s: string): (r: string)
    ensures |r| == |s|
    ensures forall i :: 0 <= i < |s| ==> r[i] == LowerChar(s[i])
  {
    if s == [] then [] else [LowerChar(s[0])] + ToLower(s[1..])
  }

  /** The configured mode, with an absent one read as the empty string. */
  function ModeText(keyboardMode: Option<string>): string
  {
    match keyboardMode
    case None => ""
    case Some(m) => m
  }

  /** The protocol the configured keyboard mode selects: the upper-cased mode
      `KODI` selects Kodi; `ANDROID TV` and every other value, absent
      included, fall to the Android TV branch. */
  function ResolveMode(keyboardMode: Option<string>): Mode
  {
    if ToUpper(ModeText(keyboardMode)) == "KODI" then Kodi else AndroidTv
  }

  /** The spellings of `kodi` whose upper-case is `KODI`. */
  predicate KodiSpelling(m: string)
  {
    |m| == 4 && m[0] in "kK" && m[1] in "oO" && m[2] in "dD" && m[3] in "iI\U{0131}"
  }

  /** The Kodi branch is taken exactly for the 24 case spellings of `kodi`. */
  lemma ResolveModeKodiIff(m: string)
    ensures ResolveMode(Some(m)) == Kodi <==> KodiSpelling(m)
  {
  }

  /** An absent mode, the empty mode and any mode that is not four characters
      long (`ANDROID TV` in any case among them) take the Android TV branch. */
  lemma ResolveModeDefault(m: string)
    requires |m| != 4
    ensures ResolveMode(None) == AndroidTv
    ensures ResolveMode(Some(m)) == AndroidTv
  {
  }

  /** Upper-casing an upper-cased string changes nothing. */
  lemma ToUpperIdempotent(s: string)
    ensures ToUpper(ToUpper(s)) == ToUpper(s)
  {
  }

  /** Upper-casing a lower-cased string is upper-casing the original. */
  lemma ToUpperOfLower(s: string)
    ensures ToUpper(ToLower(s)) == ToUpper(s)
  {
  }

  /** The mode is case-insensitive under the modelled case mappings:
      upper-casing or ASCII lower-casing the configured mode does not change
      the protocol it selects. */
  lemma ResolveModeCaseInsensitive(m: string)
    ensures ResolveMode(Some(ToUpper(m))) == ResolveMode(Some(m))
    ensures ResolveMode(Some(ToLower(m))) == ResolveMode(Some(m))
  {
    ToUpperIdempotent(m);
    ToUpperOfLower(m);
  }

  // ---------------------------------------------------------------------------
  // Special keys
  // ---------------------------------------------------------------------------

  /** The special-key table: DOM key names to remote key codes. `FOWARD_DEL`
      is spelled as the element spells it. */
  const KeyToKey: map<string, string> := map[
    "Backspace" := "DEL",
    "Delete" := "FOWARD_DEL",
    "Enter" := "ENTER",
    "ArrowLeft" := "DPAD_LEFT",
    "ArrowRight" := "DPAD_RIGHT"
  ]

  /** The key code for a pressed key (`keyToKey[e.key ?? '']`); `None` when
      the key is absent or not in the table. */
  function SpecialKey(key: Option<string>): (r: Option<string>)
    ensures r.Some? <==> key.Some? && key.value in KeyToKey
    ensures r.Some? ==> r.value == KeyToKey[key.value] && r.value != ""
  {
    match key
    case Some(k) => if k in KeyToKey then Some(KeyToKey[k]) else None
    case None => None
  }

  /** The table maps exactly the five keys, each to its own code. */
  lemma SpecialKeyTable(k: string)
    ensures SpecialKey(Some("Backspace")) == Some("DEL")
    ensures SpecialKey(Some("Delete")) == Some("FOWARD_DEL")
    ensures SpecialKey(Some("Enter")) == Some("ENTER")
    ensures SpecialKey(Some("ArrowLeft")) == Some("DPAD_LEFT")
    ensures SpecialKey(Some("ArrowRight")) == Some("DPAD_RIGHT")
    ensures k !in ["Backspace", "Delete", "Enter", "ArrowLeft", "ArrowRight"] ==> SpecialKey(Some(k)) == None
    ensures SpecialKey(None) == None && SpecialKey(Some("")) == None
  {
  }

  // ---------------------------------------------------------------------------
  // Text commands
  // ---------------------------------------------------------------------------

  /** What precedes the text in an Android TV text command. */
  const AdbTextPrefix: string := "input text \""

  /** The Android TV shell command for `text`: the text is spliced in
      between double quotes as it is, with nothing escaped. */
  function AdbTextCommand(text: string): (r: string)
    ensures |r| == |text| + 13
    ensures r[..12] == AdbTextPrefix && r[|r| - 1] == '"'
    ensures r[12..|r| - 1] == text
  {
    AdbTextPrefix + text + "\""
  }

  /** Reads the text back out of an Android TV text command: the command
      must start with `input text "` and end with `"`. */
  function ParseAdbText(command: string): Option<string>
  {
    if |command| >= 13 && command[..12] == AdbTextPrefix && command[|command| - 1] == '"'
    then Some(command[12..|command| - 1])
    else None
  }

  /** The command holds the text verbatim: the characters between the
      delimiting quotes are the text. */
  lemma ParseAdbTextRoundTrip(text: string)
    ensures ParseAdbText(AdbTextCommand(text)) == Some(text)
  {
  }

  /** Every command the reader accepts is the command of the text it reads. */
  lemma ParseAdbTextSound(command: string, text: string)
    requires ParseAdbText(command) == Some(text)
    ensures AdbTextCommand(text) == command
  {
  }

  /** Number of occurrences of `c` in `s`. */
  function Count(c: char, s: string): nat
  {
    if s == [] then 0 else (if s[0] == c then 1 else 0) + Count(c, s[1..])
  }

  lemma {:induction false} CountConcat(c: char, a: string, b: string)
    ensures Count(c, a + b) == Count(c, a) + Count(c, b)
  {
    if a == [] {
      assert a + b == b;
    } else {
      assert (a + b)[1..] == a[1..] + b;
      CountConcat(c, a[1..], b);
    }
  }

  lemma {:induction false} CountZero(c: char, s: string)
    ensures Count(c, s) == 0 <==> c !in s
  {
    if s != [] {
      CountZero(c, s[1..]);
      assert s == [s[0]] + s[1..];
    }
  }

  /** Nothing is escaped: the command holds the text's own double quotes
      besides its two delimiting ones, so the command is delimited by exactly
      two quotes only when the text holds none. */
  lemma AdbTextCommandQuotes(text: string)
    ensures Count('"', AdbTextCommand(text)) == Count('"', text) + 2
    ensures Count('"', AdbTextCommand(text)) == 2 <==> '"' !in text
  {
    CountConcat('"', AdbTextPrefix, text);
    CountConcat('"', AdbTextPrefix + text, "\"");
    CountZero('"', text);
  }

  /** Typing `say "hi"` in Android TV mode sends `input text "say "hi""`,
      whose inner quotes close and reopen the quoted argument: the command holds
      more than its two delimiting quotes. */
  lemma AdbTextCommandUnescaped()
    ensures AdbTextCommand("say \"hi\"") == "input text \"say \"hi\"\""
    ensures Count('"', AdbTextCommand("say \"hi\"")) > 2
  {
    var t := "say \"hi\"";
    assert t[4] == '"';
    AdbTextCommandQuotes(t);
  }

  /** The Kodi payload for a piece of text: `Input.SendText` with `done: false`. */
  function KodiTextData(entityId: string, text: string): Data
  {
    map["entity_id" := Str(entityId), "method" := Str("Input.SendText"),
        "text" := Str(text), "done" := Bool(false)]
  }

  /** The Android TV payload for a piece of text. */
  function AdbTextData(entityId: string, text: string): Data
  {
    map["entity_id" := Str(entityId), "command" := Str(AdbTextCommand(text))]
  }

  /** The service call a piece of text becomes in the given mode. */
  function TextCall(mode: Mode, entityId: string, text: string): Call
  {
    match mode
    case Kodi => ServiceCall("kodi", "call_method", KodiTextData(entityId, text))
    case AndroidTv => ServiceCall("androidtv", "adb_command", AdbTextData(entityId, text))
  }

  /** The text a service call carries: the `text` field of a Kodi
      `Input.SendText` call, or the characters between the delimiting quotes
      of an Android TV `input text` command. What the device's shell makes of
      those characters is not modelled. */
  function DecodeText(call: Call): Option<string>
  {
    match call
    case ServiceCall(domain, service, data) =>
      if domain == "kodi" && service == "call_method"
         && "method" in data && data["method"] == Str("Input.SendText")
         && "text" in data && data["text"].Str?
      then Some(data["text"].s)
      else if domain == "androidtv" && service == "adb_command"
         && "command" in data && data["command"].Str?
      then ParseAdbText(data["command"].s)
      else None
    case _ => None
  }

  /** The entity a service call addresses. */
  function EntityOf(call: Call): Option<string>
  {
    if call.ServiceCall? && "entity_id" in call.data && call.data["entity_id"].Str?
    then Some(call.data["entity_id"].s) else None
  }

  /** A text call addresses the keyboard entity, goes to the integration of
      its mode, and holds the text verbatim; Kodi calls say `done: false`. */
  lemma TextCallFaithful(mode: Mode, entityId: string, text: string)
    ensures DecodeText(TextCall(mode, entityId, text)) == Some(text)
    ensures EntityOf(TextCall(mode, entityId, text)) == Some(entityId)
    ensures TextCall(mode, entityId, text).ServiceCall?
    ensures TextCall(mode, entityId, text).domain == "kodi" <==> mode == Kodi
    ensures mode == Kodi ==> TextCall(mode, entityId, text).data["done"] == Bool(false)
  {
  }

  /** Two texts become the same call only when they are the same text. */
  lemma TextCallInjective(mode: Mode, entityId: string, a: string, b: string)
    requires TextCall(mode, entityId, a) == TextCall(mode, entityId, b)
    ensures a == b
  {
    TextCallFaithful(mode, entityId, a);
    TextCallFaithful(mode, entityId, b);
  }

  // ---------------------------------------------------------------------------
  // Dispatch decisions
  // ---------------------------------------------------------------------------

  /** The call a key press dispatches: the key code as a remote command in
      Android TV mode; nothing for Kodi or for a key outside the table. */
  function KeyDispatch(mode: Mode, key: Option<string>): Option<Call>
  {
    match SpecialKey(key)
    case None => None
    case Some(code) =>
      match mode
      case Kodi => None
      case AndroidTv => Some(SendCommand(code))
  }

  /** A key press dispatches exactly when the mode is Android TV and the key
      is in the table, and what it dispatches is that key's code. */
  lemma KeyDispatchIff(mode: Mode, key: Option<string>)
    ensures KeyDispatch(mode, key).Some? <==> mode == AndroidTv && key.Some? && key.value in KeyToKey
    ensures KeyDispatch(mode, key).Some? ==> KeyDispatch(mode, key) == Some(SendCommand(KeyToKey[key.value]))
  {
  }

  /** The call a piece of input or pasted text dispatches: none when the text
      is absent or empty. */
  function TextDispatch(mode: Mode, entityId: string, text: Option<string>): Option<Call>
  {
    match text
    case None => None
    case Some(t) => if t == "" then None else Some(TextCall(mode, entityId, t))
  }

  /** Text dispatches exactly when it is present and non-empty, and the call
      carries exactly that text, verbatim, for the keyboard entity. */
  lemma TextDispatchIff(mode: Mode, entityId: string, text: Option<string>)
    ensures TextDispatch(mode, entityId, text).Some? <==> text.Some? && text.value != ""
    ensures TextDispatch(mode, entityId, text).Some? ==>
      DecodeText(TextDispatch(mode, entityId, text).value) == text
      && EntityOf(TextDispatch(mode, entityId, text).value) == Some(entityId)
  {
  }
}
