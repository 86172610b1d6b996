/** The remote keyboard element: a hidden proxy input that catches key
    presses, typed and composed text and pastes, and turns each into a remote
    command through the translator. */
module RemoteKeyboardElement {
  import opened Wrappers
  import opened Payload
  import opened Translator

  /** The marker colour while the input has focus. */
  const ActiveColor: string := "var(--state-active-color)"
  /** The input's z-index while it has focus. */
  const RaisedZIndex: string := "9"
  /** The container's z-index while the input has focus. */
  const ContainerZIndex: string := "1"
  /** An inline style that is not set. */
  const Unset: string := ""

  class RemoteKeyboard {
    // configuration of the element
    var keyboardMode: Option<string>
    var keyboardId: string

    // the hidden proxy input and its surroundings
    var value: string          // the input's value
    var focused: bool          // whether the input has focus
    var markerColor: string    // style.color of the sibling marker
    var inputZIndex: string    // style.zIndex of the input
    var parentZIndex: string   // style.zIndex of the input's container

    /** Every call dispatched so far, through the host's service call, the
        base element's remote command, or the haptic feedback request. */
    var calls: seq<Call>

    /** The styles of the focused input. */
    predicate StylesActive()
      reads this
    {
      markerColor == ActiveColor && inputZIndex == RaisedZIndex && parentZIndex == ContainerZIndex
    }

    /** The styles of the unfocused input: no inline overrides. */
    predicate StylesUnset()
      reads this
    {
      markerColor == Unset && inputZIndex == Unset && parentZIndex == Unset
    }

    /** The marker colour and both z-indices mirror the focus state. */
    ghost predicate Valid()
      reads this
    {
      if focused then StylesActive() else StylesUnset()
    }

    constructor (mode: Option<string>, entityId: string)
      ensures Valid()
      ensures keyboardMode == mode && keyboardId == entityId
      ensures value == "" && !focused && StylesUnset() && calls == []
    {
      keyboardMode, keyboardId := mode, entityId;
      value, focused := "", false;
      markerColor, inputZIndex, parentZIndex := Unset, Unset, Unset;
      calls := [];
    }

    /** The focus event: the input has gained focus. Clears the value, colours
        the marker and raises the input above its container. */
    method OnFocus()
      modifies this
      ensures Valid()
      ensures focused && value == "" && StylesActive()
      ensures keyboardMode == old(keyboardMode) && keyboardId == old(keyboardId) && calls == old(calls)
    {
      focused := true;
      value := "";
      markerColor := ActiveColor;
      inputZIndex := RaisedZIndex;
      parentZIndex := ContainerZIndex;
    }

    /** The focusout event: the input has lost focus. Clears the value and
        removes the three style overrides. */
    method OnFocusOut()
      modifies this
      ensures Valid()
      ensures !focused && value == "" && StylesUnset()
      ensures keyboardMode == old(keyboardMode) && keyboardId == old(keyboardId) && calls == old(calls)
    {
      focused := false;
      value := "";
      markerColor := Unset;
      inputZIndex := Unset;
      parentZIndex := Unset;
    }

    /** `blur()`: when the input has focus, it loses it and its focusout
        handler runs; otherwise nothing happens. */
    method Blur()
      requires Valid()
      modifies this
      ensures Valid() && !focused
      ensures old(focused) ==> value == ""
      ensures !old(focused) ==> value == old(value)
      ensures keyboardMode == old(keyboardMode) && keyboardId == old(keyboardId) && calls == old(calls)
    {
      if focused {
        OnFocusOut();
      }
    }

    /** `focus()`: when the input does not have focus, it gains it and its
        focus handler runs; otherwise nothing happens. */
    method Focus()
      requires Valid()
      modifies this
      ensures Valid() && focused && StylesActive()
      ensures !old(focused) ==> value == ""
      ensures old(focused) ==> value == old(value)
      ensures keyboardMode == old(keyboardMode) && keyboardId == old(keyboardId) && calls == old(calls)
    {
      if !focused {
        OnFocus();
      }
    }

    /** A tap on the capture surface: a light haptic pulse, then focus moves
        to the hidden input. */
    method OnClick()
      requires Valid()
      modifies this
      ensures Valid() && focused && StylesActive()
      ensures calls == old(calls) + [Haptic("light")]
      ensures !old(focused) ==> value == ""
      ensures old(focused) ==> value == old(value)
      ensures keyboardMode == old(keyboardMode) && keyboardId == old(keyboardId)
    {
      calls := calls + [Haptic("light")];
      Focus();
    }

    /** A key press. A key in the special-key table first clears a non-empty
        value by blurring, clearing and refocusing the input; in Android TV
        mode its code is then sent. Any other key changes nothing. */
    method OnKeyDown(key: Option<string>)
      requires Valid()
      modifies this
      ensures Valid()
      ensures calls == old(calls) + Emitted(KeyDispatch(ResolveMode(old(keyboardMode)), key))
      ensures SpecialKey(key).Some? ==> value == ""
      ensures SpecialKey(key).Some? && old(value) != "" ==> focused && StylesActive()
      ensures SpecialKey(key).None? || old(value) == "" ==>
        value == old(value) && focused == old(focused) && markerColor == old(markerColor)
        && inputZIndex == old(inputZIndex) && parentZIndex == old(parentZIndex)
      ensures keyboardMode == old(keyboardMode) && keyboardId == old(keyboardId)
    {
      var code := SpecialKey(key);
      if code.Some? {
        if value != "" {
          Blur();
          value := "";
          Focus();
        }
        calls := calls + Emitted(KeyDispatch(ResolveMode(keyboardMode), key));
      }
    }

    /** Typed or composed text (`InputEvent.data`): present, non-empty text is
        sent to the keyboard entity in the current mode. The value is left as
        it is. */
    method OnInput(data: Option<string>)
      requires Valid()
      modifies this`calls
      ensures Valid()
      ensures calls == old(calls) + Emitted(TextDispatch(ResolveMode(keyboardMode), keyboardId, data))
    {
      calls := calls + Emitted(TextDispatch(ResolveMode(keyboardMode), keyboardId, data));
    }

    /** A paste (the clipboard's plain text, if any): present, non-empty text
        is sent as typed text would be; then, whatever was pasted, the input
        is blurred, cleared and refocused. */
    method OnPaste(clipboard: Option<string>)
      requires Valid()
      modifies this
      ensures Valid()
      ensures calls == old(calls) + Emitted(TextDispatch(ResolveMode(old(keyboardMode)), old(keyboardId), clipboard))
      ensures value == "" && focused && StylesActive()
      ensures keyboardMode == old(keyboardMode) && keyboardId == old(keyboardId)
    {
      calls := calls + Emitted(TextDispatch(ResolveMode(keyboardMode), keyboardId, clipboard));
      Blur();
      value := "";
      Focus();
    }
  }

  /** Focusing and then unfocusing the input leaves no style override behind
      and dispatches nothing. */
  method FocusRoundTrip(k: RemoteKeyboard)
    modifies k
    ensures k.Valid() && !k.focused && k.value == "" && k.StylesUnset()
    ensures k.calls == old(k.calls)
    ensures k.keyboardMode == old(k.keyboardMode) && k.keyboardId == old(k.keyboardId)
  {
    k.OnFocus();
    k.OnFocusOut();
  }

  /** Pasting the same text twice dispatches the same call twice. */
  method PasteTwice(k: RemoteKeyboard, text: string)
    requires k.Valid() && text != ""
    modifies k
    ensures |k.calls| == |old(k.calls)| + 2
    ensures k.calls[..|old(k.calls)|] == old(k.calls)
    ensures k.keyboardMode == old(k.keyboardMode) && k.keyboardId == old(k.keyboardId)
    ensures k.calls[|k.calls| - 1] == k.calls[|k.calls| - 2]
    ensures DecodeText(k.calls[|k.calls| - 1]) == Some(text)
  {
    k.OnPaste(Some(text));
    k.OnPaste(Some(text));
    TextDispatchIff(ResolveMode(k.keyboardMode), k.keyboardId, Some(text));
  }

  /** Mode unset: Enter sends the remote command ENTER; Tab, which is not in
      the table, sends nothing. */
  method ScenarioEnterThenTab()
  {
    var k := new RemoteKeyboard(None, "media_player.tv");
    k.OnClick();
    k.OnKeyDown(Some("Enter"));
    assert k.calls == [Haptic("light"), SendCommand("ENTER")];
    k.OnKeyDown(Some("Tab"));
    assert k.calls == [Haptic("light"), SendCommand("ENTER")];
  }

  /** Mode "Kodi": Backspace clears a pending value but sends nothing; pasted
      "hello" becomes one Input.SendText call and the input ends empty and
      focused. */
  method ScenarioKodi()
  {
    var k := new RemoteKeyboard(Some("Kodi"), "media_player.kodi");
    assert ResolveMode(k.keyboardMode) == Kodi by {
      assert KodiSpelling("Kodi");
      ResolveModeKodiIff("Kodi");
    }
    k.OnFocus();
    k.value := "x";
    k.OnKeyDown(Some("Backspace"));
    assert k.calls == [] && k.value == "" && k.focused;
    k.OnPaste(Some("hello"));
    assert TextDispatch(Kodi, "media_player.kodi", Some("hello")) == Some(TextCall(Kodi, "media_player.kodi", "hello"));
    assert k.calls == [ServiceCall("kodi", "call_method", KodiTextData("media_player.kodi", "hello"))];
    assert k.value == "" && k.focused;
  }

  /** Mode "android tv": typed `say "hi"` goes through with its quotes
      unescaped; an empty or absent input event sends nothing. */
  method ScenarioAndroidTvText()
  {
    var k := new RemoteKeyboard(Some("android tv"), "media_player.tv");
    assert ResolveMode(k.keyboardMode) == AndroidTv by {
      assert |"android tv"| == 10;
      ResolveModeDefault("android tv");
    }
    var typed := "say \"hi\"";
    k.OnInput(Some(typed));
    assert TextDispatch(AndroidTv, "media_player.tv", Some(typed)) == Some(TextCall(AndroidTv, "media_player.tv", typed));
    assert k.calls == [ServiceCall("androidtv", "adb_command", AdbTextData("media_player.tv", typed))];
    AdbTextCommandUnescaped();
    assert AdbTextData("media_player.tv", typed)["command"] == Str("input text \"say \"hi\"\"");
    k.OnInput(Some(""));
    k.OnInput(None);
    assert |k.calls| == 1;
  }
}
