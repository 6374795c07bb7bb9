/**
 * What the chat window does with the text in its message input: inserting an
 * emoticon picked from the menu at the selection, and deciding on a key press
 * whether the text becomes an outgoing message.
 */
module ChatInput {
  import opened Wrappers

  function Min(a: nat, b: nat): nat {
    if a <= b then a else b
  }

  /** `s.slice(from, to)` for non-negative offsets: both ends are clamped to the string and crossed ends give the empty string. */
  function Slice(s: string, from: nat, to: nat): (r: string)
    ensures from <= to <= |s| ==> r == s[from..to]
    ensures |r| <= |s|
  {
    var f, t := Min(from, |s|), Min(to, |s|);
    if f <= t then s[f..t] else ""
  }

  /** `s.slice(from)` for a non-negative offset. */
  function SliceFrom(s: string, from: nat): (r: string)
    ensures from <= |s| ==> r == s[from..]
    ensures |r| <= |s|
  {
    s[Min(from, |s|)..]
  }

  // ---------------------------------------------------------------------------
  // Emoticon insertion
  // ---------------------------------------------------------------------------

  /** The input text before the selection. */
  function TextBefore(value: string, selectionStart: nat): string {
    Slice(value, 0, selectionStart)
  }

  /** The input text after the selection. */
  function TextAfter(value: string, selectionEnd: nat): string {
    SliceFrom(value, selectionEnd)
  }

  /** A space goes before the emoticon when the text before it is non-empty and does not already end in a space. */
  predicate NeedsSpaceBefore(before: string) {
    |before| > 0 && before[|before| - 1] != ' '
  }

  /** A space goes after the emoticon when the text after it is non-empty and does not already start with a space. */
  predicate NeedsSpaceAfter(after: string) {
    |after| > 0 && after[0] != ' '
  }

  function Spaces(needed: bool): (r: string)
    ensures |r| == (if needed then 1 else 0)
    ensures forall k :: 0 <= k < |r| ==> r[k] == ' '
  {
    if needed then " " else ""
  }

  /**
   * The new input value after the emoticon `emoticon` is clicked while the input
   * holds `inputValue` (absent reads as the empty string) with the selection
   * [selectionStart, selectionEnd): the selection is replaced by the emoticon,
   * padded by at most one space on each side.
   *
   * The result is determined by its layout: the text before the selection, the
   * optional space, the emoticon, the optional space, the text after.
   */
  function InsertEmoticon(inputValue: Option<string>, selectionStart: nat, selectionEnd: nat, emoticon: string): (r: string)
    ensures var before, after := TextBefore(inputValue.GetOr(""), selectionStart), TextAfter(inputValue.GetOr(""), selectionEnd);
            var b, a := |Spaces(NeedsSpaceBefore(before))|, |Spaces(NeedsSpaceAfter(after))|;
            && |r| == |before| + b + |emoticon| + a + |after|
            && r[..|before|] == before
            && (b == 1 ==> r[|before|] == ' ')
            && r[|before| + b..|before| + b + |emoticon|] == emoticon
            && (a == 1 ==> r[|before| + b + |emoticon|] == ' ')
            && r[|r| - |after|..] == after
  {
    var value := inputValue.GetOr("");
    var before := TextBefore(value, selectionStart);
    var after := TextAfter(value, selectionEnd);
    var r := before + Spaces(NeedsSpaceBefore(before)) + emoticon + Spaces(NeedsSpaceAfter(after)) + after;
    r
  }

  /** For a selection inside the text, everything before its start and after its end survives; the selected text is dropped. */
  lemma InsertEmoticonKeepsSurroundings(value: string, selectionStart: nat, selectionEnd: nat, emoticon: string)
    requires selectionStart <= selectionEnd <= |value|
    ensures var r := InsertEmoticon(Some(value), selectionStart, selectionEnd, emoticon);
            && r[..selectionStart] == value[..selectionStart]
            && r[|r| - (|value| - selectionEnd)..] == value[selectionEnd..]
            && |r| - |value| == |emoticon| - (selectionEnd - selectionStart)
                                + (if NeedsSpaceBefore(value[..selectionStart]) then 1 else 0)
                                + (if NeedsSpaceAfter(value[selectionEnd..]) then 1 else 0)
  {
    assert TextBefore(value, selectionStart) == value[..selectionStart];
    assert TextAfter(value, selectionEnd) == value[selectionEnd..];
  }

  /** After the insertion the emoticon stands as a word of its own: any neighbouring text is separated from it by a space. */
  lemma InsertedEmoticonIsSeparated(inputValue: Option<string>, selectionStart: nat, selectionEnd: nat, emoticon: string)
    ensures var r := InsertEmoticon(inputValue, selectionStart, selectionEnd, emoticon);
            var before, after := TextBefore(inputValue.GetOr(""), selectionStart), TextAfter(inputValue.GetOr(""), selectionEnd);
            var i := |before| + |Spaces(NeedsSpaceBefore(before))|;
            && i + |emoticon| <= |r| && r[i..i + |emoticon|] == emoticon
            && (|before| > 0 ==> r[i - 1] == ' ')
            && (|after| > 0 ==> i + |emoticon| < |r| && r[i + |emoticon|] == ' ')
  {
    var r := InsertEmoticon(inputValue, selectionStart, selectionEnd, emoticon);
    var before, after := TextBefore(inputValue.GetOr(""), selectionStart), TextAfter(inputValue.GetOr(""), selectionEnd);
    var b := |Spaces(NeedsSpaceBefore(before))|;
    var i := |before| + b;
    if |before| > 0 && b == 0 {
      assert r[i - 1] == r[..|before|][|before| - 1];
    }
    if |after| > 0 && !NeedsSpaceAfter(after) {
      assert r[i + |emoticon|] == r[|r| - |after|..][0];
    }
    assert r[i..i + |emoticon|] == emoticon;
  }

  /** Into an empty (or absent) input the emoticon goes in alone, wherever the selection is said to be. */
  lemma InsertIntoEmptyInput(inputValue: Option<string>, selectionStart: nat, selectionEnd: nat, emoticon: string)
    requires inputValue.GetOr("") == ""
    ensures InsertEmoticon(inputValue, selectionStart, selectionEnd, emoticon) == emoticon
  {
  }

  /** When the selection is already bordered by spaces (or by the ends of the text) no space is added. */
  lemma InsertBetweenSpaces(value: string, selectionStart: nat, selectionEnd: nat, emoticon: string)
    requires selectionStart <= selectionEnd <= |value|
    requires selectionStart == 0 || value[selectionStart - 1] == ' '
    requires selectionEnd == |value| || value[selectionEnd] == ' '
    ensures InsertEmoticon(Some(value), selectionStart, selectionEnd, emoticon)
            == value[..selectionStart] + emoticon + value[selectionEnd..]
  {
    assert TextBefore(value, selectionStart) == value[..selectionStart];
    assert TextAfter(value, selectionEnd) == value[selectionEnd..];
  }

  // ---------------------------------------------------------------------------
  // Sending on Enter
  // ---------------------------------------------------------------------------

  const EnterKey: int := 13

  /** The part of a key event the input handler looks at: `ev.which` and `ev.shiftKey`. */
  datatype KeyEvent = KeyEvent(which: int, shiftKey: bool)

  /** The key press submits the input: Enter, without Shift, on a non-empty input. */
  predicate Submits(ev: KeyEvent, text: string) {
    !(ev.which != EnterKey || ev.shiftKey || text == "")
  }

  datatype Direction = In | Out | Sys

  /** What the window knows of its contact when sending. */
  datatype Contact = Contact(jid: string, chatType: string, encrypted: bool)

  /** A chat message as the window creates it. */
  datatype Message = Message(peer: string, direction: Direction, chatType: string, plaintext: string)

  /**
   * The message `sendOutgoingMessage` hands to the 'preSendMessage' pipeline, or
   * None when it refuses: while the contact's conversation is encrypted nothing is
   * created and nothing is sent.
   */
  function OutgoingMessage(contact: Contact, text: string): (r: Option<Message>)
    ensures r.None? <==> contact.encrypted
    ensures r.Some? ==> r.value.plaintext == text && r.value.direction == Out
    ensures r.Some? ==> r.value.peer == contact.jid && r.value.chatType == contact.chatType
  {
    if contact.encrypted then None
    else Some(Message(contact.jid, Out, contact.chatType, text))
  }

  /** The effect of one key press on the message input. */
  datatype KeyPressOutcome = KeyPressOutcome(outgoing: Option<Message>, inputAfter: string, defaultPrevented: bool)

  /**
   * The key-press handler: on a submitting key press the text goes to
   * `sendOutgoingMessage`, the input is emptied and the default action is
   * prevented; on any other key press nothing happens.
   */
  function OnInputKeyPress(ev: KeyEvent, text: string, contact: Contact): (r: KeyPressOutcome)
    ensures r.outgoing.Some? <==> Submits(ev, text) && !contact.encrypted
    ensures r.outgoing.Some? ==> r.outgoing.value.plaintext == text && r.outgoing.value.direction == Out
    ensures r.outgoing == (if Submits(ev, text) then OutgoingMessage(contact, text) else None)
    ensures r.defaultPrevented <==> Submits(ev, text)
    ensures r.inputAfter == (if Submits(ev, text) then "" else text)
  {
    if !Submits(ev, text) then
      KeyPressOutcome(None, text, false)
    else
      KeyPressOutcome(OutgoingMessage(contact, text), "", true)
  }

  /** A message is produced only for Enter (key 13) without Shift on a non-empty input. */
  lemma SentOnlyOnPlainEnter(ev: KeyEvent, text: string, contact: Contact)
    requires OnInputKeyPress(ev, text, contact).outgoing.Some?
    ensures ev.which == 13 && !ev.shiftKey && |text| > 0
  {
  }

  /** Shift+Enter inserts a line break in the input instead: nothing is sent and the input is kept. */
  lemma ShiftEnterKeepsInput(text: string, contact: Contact)
    ensures OnInputKeyPress(KeyEvent(EnterKey, true), text, contact) == KeyPressOutcome(None, text, false)
  {
  }

  /** Enter on an encrypted conversation empties the input, yet nothing is sent. */
  lemma EncryptedEnterDropsInput(text: string, contact: Contact)
    requires contact.encrypted && text != ""
    ensures var r := OnInputKeyPress(KeyEvent(EnterKey, false), text, contact);
            r.outgoing.None? && r.inputAfter == "" && r.defaultPrevented
  {
  }
}
