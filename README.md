# jsxc chat window — a Dafny model of its decision logic

`src/ui/ChatWindow.ts` of jsxc renders one chat conversation in the browser. Most
of it is DOM and jQuery glue; this project pulls out the parts that decide
something and proves what they do:

- **Minimised/normal state machine** (`Window.ChatWindow`): the window element
  carries exactly one of the classes `jsxc-minimized` and `jsxc-normal`;
  `minimize`, `unminimize` and `toggle` switch between them and write the
  boolean `'minimized'` into the window's persisted property map; a new window
  restores its state from that map, and a hook on `'minimized'` follows later
  changes. The property map (`PersistentMaps.PersistentMap`) is modelled only
  through the `get`, `set` and `registerHook` calls the window makes.
- **Emoticon insertion** (`ChatInput.InsertEmoticon`): the selection in the
  message input is replaced by the emoticon, padded by one space on a side whose
  neighbouring text is non-empty and not already a space.
- **Sending on Enter** (`ChatInput.OnInputKeyPress`, `ChatInput.OutgoingMessage`):
  Enter without Shift on a non-empty input submits it; a conversation that is
  encrypted refuses to create the message, but the input is emptied all the same.
- **Transfer-button classes** (`ChatView.ApplyEncryptionState`): the encryption
  state of the conversation as the classes `jsxc-enc`, `jsxc-trust`, `jsxc-fin`.
- **Attachment classes** (`ChatView.AttachmentClasses`): the two classes derived
  from an attachment's MIME type by two regular-expression replacements.
- **History clear trigger** (`ChatView.ClearsWindow`): the history hook clears
  the window when the list of messages becomes empty.

Modules: `Wrappers` (Option), `PersistentMaps`, `ChatInput`, `ChatView`, `Window`.

Notes on reading the code:

- JavaScript's `slice` clamps its offsets to the string and returns the empty
  string for crossed offsets; `Slice`/`SliceFrom` model that, so
  `InsertEmoticon` needs no precondition on the selection.
- In the pattern `^([^/]+)\/.*` the `.` stops at a line terminator (`\n`, `\r`,
  U+2028, U+2029), so only the first line after the slash is dropped;
  `MajorType` models that.
- The start-up test is `get('minimized') === false` while the hook tests
  truthiness; they agree on booleans and on truthy values, and disagree only on
  an absent or a falsy non-boolean value (`StartupAndHookReadings`). An absent
  value starts the window minimised.
- The property map is assumed to hand the hook the new value; whether `set`
  fires hooks on an unchanged value is not visible in this file. The model
  proves instead that the hook, given the value the window itself last wrote,
  changes nothing (`OnMinimizedChanged`), so `minimize` or `unminimize` followed
  by that notification ends as the call alone does (`MinimizeNotified`,
  `UnminimizeNotified`).

## Model

| member | source | states |
|---|---|---|
| `PersistentMaps.Lookup` | src/ui/ChatWindow.ts:85 | `get` on stored values: present exactly when the key was stored, and then the stored value |
| `PersistentMaps.PersistentMap.constructor` | src/ui/ChatWindow.ts:83 | the map opens over what storage holds for the window, with no hooks |
| `PersistentMaps.PersistentMap.Set` | src/ui/ChatWindow.ts:155 | last write wins: the key reads the new value, every other key reads what it read before, hooks unchanged |
| `PersistentMaps.PersistentMap.RegisterHook` | src/ui/ChatWindow.ts:91 | appends a hook for the key, values unchanged |
| `Window.StartupAndHookReadings` | src/ui/ChatWindow.ts:85-96 | the `=== false` start-up test and the truthiness test of the hook agree exactly on booleans and truthy values, and disagree only on an absent or falsy non-boolean value; an absent value starts minimised but the hook would restore |
| `Window.ChatWindow.constructor` | src/ui/ChatWindow.ts:83-114 | starts minimised unless the stored 'minimized' is exactly false; exactly one state class; stored 'minimized' matches; one hook on 'minimized'; other classes and stored keys kept; transfer button shows the contact's encryption state and loses `jsxc-disabled` when an encryption plugin exists |
| `Window.ChatWindow.Minimize` | src/ui/ChatWindow.ts:152-159 | removes `jsxc-normal`, adds `jsxc-minimized`, stores 'minimized' = true, nothing else changes; establishes the window invariant |
| `Window.ChatWindow.Unminimize` | src/ui/ChatWindow.ts:161-187 | removes `jsxc-minimized`, adds `jsxc-normal`, stores 'minimized' = false, nothing else changes; establishes the window invariant |
| `Window.ChatWindow.Toggle` | src/ui/ChatWindow.ts:528-534 | flips the state, keeps exactly one state class and the stored 'minimized' in step, other classes untouched |
| `Window.ChatWindow.OnMinimizedChanged` | src/ui/ChatWindow.ts:91-97 | the window ends minimised exactly when the value is truthy; replaying the value the window itself wrote changes nothing |
| `Window.ChatWindow.MinimizeNotified` | src/ui/ChatWindow.ts:91-97 | `minimize` followed by the hook's notification of the value it stored ends exactly as `minimize` alone: minimised, 'minimized' = true, nothing else changed |
| `Window.ChatWindow.UnminimizeNotified` | src/ui/ChatWindow.ts:91-97 | `unminimize` followed by the hook's notification of the value it stored ends exactly as `unminimize` alone |
| `Window.ChatWindow.UpdateEncryptionState` | src/ui/ChatWindow.ts:536-557 | the transfer button's classes become those of the new state, other classes kept; a warning exactly for an unrecognised state |
| `ChatInput.InsertEmoticon` | src/ui/ChatWindow.ts:601-614 | the result is the text before the selection, an optional space (only where needed), the emoticon, an optional space, and the text after |
| `ChatInput.InsertEmoticonKeepsSurroundings` | src/ui/ChatWindow.ts:603-612 | for a selection inside the text, the text before its start is a prefix and the text after its end a suffix of the result; the selected text is dropped; the length changes by the emoticon, the selection and the spaces added |
| `ChatInput.InsertedEmoticonIsSeparated` | src/ui/ChatWindow.ts:608-612 | after insertion any text next to the emoticon is separated from it by a space |
| `ChatInput.InsertIntoEmptyInput` | src/ui/ChatWindow.ts:602-612 | an empty or absent input becomes exactly the emoticon |
| `ChatInput.InsertBetweenSpaces` | src/ui/ChatWindow.ts:609-611 | where the selection is already bordered by spaces or text ends, no space is added |
| `ChatInput.OutgoingMessage` | src/ui/ChatWindow.ts:492-503 | no message when the contact is encrypted; otherwise an outgoing message to the contact's JID, of the contact's type, carrying the text |
| `ChatInput.OnInputKeyPress` | src/ui/ChatWindow.ts:460-473 | a message goes out iff Enter without Shift on non-empty text to an unencrypted contact; the input is emptied and the default prevented exactly when the key press submits |
| `ChatInput.SentOnlyOnPlainEnter` | src/ui/ChatWindow.ts:463-467 | any message sent came from key 13 without Shift on non-empty input |
| `ChatInput.ShiftEnterKeepsInput` | src/ui/ChatWindow.ts:463-465 | Shift+Enter sends nothing and keeps the input |
| `ChatInput.EncryptedEnterDropsInput` | src/ui/ChatWindow.ts:467-470 | Enter on an encrypted conversation sends nothing yet empties the input |
| `ChatView.StateClasses` | src/ui/ChatWindow.ts:542-556 | the classes of a state are among `jsxc-fin`/`jsxc-enc`/`jsxc-trust`; trust only with enc; fin alone; none exactly for plaintext and unrecognised states |
| `ChatView.ApplyEncryptionState` | src/ui/ChatWindow.ts:540-556 | the owned classes are replaced by the state's, all others kept |
| `ChatView.ShownStateAfterUpdate` | src/ui/ChatWindow.ts:540-556 | the classes read back as the state applied (an unrecognised state as plaintext), whatever was there before |
| `ChatView.LatestEncryptionStateWins` | src/ui/ChatWindow.ts:540-556 | two updates in a row equal the second alone |
| `ChatView.RecognisedStatesDistinct` | src/ui/ChatWindow.ts:542-553 | the four recognised states have four different class sets |
| `ChatView.IndexOf` | src/ui/ChatWindow.ts:268-269 | the first occurrence of a character, or none when absent |
| `ChatView.SlashToDash` | src/ui/ChatWindow.ts:268 | only the first slash changes, into a dash; length kept |
| `ChatView.MajorType` | src/ui/ChatWindow.ts:269 | unchanged without a slash or with a leading slash; otherwise the part before the first slash is kept, the slash and the rest of its line dropped, later lines kept |
| `ChatView.AttachmentClasses` | src/ui/ChatWindow.ts:267-269 | three classes, the first `jsxc-attachment` |
| `ChatView.SlashToDashOfTypeSubtype` | src/ui/ChatWindow.ts:268 | `type/subtype` becomes `type-subtype` |
| `ChatView.MajorTypeOfTypeSubtype` | src/ui/ChatWindow.ts:269 | a one-line `type/subtype` reduces to `type` |
| `ChatView.AttachmentClassesOfTypeSubtype` | src/ui/ChatWindow.ts:267-269 | a one-line `type/subtype` yields `jsxc-type-subtype` and `jsxc-type` |
| `ChatView.AttachmentClassesWithoutMajorType` | src/ui/ChatWindow.ts:268-269 | a type without a slash or with a leading slash is used unchanged in the third class; in the second class only a type without a slash is unchanged |
| `ChatView.ClearsWindow` | src/ui/ChatWindow.ts:69-73 | the window clears only on a change that shrinks the history to the empty list |
| `ChatView.PushNeverClears` | src/ui/ChatWindow.ts:69-73 | appending a message to the history never clears the window |
| `ChatView.EmptyingClearsIffNonEmpty` | src/ui/ChatWindow.ts:69-73 | emptying the history clears the window exactly when the history was non-empty |
| `ChatView.FirstNotificationNeverClears` | src/ui/ChatWindow.ts:70-72 | a notification without an old list (read as empty) never clears |
| `ChatView.NoClearTwiceInARow` | src/ui/ChatWindow.ts:69-73 | two successive history notifications never both clear |

## Left out

- Rendering in `postMessage`, `addActionEntry`, `addMenuEntry`, `registerHandler`, `registerInputHandler`, `highlight`, `close`: DOM construction and presentation choices — the unread mark on an incoming message while the input is unfocused, the per-message `jsxc-received`/`jsxc-forwarded`/`jsxc-encrypted`/`jsxc-error` classes, hiding the avatar of consecutive messages from one sender, focusing the input on a click only when no text is selected, and highlighting only a window not already highlighted — are not modelled; only the attachment classes are.
- `onInputKeyUp` (resize on a non-Enter key, close on Escape) and `onInputFocus`/`onInputBlur`: timers and layout.
- `resizeInputArea`, `resizeMessageArea`, `fullsizeMessageArea`, `scrollMessageAreaToBottom`, and the scroll and input focus in `unminimize`: measured pixel sizes and DOM focus.
- The extra-small-device branch of `unminimize`: its body does nothing.
- The resizable message area's start/stop handlers, which remove and re-add `jsxc-normal` while a resize is dragged: layout glue; the state-machine invariant is stated for the window outside a drag.
- The 'preSendMessage' pipeline run, `message.save`, the push into the history and `sendMessage` on the connection: asynchronous calls into code that is not part of this model; `OutgoingMessage` stops at the message handed to the pipeline.
- The 'theAnswerToAnything' reply to '?': randomness and a global options store.
- `clear`, `receiveIncomingMessage`, `addSystemMessage`, `restoreLocalHistory`: the sorted persisted history map they drive is not part of this model; only the clear trigger is.
- The property map's storage and its hook dispatch: not part of this model; only `get`, `set` and `registerHook` as the window uses them.
- Contact hooks for name and presence, the avatar, dialogs, calls and the commented-out legacy block: foreign calls and presentation.
- InsertEmoticon: counts selection offsets in characters, whereas the browser counts UTF-16 code units.
- AttachmentClasses: gives only the classes derived from the MIME type; the `jsxc-persistent` class added for a persistent attachment is not modelled, nor that `addClass` splits a class string containing whitespace into several classes.
- OnInputKeyPress: takes the input value as a string (the source casts `val()` to one) and does not model the height reset of the input.
