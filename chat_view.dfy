/**
 * The pieces of the chat window's rendering that are decisions rather than
 * drawing: which classes mark the encryption state on the transfer button, which
 * classes an attachment gets from its MIME type, and when a change of the message
 * history clears the window.
 */
module ChatView {
  import opened Wrappers

  // ---------------------------------------------------------------------------
  // Encryption state of the conversation
  // ---------------------------------------------------------------------------

  /** The conversation's encryption state; any other value the hook may deliver is `Unrecognised`. */
  datatype EncryptionState = Plaintext | UnverifiedEncrypted | VerifiedEncrypted | Ended | Unrecognised(code: int)

  const FinClass: string := "jsxc-fin"
  const EncClass: string := "jsxc-enc"
  const TrustClass: string := "jsxc-trust"

  /** The classes `updateEncryptionState` owns on the transfer element. */
  const EncryptionClasses: set<string> := {FinClass, EncClass, TrustClass}

  /** The classes that mark `state`; an unrecognised state (which is logged as a warning) marks nothing, like plaintext. */
  function StateClasses(state: EncryptionState): (r: set<string>)
    ensures r <= EncryptionClasses
    ensures TrustClass in r ==> EncClass in r
    ensures FinClass in r ==> r == {FinClass}
    ensures r == {} <==> state.Plaintext? || state.Unrecognised?
  {
    match state
    case Plaintext => {}
    case UnverifiedEncrypted => {EncClass}
    case VerifiedEncrypted => {EncClass, TrustClass}
    case Ended => {FinClass}
    case Unrecognised(_) => {}
  }

  /** The transfer element's classes after `updateEncryptionState(state)`: the three owned classes are replaced, the rest are kept. */
  function ApplyEncryptionState(classes: set<string>, state: EncryptionState): (r: set<string>)
    ensures r - EncryptionClasses == classes - EncryptionClasses
    ensures r * EncryptionClasses == StateClasses(state)
  {
    (classes - EncryptionClasses) + StateClasses(state)
  }

  /** The state a reader of the transfer element's classes sees. */
  function ShownState(classes: set<string>): EncryptionState {
    if FinClass in classes then Ended
    else if TrustClass in classes then VerifiedEncrypted
    else if EncClass in classes then UnverifiedEncrypted
    else Plaintext
  }

  /** The classes show the last state applied, whatever the element carried before; an unrecognised state shows as plaintext. */
  lemma ShownStateAfterUpdate(classes: set<string>, state: EncryptionState)
    ensures ShownState(ApplyEncryptionState(classes, state)) == if state.Unrecognised? then Plaintext else state
  {
  }

  /** Only the latest update matters: updating twice is the same as updating once with the second state. */
  lemma LatestEncryptionStateWins(classes: set<string>, first: EncryptionState, second: EncryptionState)
    ensures ApplyEncryptionState(ApplyEncryptionState(classes, first), second) == ApplyEncryptionState(classes, second)
  {
  }

  /** The four recognised states are told apart by their classes. */
  lemma RecognisedStatesDistinct(s: EncryptionState, t: EncryptionState)
    requires !s.Unrecognised? && !t.Unrecognised? && s != t
    ensures StateClasses(s) != StateClasses(t)
  {
    ShownStateAfterUpdate({}, s);
    ShownStateAfterUpdate({}, t);
  }

  // ---------------------------------------------------------------------------
  // Attachment classes from the MIME type
  // ---------------------------------------------------------------------------

  /** The index of the first `c` in `s`. */
  function IndexOf(s: string, c: char): (r: Option<nat>)
    ensures r.Some? ==> r.value < |s| && s[r.value] == c && c !in s[..r.value]
    ensures r.None? <==> c !in s
  {
    if |s| == 0 then None
    else if s[0] == c then Some(0)
    else match IndexOf(s[1..], c)
      case None => None
      case Some(i) =>
        assert s[..i + 1] == [s[0]] + s[1..][..i];
        Some(i + 1)
  }

  /** The first `c` in `s` is where `s` is split as `t + [c] + u` with no `c` in `t`. */
  lemma IndexOfSplit(t: string, c: char, u: string)
    requires c !in t
    ensures IndexOf(t + [c] + u, c) == Some(|t|)
  {
    var s := t + [c] + u;
    assert s[|t|] == c;
    assert s[..|t|] == t;
  }

  /** `mimeType.replace(/\//, '-')`: the first slash, if any, becomes a dash. */
  function SlashToDash(mimeType: string): (r: string)
    ensures |r| == |mimeType|
    ensures forall k :: 0 <= k < |r| ==> r[k] == (if IndexOf(mimeType, '/') == Some(k) then '-' else mimeType[k])
  {
    match IndexOf(mimeType, '/')
    case None => mimeType
    case Some(i) => mimeType[..i] + "-" + mimeType[i + 1..]
  }

  /** The characters JavaScript's `.` does not match. */
  predicate IsLineTerminator(c: char) {
    c == '\n' || c == '\r' || c == '\U{2028}' || c == '\U{2029}'
  }

  /** How many characters `.*` consumes from the start of `s`: up to the first line terminator. */
  function LineLength(s: string): (n: nat)
    ensures n <= |s|
    ensures forall k :: 0 <= k < n ==> !IsLineTerminator(s[k])
    ensures n < |s| ==> IsLineTerminator(s[n])
  {
    if |s| == 0 || IsLineTerminator(s[0]) then 0 else 1 + LineLength(s[1..])
  }

  /**
   * `mimeType.replace` with the pattern `^([^/]+)\/.*` and the replacement `$1`: when the type starts with a
   * non-empty run of non-slashes and a slash, the run is kept and the slash and
   * the rest of the first line are dropped; otherwise the type is unchanged.
   */
  function MajorType(mimeType: string): (r: string)
    ensures IndexOf(mimeType, '/') == None || IndexOf(mimeType, '/') == Some(0) ==> r == mimeType
    ensures IndexOf(mimeType, '/').Some? && IndexOf(mimeType, '/').value > 0 ==>
              var i := IndexOf(mimeType, '/').value;
              var rest := |r| - i;
              && i <= |r| < |mimeType|
              && r[..i] == mimeType[..i]
              && r[i..] == mimeType[|mimeType| - rest..]
              && (rest > 0 ==> IsLineTerminator(r[i]))
              && (forall k :: i < k < |mimeType| - rest ==> !IsLineTerminator(mimeType[k]))
  {
    match IndexOf(mimeType, '/')
    case None => mimeType
    case Some(i) =>
      if i == 0 then mimeType
      else mimeType[..i] + mimeType[i + 1 + LineLength(mimeType[i + 1..])..]
  }

  const AttachmentClass: string := "jsxc-attachment"

  /** The classes `postMessage` derives for an attachment from its MIME type `mimeType`, in order. */
  function AttachmentClasses(mimeType: string): (r: seq<string>)
    ensures |r| == 3 && r[0] == AttachmentClass
  {
    [AttachmentClass, "jsxc-" + SlashToDash(mimeType), "jsxc-" + MajorType(mimeType)]
  }

  /** `.*` consumes the whole of a string that has no line terminator. */
  lemma {:induction false} LineLengthOfLine(s: string)
    requires forall k :: 0 <= k < |s| ==> !IsLineTerminator(s[k])
    ensures LineLength(s) == |s|
  {
    if |s| > 0 {
      LineLengthOfLine(s[1..]);
    }
  }

  /** In a well-formed `type/subtype` the slash becomes a dash. */
  lemma SlashToDashOfTypeSubtype(major: string, sub: string)
    requires '/' !in major
    ensures SlashToDash(major + "/" + sub) == major + "-" + sub
  {
    var m := major + "/" + sub;
    IndexOfSplit(major, '/', sub);
    assert m[..|major|] == major && m[|major| + 1..] == sub;
  }

  /** A well-formed one-line `type/subtype` reduces to its type. */
  lemma MajorTypeOfTypeSubtype(major: string, sub: string)
    requires major != [] && '/' !in major
    requires forall k :: 0 <= k < |sub| ==> !IsLineTerminator(sub[k])
    ensures MajorType(major + "/" + sub) == major
  {
    var m := major + "/" + sub;
    IndexOfSplit(major, '/', sub);
    assert m[..|major|] == major && m[|major| + 1..] == sub;
    LineLengthOfLine(sub);
  }

  /** A well-formed one-line `type/subtype` yields the classes `jsxc-type-subtype` and `jsxc-type`. */
  lemma AttachmentClassesOfTypeSubtype(major: string, sub: string)
    requires major != [] && '/' !in major
    requires forall k :: 0 <= k < |sub| ==> !IsLineTerminator(sub[k])
    ensures AttachmentClasses(major + "/" + sub) == [AttachmentClass, "jsxc-" + major + "-" + sub, "jsxc-" + major]
  {
    SlashToDashOfTypeSubtype(major, sub);
    MajorTypeOfTypeSubtype(major, sub);
    assert "jsxc-" + (major + "-" + sub) == "jsxc-" + major + "-" + sub;
  }

  /** A type without a slash, or one that starts with a slash, is used as it is in the third class; without a slash also in the second. */
  lemma AttachmentClassesWithoutMajorType(mimeType: string)
    requires '/' !in mimeType || mimeType[0] == '/'
    ensures AttachmentClasses(mimeType)[2] == "jsxc-" + mimeType
    ensures '/' !in mimeType ==> AttachmentClasses(mimeType)[1] == "jsxc-" + mimeType
  {
    if '/' in mimeType {
      IndexOfSplit([], '/', mimeType[1..]);
      assert [] + ['/'] + mimeType[1..] == mimeType;
    }
  }

  // ---------------------------------------------------------------------------
  // History changes that clear the window
  // ---------------------------------------------------------------------------

  /**
   * The history hook clears the window when the new list of message ids is empty
   * and the old one (a missing old list counts as empty) was not: only a change
   * that shrinks the history to nothing clears.
   */
  predicate ClearsWindow(newMessages: seq<string>, oldMessages: Option<seq<string>>): (r: bool)
    ensures r ==> newMessages == [] && |newMessages| < |oldMessages.GetOr([])|
  {
    var old' := oldMessages.GetOr([]);
    |newMessages| == 0 && |old'| > 0
  }

  /** Pushing a message onto the history never clears the window. */
  lemma PushNeverClears(history: seq<string>, id: string)
    ensures !ClearsWindow(history + [id], Some(history))
  {
  }

  /** Emptying the history clears the window exactly when there was something to empty. */
  lemma EmptyingClearsIffNonEmpty(history: seq<string>)
    ensures ClearsWindow([], Some(history)) <==> history != []
  {
  }

  /** The first notification, which has no old list, never clears. */
  lemma FirstNotificationNeverClears(newMessages: seq<string>)
    ensures !ClearsWindow(newMessages, None)
  {
  }

  /** Two successive history notifications never both clear the window. */
  lemma NoClearTwiceInARow(first: seq<string>, firstOld: Option<seq<string>>, second: seq<string>)
    requires ClearsWindow(first, firstOld)
    ensures !ClearsWindow(second, Some(first))
  {
  }
}
