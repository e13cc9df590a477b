/** The message box of src/components/chat/ChatInput.tsx: the text typed so
    far, the submit guard and the Enter rule. */
module ChatInput {
  import opened Wrappers
  import opened Text

  /** The text `handleSubmit` passes on for `message` typed into a box that is
      (or is not) disabled: the trimmed text, unless it is empty or the box is
      disabled. */
  function Submission(message: string, disabled: bool): (r: Option<string>)
    ensures r.Some? <==> !disabled && !Blank(message)
    ensures r.Some? ==> && r.value == Trim(message, IsJsWhitespace) && r.value != []
                        && !IsJsWhitespace(r.value[0]) && !IsJsWhitespace(r.value[|r.value| - 1])
  {
    var trimmed := Trim(message, IsJsWhitespace);
    TrimEmptyIff(message, IsJsWhitespace);
    TrimEdges(message, IsJsWhitespace);
    if trimmed == [] || disabled then None else Some(trimmed)
  }

  /** Every character is JavaScript whitespace (so `trim` leaves nothing). */
  predicate Blank(s: string) {
    forall k :: 0 <= k < |s| ==> IsJsWhitespace(s[k])
  }

  /** `e.key === 'Enter' && !e.shiftKey`: the keys that submit. */
  predicate SubmitsOnKey(key: string, shift: bool) {
    key == "Enter" && !shift
  }

  class InputBox {
    var message: string
    /** The `disabled` prop. */
    const disabled: bool

    constructor (disabled: bool)
      ensures message == [] && this.disabled == disabled
    {
      message := [];
      this.disabled := disabled;
    }

    /** The textarea's `onChange`. */
    method Edit(text: string)
      modifies this
      ensures message == text
    {
      message := text;
    }

    /** `handleSubmit`: `sent` is what `onSend` receives, at most once per call;
        on acceptance the box is cleared. */
    method HandleSubmit() returns (sent: Option<string>)
      modifies this
      ensures sent == Submission(old(message), disabled)
      ensures message == if sent.Some? then [] else old(message)
    {
      var trimmed := Trim(message, IsJsWhitespace);
      if trimmed == [] || disabled {
        return None;
      }
      sent := Some(trimmed);
      message := [];
    }

    /** `handleKeyDown`: Enter without Shift submits; every other key, and
        Shift+Enter, leaves the box alone. */
    method HandleKeyDown(key: string, shift: bool) returns (sent: Option<string>)
      modifies this
      ensures SubmitsOnKey(key, shift) ==> sent == Submission(old(message), disabled)
      ensures !SubmitsOnKey(key, shift) ==> sent == None && message == old(message)
      ensures SubmitsOnKey(key, shift) ==> message == (if sent.Some? then [] else old(message))
    {
      sent := None;
      if key == "Enter" && !shift {
        sent := HandleSubmit();
      }
    }
  }

  /** Right after an accepted submit, a second Enter sends nothing; after a
      refused one it is refused again and the text stays. */
  method ClientSubmitTwice(box: InputBox) returns (first: Option<string>, second: Option<string>)
    modifies box
    ensures first.Some? ==> second == None && box.message == []
    ensures first.None? ==> second == None && box.message == old(box.message)
  {
    first := box.HandleSubmit();
    second := box.HandleKeyDown("Enter", false);
  }
}
