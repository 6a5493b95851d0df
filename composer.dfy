/**
 * The message composer of the conversation pane: a local message list, the text being
 * typed and the selected file. Sending appends a message from "me" and clears the input.
 */
module Composer {
  import opened Wrappers
  import opened Strings

  /** A file picked in the browser's file input; only its identity matters here. */
  datatype File = File(name: string)

  /** A message of the local list; `file` is the object URL of the attachment, if any. */
  datatype Message = Message(text: string, sender: string, file: Option<string>)

  const Me: string := "me"

  /** The three messages the conversation starts with. */
  const InitialMessages: seq<Message> := [
    Message("Hey, how are you?", "other", None),
    Message("I'm good, how about you?", Me, None),
    Message("Doing great! What's up?", "other", None)
  ]

  /** `!(message.trim() === "" && !file)`: a send goes through. */
  predicate Accepts(draft: string, file: Option<File>) {
    !(Trim(draft) == "" && file.None?)
  }

  /** A send is accepted exactly when a file is selected or the draft has a non-whitespace character. */
  lemma AcceptsIff(draft: string, file: Option<File>)
    ensures Accepts(draft, file) <==> file.Some? || exists i :: 0 <= i < |draft| && !IsWhitespace(draft[i])
  {
    TrimEmptyIff(draft);
  }

  /** A whitespace-only draft is sent when a file is selected, and refused when none is. */
  lemma WhitespaceDraft(draft: string, f: File)
    requires forall i :: 0 <= i < |draft| ==> IsWhitespace(draft[i])
    ensures Accepts(draft, Some(f))
    ensures !Accepts(draft, None)
  {
    TrimEmptyIff(draft);
  }

  /** The message `sendMessage` appends: the untrimmed draft, from "me", with the file's object URL. */
  function Outgoing(draft: string, file: Option<File>, objectUrl: string): (m: Message)
    ensures m.sender == Me && m.text == draft
    ensures m.file.Some? <==> file.Some?
    ensures file.Some? ==> m.file == Some(objectUrl)
  {
    Message(draft, Me, if file.Some? then Some(objectUrl) else None)
  }

  class Conversation {
    var messages: seq<Message>
    var draft: string
    var file: Option<File>

    constructor ()
      ensures messages == InitialMessages && draft == "" && file == None
    {
      messages := InitialMessages;
      draft := "";
      file := None;
    }

    /** The text input's `onChange`: the draft becomes what was typed. */
    method SetDraft(text: string)
      modifies this
      ensures draft == text && messages == old(messages) && file == old(file)
    {
      draft := text;
    }

    /**
     * `sendMessage`. `objectUrl` stands for what `URL.createObjectURL(file)` returns.
     * A refused send changes nothing; an accepted one appends exactly one message and
     * clears the draft and the file.
     */
    method SendMessage(objectUrl: string) returns (sent: bool)
      modifies this
      ensures sent == Accepts(old(draft), old(file))
      ensures !sent ==> messages == old(messages) && draft == old(draft) && file == old(file)
      ensures sent ==> messages == old(messages) + [Outgoing(old(draft), old(file), objectUrl)]
      ensures sent ==> draft == "" && file == None
      ensures old(messages) <= messages
    {
      if !Accepts(draft, file) {
        return false;
      }
      messages := messages + [Outgoing(draft, file, objectUrl)];
      draft := "";
      file := None;
      sent := true;
    }

    /**
     * `handleFileChange`. When the input reports a file list, the file becomes its first
     * entry; an empty list yields `undefined`, so no file is selected. Without a list,
     * nothing changes.
     */
    method HandleFileChange(files: Option<seq<File>>)
      modifies this
      ensures files.Some? && |files.value| > 0 ==> file == Some(files.value[0])
      ensures files.Some? && |files.value| == 0 ==> file == None
      ensures files.None? ==> file == old(file)
      ensures messages == old(messages) && draft == old(draft)
    {
      if files.Some? {
        file := if |files.value| > 0 then Some(files.value[0]) else None;
      }
    }
  }
}
