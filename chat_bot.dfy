/** The chat window's conversation state (components/ChatBot.tsx): the
    transcript, the input box, the loading flag and the chat session, and how a
    send streams the reply into the last message. */
module ChatBot {
  import opened Text

  datatype Role = User | Ai

  /** A transcript entry; a missing `isStreaming` is `false`. */
  datatype Message = Message(role: Role, text: string, isStreaming: bool)

  /** The greeting the transcript starts with. */
  const Welcome := "SafeClick SOC Analyst Online. Systems synchronized. Upload telemetry or describe suspicious activity for immediate forensic audit."

  /** What replaces the reply when the request or the stream fails. */
  const UplinkError := "CRITICAL_ERROR: AI core uplink severed. Check network protocols."

  /** `customMsg || input`: the caller's message unless it is missing or empty. */
  function ChosenMessage(customMsg: Option<string>, input: string): (m: string)
    ensures m == input || (customMsg.Some? && m == customMsg.value)
    ensures customMsg.Some? && customMsg.value != "" ==> m == customMsg.value
    ensures m == "" ==> input == ""
  {
    OrElse(customMsg, input)
  }

  /** The guard of `handleSend`: a message that is not whitespace only, an
      open session and no request in flight. */
  predicate CanSend(userMsg: string, hasSession: bool, isLoading: bool) {
    !IsBlank(userMsg) && hasSession && !isLoading
  }

  /** The guard is the source's `userMsg.trim()` test: a message is refused
      exactly when it trims to nothing, there is no session, or a request is
      loading. */
  lemma SendGuard(userMsg: string, hasSession: bool, isLoading: bool)
    ensures CanSend(userMsg, hasSession, isLoading) <==> Trim(userMsg) != "" && hasSession && !isLoading
  {
    TrimEmptyIffBlank(userMsg);
  }

  /** The reply text accumulated from the chunks, in order (`fullText += chunk`). */
  function Streamed(chunks: seq<string>): string
    decreases |chunks|
  {
    if chunks == [] then "" else Streamed(chunks[..|chunks| - 1]) + chunks[|chunks| - 1]
  }

  /** Accumulating chunk by chunk is concatenating them all: how the stream is
      cut into chunks does not matter. */
  lemma {:induction false} StreamedConcat(a: seq<string>, b: seq<string>)
    ensures Streamed(a + b) == Streamed(a) + Streamed(b)
    decreases |b|
  {
    if b == [] {
      assert a + b == a;
    } else {
      var b' := b[..|b| - 1];
      DropLastOfConcat(a, b);
      StreamedConcat(a, b');
      ConcatAssoc(Streamed(a), Streamed(b'), b[|b| - 1]);
    }
  }

  lemma DropLastOfConcat(a: seq<string>, b: seq<string>)
    requires b != []
    ensures (a + b)[..|a + b| - 1] == a + b[..|b| - 1] && (a + b)[|a + b| - 1] == b[|b| - 1]
  {
  }

  lemma ConcatAssoc(x: string, y: string, z: string)
    ensures (x + y) + z == x + (y + z)
  {
  }

  lemma StreamedStep(chunks: seq<string>, i: nat)
    requires i < |chunks|
    ensures Streamed(chunks[..i + 1]) == Streamed(chunks[..i]) + chunks[i]
  {
    assert chunks[..i + 1][..i] == chunks[..i];
  }

  /** Empty chunks add nothing to the reply. */
  lemma StreamedSkipsEmpty(a: seq<string>)
    ensures Streamed(a + [""]) == Streamed(a)
  {
    assert (a + [""])[..|a|] == a;
  }

  /** What the model's stream does: the chunks it delivers, and whether it then
      ends normally or fails (failing before any chunk is `chunks == []`). */
  datatype Stream = Stream(chunks: seq<string>, completes: bool)

  /** The text of the reply once the send has settled. */
  function FinalReply(s: Stream): string {
    if s.completes then Streamed(s.chunks) else UplinkError
  }

  /** The transcript after an accepted send has settled: the user's message and
      the settled reply appended. */
  function AfterSend(prev: seq<Message>, userMsg: string, s: Stream): seq<Message> {
    prev + [Message(User, userMsg, false), Message(Ai, FinalReply(s), false)]
  }

  /** A settled send keeps the earlier transcript, adds exactly two entries and
      leaves nothing streaming. */
  lemma AfterSendShape(prev: seq<Message>, userMsg: string, s: Stream)
    requires forall k :: 0 <= k < |prev| ==> !prev[k].isStreaming
    ensures |AfterSend(prev, userMsg, s)| == |prev| + 2
    ensures AfterSend(prev, userMsg, s)[..|prev|] == prev
    ensures forall k :: 0 <= k < |AfterSend(prev, userMsg, s)| ==> !AfterSend(prev, userMsg, s)[k].isStreaming
    ensures AfterSend(prev, userMsg, s)[|prev|] == Message(User, userMsg, false)
  {
  }

  /** A completed reply is the concatenation of the chunks, however many were
      empty; a failed one is the fixed error text, whatever had arrived. */
  lemma FinalReplyText(chunks: seq<string>, completes: bool)
    ensures completes ==> FinalReply(Stream(chunks, completes)) == Streamed(chunks)
    ensures completes ==> FinalReply(Stream(chunks + [""], completes)) == Streamed(chunks)
    ensures !completes ==> FinalReply(Stream(chunks, completes)) == UplinkError
  {
    StreamedSkipsEmpty(chunks);
  }

  class ChatWindow {
    var isOpen: bool
    var messages: seq<Message>
    var input: string
    var isLoading: bool
    /** Whether the chat session (`chatRef.current`) has been started. */
    var hasSession: bool
    /** The reply accumulated by the send in flight. */
    var fullText: string

    /** Only the last entry can be streaming; while a request is loading it is
        the reply being streamed, behind the user's message. */
    ghost predicate Valid()
      reads this
    {
      |messages| >= 1
      && (forall k :: 0 <= k < |messages| - 1 ==> !messages[k].isStreaming)
      && (isLoading ==> |messages| >= 2 && messages[|messages| - 1] == Message(Ai, fullText, true))
      && (!isLoading ==> !messages[|messages| - 1].isStreaming)
    }

    constructor ()
      ensures Valid()
      ensures messages == [Message(Ai, Welcome, false)]
      ensures !isOpen && input == "" && !isLoading && !hasSession && fullText == ""
    {
      isOpen := false;
      messages := [Message(Ai, Welcome, false)];
      input := "";
      isLoading := false;
      hasSession := false;
      fullText := "";
    }

    /** The launcher button, followed by the effect that starts a session the
        first time the window is open. */
    method Toggle()
      requires Valid()
      modifies this
      ensures Valid()
      ensures isOpen == !old(isOpen)
      ensures hasSession == (old(hasSession) || isOpen)
      ensures messages == old(messages) && input == old(input) && isLoading == old(isLoading)
      ensures fullText == old(fullText)
    {
      isOpen := !isOpen;
      if isOpen && !hasSession {
        hasSession := true;
      }
    }

    /** The close button in the header. */
    method Close()
      requires Valid()
      modifies this
      ensures Valid()
      ensures !isOpen
      ensures hasSession == old(hasSession) && messages == old(messages) && input == old(input)
      ensures isLoading == old(isLoading) && fullText == old(fullText)
    {
      isOpen := false;
    }

    /** Typing in the input box. */
    method SetInput(text: string)
      requires Valid()
      modifies this
      ensures Valid()
      ensures input == text
      ensures isOpen == old(isOpen) && hasSession == old(hasSession) && messages == old(messages)
      ensures isLoading == old(isLoading) && fullText == old(fullText)
    {
      input := text;
    }

    /** The synchronous part of `handleSend`: the guard, then the input cleared,
        the user's message and an empty streaming reply appended, loading set. */
    method Send(customMsg: Option<string>) returns (started: bool, userMsg: string)
      requires Valid()
      modifies this
      ensures Valid()
      ensures userMsg == ChosenMessage(customMsg, old(input))
      ensures started == CanSend(userMsg, old(hasSession), old(isLoading))
      ensures isOpen == old(isOpen) && hasSession == old(hasSession)
      ensures !started ==> messages == old(messages) && input == old(input) && isLoading == old(isLoading) && fullText == old(fullText)
      ensures started ==> messages == old(messages) + [Message(User, userMsg, false), Message(Ai, "", true)]
      ensures started ==> input == "" && isLoading && fullText == ""
    {
      userMsg := ChosenMessage(customMsg, input);
      started := CanSend(userMsg, hasSession, isLoading);
      if started {
        input := "";
        messages := messages + [Message(User, userMsg, false), Message(Ai, "", true)];
        isLoading := true;
        fullText := "";
      }
    }

    /** One chunk of the stream: a non-empty chunk is added to the reply, and
        the last entry, the reply, is rewritten with the text so far. */
    method OnChunk(chunk: string)
      requires Valid() && isLoading
      modifies this
      ensures Valid() && isLoading
      ensures fullText == old(fullText) + chunk
      ensures |messages| == |old(messages)|
      ensures messages == old(messages)[..|old(messages)| - 1] + [Message(Ai, fullText, true)]
      ensures isOpen == old(isOpen) && hasSession == old(hasSession) && input == old(input)
    {
      if chunk != "" {
        fullText := fullText + chunk;
        var last := |messages| - 1;
        if messages[last].role == Ai {
          messages := messages[last := Message(Ai, fullText, true)];
        }
      }
    }

    /** The stream ended: the reply keeps its text and stops streaming. */
    method OnComplete()
      requires Valid() && isLoading
      modifies this
      ensures Valid() && !isLoading
      ensures messages == old(messages)[..|old(messages)| - 1] + [Message(Ai, old(fullText), false)]
      ensures isOpen == old(isOpen) && hasSession == old(hasSession) && input == old(input)
      ensures fullText == old(fullText)
    {
      messages := messages[..|messages| - 1] + [Message(Ai, fullText, false)];
      isLoading := false;
    }

    /** The request or the stream failed: the reply is replaced by the error. */
    method OnError()
      requires Valid() && isLoading
      modifies this
      ensures Valid() && !isLoading
      ensures messages == old(messages)[..|old(messages)| - 1] + [Message(Ai, UplinkError, false)]
      ensures isOpen == old(isOpen) && hasSession == old(hasSession) && input == old(input)
      ensures fullText == old(fullText)
    {
      messages := messages[..|messages| - 1] + [Message(Ai, UplinkError, false)];
      isLoading := false;
    }

    /** The `for await` loop: every chunk delivered, in order. */
    method Receive(chunks: seq<string>)
      requires Valid() && isLoading
      modifies this
      ensures Valid() && isLoading
      ensures fullText == old(fullText) + Streamed(chunks)
      ensures messages == old(messages)[..|old(messages)| - 1] + [Message(Ai, fullText, true)]
      ensures isOpen == old(isOpen) && hasSession == old(hasSession) && input == old(input)
    {
      var i := 0;
      while i < |chunks|
        invariant 0 <= i <= |chunks|
        invariant Valid() && isLoading
        invariant fullText == old(fullText) + Streamed(chunks[..i])
        invariant messages == old(messages)[..|old(messages)| - 1] + [Message(Ai, fullText, true)]
        invariant isOpen == old(isOpen) && hasSession == old(hasSession) && input == old(input)
      {
        OnChunk(chunks[i]);
        StreamedStep(chunks, i);
        i := i + 1;
      }
      assert chunks[..i] == chunks;
    }

    /** A whole `handleSend` against a given stream, with no other event in
        between: refused, it changes nothing; accepted, it leaves the user's
        message and the settled reply appended and nothing loading. */
    method Exchange(customMsg: Option<string>, s: Stream) returns (started: bool)
      requires Valid()
      modifies this
      ensures Valid()
      ensures started == CanSend(ChosenMessage(customMsg, old(input)), old(hasSession), old(isLoading))
      ensures isOpen == old(isOpen) && hasSession == old(hasSession)
      ensures !started ==> messages == old(messages) && input == old(input) && isLoading == old(isLoading)
      ensures !started ==> fullText == old(fullText)
      ensures started ==> messages == AfterSend(old(messages), ChosenMessage(customMsg, old(input)), s)
      ensures started ==> input == "" && !isLoading && fullText == Streamed(s.chunks)
    {
      var userMsg;
      started, userMsg := Send(customMsg);
      if started {
        ghost var sent := messages;
        Receive(s.chunks);
        assert fullText == Streamed(s.chunks);
        if s.completes {
          OnComplete();
        } else {
          OnError();
        }
        assert sent[..|sent| - 1] == old(messages) + [Message(User, userMsg, false)];
      }
    }
  }
}
