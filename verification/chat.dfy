/**
 * Sending one message in VoiceTutor.tsx (lines 161-188 with `streamChat`):
 * the message text is chosen, the user's message is appended and the input
 * cleared, the transcript plus that message is the request, and the
 * streamed reply is decoded in push-back mode and folded into the
 * transcript.
 */
module Chat {
  import opened Wrappers
  import opened Text
  import opened Frames
  import opened Decoder
  import opened ChunkBoundaries
  import opened FinishedResponse
  import opened Transcript
  import opened Gate

  /** What the tutor panel holds: the transcript and the text box. */
  datatype Conversation = Conversation(messages: seq<Message>, input: string)

  const Greeting: string := "Hello! I'm your English tutor. Press the microphone button to start speaking, or type your message below. How can I help you practice today?"

  /** The panel as it first appears: the greeting alone, and an empty box. */
  const Opening: Conversation := Conversation([Message(Assistant, Greeting)], "")

  /** `text || input.trim()`: a non-empty explicit text as given, otherwise
      the trimmed text box. */
  function MessageText(text: Option<string>, input: string): (m: string)
    ensures m == "" <==> (text.None? || text.value == "") && AllSpace(input)
    ensures text.Some? && text.value != "" ==> m == text.value
    ensures text.None? || text.value == "" ==> m == Trim(input)
  {
    TrimSpec(input);
    if text.Some? && text.value != "" then text.value else Trim(input)
  }

  /** Everything one send changes or produces: the panel afterwards, the
      messages sent to the server (if any), the notice and error shown, and
      the text spoken aloud. */
  datatype Outcome = Outcome(
    after: Conversation,
    request: Option<seq<Message>>,
    notice: Option<Notice>,
    failed: bool,
    spoken: Option<string>)

  /** One send, given the server's response to the request it makes. */
  function Send(parse: Parser, conv: Conversation, text: Option<string>, resp: Response): (o: Outcome)
    ensures o.request.None? <==> (text.None? || text.value == "") && AllSpace(conv.input)
    ensures o.request.None? ==> o == Outcome(conv, None, None, false, None)
    ensures o.request.Some? ==>
      && o.after.input == ""
      && o.request.value == conv.messages + [Message(User, MessageText(text, conv.input))]
      && |o.request.value| <= |o.after.messages|
      && o.after.messages[..|o.request.value|] == o.request.value
    ensures o.failed <==> o.request.Some? && Admit(resp).Fail?
    ensures o.failed ==> o.after.messages == o.request.value && o.spoken.None?
    ensures o.notice.Some? ==> o.failed
  {
    var m := MessageText(text, conv.input);
    if m == "" then Outcome(conv, None, None, false, None)
    else
      var request := conv.messages + [Message(User, m)];
      match Admit(resp)
      case Fail(notice) => Outcome(Conversation(request, ""), Some(request), notice, true, None)
      case Proceed(chunks) =>
        var deltas := Run(Rebuffer, parse, chunks).deltas;
        var reply := AbsorbAll(Progress(request, ""), deltas);
        ReplyKeepsRequest(request, deltas);
        Outcome(Conversation(reply.messages, ""), Some(request), None, false,
                if reply.soFar != "" then Some(reply.soFar) else None)
  }

  /** The reply never touches the request it answers. */
  lemma ReplyKeepsRequest(request: seq<Message>, deltas: seq<string>)
    requires |request| > 0 && request[|request| - 1].role == User
    ensures var after := AbsorbAll(Progress(request, ""), deltas).messages;
            |request| <= |after| && after[..|request|] == request
  {
    if |deltas| > 0 {
      ReplyAppendsOneMessage(request, deltas);
    }
  }

  /** A successful send: the transcript is the request plus one assistant
      message holding every decoded delta in order, and that text is spoken;
      if no delta arrived, nothing is added and nothing is spoken. */
  lemma SendReply(parse: Parser, conv: Conversation, text: Option<string>, resp: Response)
    requires MessageText(text, conv.input) != ""
    requires Admit(resp).Proceed?
    ensures var o := Send(parse, conv, text, resp);
            var reply := Concat(Run(Rebuffer, parse, resp.body.value).deltas);
            && o.request.Some? && !o.failed && o.notice.None?
            && (reply == "" ==> o.after.messages == o.request.value && o.spoken.None?)
            && (reply != "" ==> o.after.messages == o.request.value + [Reply(reply)] && o.spoken == Some(reply))
  {
    var request := conv.messages + [Message(User, MessageText(text, conv.input))];
    var deltas := Run(Rebuffer, parse, resp.body.value).deltas;
    ConcatEmpty(deltas);
    AbsorbAllText(Progress(request, ""), deltas);
    if |deltas| > 0 {
      ReplyAppendsOneMessage(request, deltas);
    }
  }

  /** On a response with no `[DONE]` line and no line the parser rejects,
      the assistant's message is the content of the complete lines of the
      whole body, however it was split into chunks. */
  lemma SendCleanReply(parse: Parser, conv: Conversation, text: Option<string>, resp: Response)
    requires MessageText(text, conv.input) != ""
    requires Admit(resp).Proceed?
    requires Clean(Rebuffer, parse, Concat(resp.body.value))
    ensures var o := Send(parse, conv, text, resp);
            var reply := Concat(Reference(parse, Concat(resp.body.value)));
            && (reply == "" ==> o.after.messages == o.request.value)
            && (reply != "" ==> o.after.messages == o.request.value + [Reply(reply)])
  {
    SendReply(parse, conv, text, resp);
    RunOnClean(Rebuffer, parse, resp.body.value);
  }

  /** On a finished response (its lines before `data: [DONE]` clean, the
      `[DONE]` line, then lines carrying no delta), the assistant's message
      is the content of the lines before `[DONE]`, and that text is spoken,
      however the body was split into chunks. */
  lemma SendFinishedReply(parse: Parser, conv: Conversation, text: Option<string>, resp: Response, s: string, d: string, t: string)
    requires MessageText(text, conv.input) != ""
    requires Admit(resp).Proceed?
    requires FinishedAt(Rebuffer, parse, Concat(resp.body.value), s, d, t)
    ensures var o := Send(parse, conv, text, resp);
            var reply := Concat(Reference(parse, s));
            && (reply == "" ==> o.after.messages == o.request.value && o.spoken.None?)
            && (reply != "" ==> o.after.messages == o.request.value + [Reply(reply)] && o.spoken == Some(reply))
  {
    SendReply(parse, conv, text, resp);
    FinishedReply(Rebuffer, parse, resp.body.value, s, d, t);
  }

  /** The first message typed into the opening panel is answered after the
      greeting, which stays in place. */
  lemma GreetingStays(parse: Parser, input: string, resp: Response)
    requires !AllSpace(input)
    ensures var o := Send(parse, Opening.(input := input), None, resp);
            |o.after.messages| >= 2 && o.after.messages[0] == Message(Assistant, Greeting)
            && o.after.messages[1] == Message(User, Trim(input))
  {
    var o := Send(parse, Opening.(input := input), None, resp);
    var sent := [Message(Assistant, Greeting), Message(User, Trim(input))];
    assert o.request.value == sent;
    assert o.after.messages[..2] == sent;
    assert o.after.messages[0] == sent[0] && o.after.messages[1] == sent[1];
  }
}
