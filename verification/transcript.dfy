/**
 * The chat transcript of VoiceTutor.tsx and the way streamed deltas are
 * folded into it (lines 143-152): the accumulated reply grows by each delta,
 * and the transcript's tail is either overwritten with it or a new assistant
 * message is appended.
 */
module Transcript {
  import opened Text

  datatype Role = User | Assistant

  datatype Message = Message(role: Role, content: string)

  /** The assistant message the reply so far is shown as. */
  function Reply(soFar: string): Message
  {
    Message(Assistant, soFar)
  }

  /** Whether the tail of `msgs` is an assistant reply that may be
      overwritten; a lone first message (the greeting) never is. */
  predicate OpenTail(msgs: seq<Message>)
  {
    |msgs| > 1 && msgs[|msgs| - 1].role == Assistant
  }

  /** The state updater run on each delta: the transcript ends with the reply
      so far, either in place of an open tail or appended after the rest. */
  function TailUpdate(prev: seq<Message>, soFar: string): (r: seq<Message>)
    ensures |r| == |prev| || |r| == |prev| + 1
    ensures |r| > 0 && r[|r| - 1] == Reply(soFar)
    ensures forall i :: 0 <= i < |prev| - 1 ==> r[i] == prev[i]
    ensures |r| == |prev| + 1 <==> !OpenTail(prev)
    ensures |r| == |prev| + 1 ==> r[..|prev|] == prev
  {
    if OpenTail(prev) then prev[..|prev| - 1] + [Reply(soFar)]
    else prev + [Reply(soFar)]
  }

  /** The transcript being built and the reply accumulated so far. */
  datatype Progress = Progress(messages: seq<Message>, soFar: string)

  /** One delta arrives: it is appended to the reply and the tail updated. */
  function Absorb(p: Progress, delta: string): (r: Progress)
    ensures r.soFar == p.soFar + delta
    ensures |r.messages| > 0 && r.messages[|r.messages| - 1] == Reply(r.soFar)
  {
    var soFar := p.soFar + delta;
    Progress(TailUpdate(p.messages, soFar), soFar)
  }

  /** The deltas of one response, absorbed in order. */
  function AbsorbAll(p: Progress, deltas: seq<string>): (r: Progress)
    decreases |deltas|
  {
    if |deltas| == 0 then p
    else Absorb(AbsorbAll(p, deltas[..|deltas| - 1]), deltas[|deltas| - 1])
  }

  /** The accumulated reply is the starting text followed by every delta, in
      order. */
  lemma {:induction false} AbsorbAllText(p: Progress, deltas: seq<string>)
    ensures AbsorbAll(p, deltas).soFar == p.soFar + Concat(deltas)
    decreases |deltas|
  {
    if |deltas| > 0 {
      AbsorbAllText(p, deltas[..|deltas| - 1]);
    }
  }

  /** A later update supersedes an earlier one, once the transcript has any
      message at all. */
  lemma TailUpdateSupersedes(prev: seq<Message>, a: string, b: string)
    requires |prev| > 0
    ensures TailUpdate(TailUpdate(prev, a), b) == TailUpdate(prev, b)
  {
    var once := TailUpdate(prev, a);
    assert OpenTail(once);
    if OpenTail(prev) {
      assert once[..|once| - 1] == prev[..|prev| - 1];
    } else {
      assert once[..|once| - 1] == prev;
    }
  }

  /** On an empty transcript the guard `prev.length > 1` keeps the first
      reply as if it were a greeting: a second delta appends a second
      assistant message instead of overwriting the first. */
  lemma EmptyTranscriptKeepsFirstReply(a: string, b: string)
    ensures TailUpdate(TailUpdate([], a), b) == [Reply(a), Reply(b)]
  {
  }

  /** A reply to a non-empty transcript whose tail is not open (the user's
      message just sent): after one or more deltas the transcript is the old one
      plus a single assistant message holding every delta, in order. */
  lemma {:induction false} ReplyAppendsOneMessage(msgs: seq<Message>, deltas: seq<string>)
    requires |msgs| > 0 && !OpenTail(msgs)
    requires |deltas| > 0
    ensures AbsorbAll(Progress(msgs, ""), deltas).messages == msgs + [Reply(Concat(deltas))]
    decreases |deltas|
  {
    var init := deltas[..|deltas| - 1];
    AbsorbAllText(Progress(msgs, ""), deltas);
    if |init| > 0 {
      ReplyAppendsOneMessage(msgs, init);
      var before := msgs + [Reply(Concat(init))];
      assert OpenTail(before);
      assert before[..|before| - 1] == msgs;
    }
  }
}
