/**
 * The reading loop of `streamChat` (VoiceTutor.tsx lines 117-158) and of the
 * two ParaphraseTools handlers (ParaphraseTools.tsx lines 56-88 and 138-170),
 * as pure functions. The two copies differ only in what they do with a data
 * line the parser rejects, so one decoder serves all three, selected by
 * `OnMalformed`.
 */
module Decoder {
  import opened Text
  import opened Frames

  /** VoiceTutor pushes a rejected line back and ends the pass (`Rebuffer`);
      ParaphraseTools drops it and goes on (`Drop`). */
  datatype OnMalformed = Rebuffer | Drop

  /** Why an inner pass over the buffer ended: no complete line left, the
      `[DONE]` sentinel (`break`), or a line pushed back (`break` in `catch`). */
  datatype Stop = Exhausted | SawDone | Stalled

  /** The buffer after one inner pass and the deltas it produced, in order. */
  datatype PassResult = PassResult(rest: string, emitted: seq<string>, stop: Stop)

  /** `textBuffer` and every delta appended so far to `assistantSoFar`
      (or to the paraphrase output); the accumulated text is their `Concat`. */
  datatype State = State(buffer: string, deltas: seq<string>)

  const Start: State := State("", [])

  /** The buffer's first complete line is a data line the parser rejects: in
      `Rebuffer` mode every later pass stops on it again. */
  predicate Jammed(parse: Parser, buf: string) {
    match CutLine(buf)
    case None => false
    case Some(c) => Interpret(parse, c.line) == Unparsable
  }

  /** The inner `while` loop: cut complete lines off the front of the buffer
      and act on each, until no newline is left, `[DONE]` is seen, or (in
      `Rebuffer` mode) a rejected line is pushed back. Every delta carries
      text (`if (content)` rejects `""`), and a pass that runs out of lines
      leaves only text without a newline behind. */
  function Pass(mode: OnMalformed, parse: Parser, buf: string): (r: PassResult)
    ensures "" !in r.emitted
    ensures r.stop == Exhausted ==> '\n' !in r.rest
    decreases |buf|
  {
    match CutLine(buf)
    case None => PassResult(buf, [], Exhausted)
    case Some(c) =>
      var line := StripCR(c.line);
      var o := Interpret(parse, line);
      if o == EndOfStream then
        PassResult(c.rest, [], SawDone)
      else if o == Unparsable && mode == Rebuffer then
        PassResult(line + "\n" + c.rest, [], Stalled)
      else
        var tail := Pass(mode, parse, c.rest);
        if o.Delta? then PassResult(tail.rest, [o.text] + tail.emitted, tail.stop) else tail
  }

  /** One line read off the front of the buffer, by what it does: `[DONE]`
      ends the pass, a rejected line stalls it in `Rebuffer` mode, a delta is
      emitted ahead of the rest of the pass, and any other line leaves the
      pass to go on as if it were not there. */
  lemma PassFront(mode: OnMalformed, parse: Parser, raw: string, rest: string)
    requires '\n' !in raw
    ensures var o := Interpret(parse, StripCR(raw));
            var p := Pass(mode, parse, rest);
            var r := Pass(mode, parse, raw + "\n" + rest);
            && (o == EndOfStream ==> r == PassResult(rest, [], SawDone))
            && (o == Unparsable && mode == Rebuffer ==> r == PassResult(StripCR(raw) + "\n" + rest, [], Stalled))
            && (o.Delta? ==> r == PassResult(p.rest, [o.text] + p.emitted, p.stop))
            && (o == NoDelta || (o == Unparsable && mode == Drop) ==> r == p)
  {
    CutLineUnique(raw, rest);
  }

  /** Nothing but whole lines is consumed: a pass that is not stalled leaves
      either its whole input or a suffix that starts right after a newline,
      and a stalled pass (only ever in `Rebuffer` mode) leaves a buffer whose
      first line is the rejected one. */
  lemma {:induction false} PassKeepsUnreadText(mode: OnMalformed, parse: Parser, buf: string)
    ensures var r := Pass(mode, parse, buf);
            && (r.stop != Stalled ==> IsSuffix(r.rest, buf))
            && (r.stop != Stalled ==> r.rest == buf || IsSuffix("\n" + r.rest, buf))
            && (r.stop == Stalled ==> mode == Rebuffer && Jammed(parse, r.rest))
    decreases |buf|
  {
    PassLeavesWholeLines(mode, parse, buf);
    match CutLine(buf)
    case None =>
    case Some(c) =>
      PassKeepsUnreadText(mode, parse, c.rest);
      StallJamsStep(mode, parse, c.line, c.rest);
  }

  /** The stalled half of `PassKeepsUnreadText`, carried over from `rest` to
      a buffer with one more line in front. */
  lemma StallJamsStep(mode: OnMalformed, parse: Parser, raw: string, rest: string)
    requires '\n' !in raw
    requires var p := Pass(mode, parse, rest);
             p.stop == Stalled ==> mode == Rebuffer && Jammed(parse, p.rest)
    ensures var r := Pass(mode, parse, raw + "\n" + rest);
            r.stop == Stalled ==> mode == Rebuffer && Jammed(parse, r.rest)
  {
    PassFront(mode, parse, raw, rest);
    if Interpret(parse, StripCR(raw)) == Unparsable && mode == Rebuffer {
      StripCRKeepsOutcome(parse, raw);
      PushedBackLineJams(parse, raw, rest);
    }
  }

  /** A pass that is not stalled stops at a line boundary: what it leaves is
      its whole input, or the text after some newline of it. */
  lemma {:induction false} PassLeavesWholeLines(mode: OnMalformed, parse: Parser, buf: string)
    ensures var r := Pass(mode, parse, buf);
            r.stop != Stalled ==> IsSuffix(r.rest, buf) && (r.rest == buf || IsSuffix("\n" + r.rest, buf))
    decreases |buf|
  {
    match CutLine(buf)
    case None =>
      assert buf[0..] == buf;
    case Some(c) =>
      PassLeavesWholeLines(mode, parse, c.rest);
      PassLeavesWholeLinesStep(mode, parse, c.line, c.rest);
  }

  /** The inductive step of `PassLeavesWholeLines`: the property carries over
      from `rest` to a buffer with one more line in front. */
  lemma PassLeavesWholeLinesStep(mode: OnMalformed, parse: Parser, raw: string, rest: string)
    requires '\n' !in raw
    requires var p := Pass(mode, parse, rest);
             p.stop != Stalled ==> IsSuffix(p.rest, rest) && (p.rest == rest || IsSuffix("\n" + p.rest, rest))
    ensures var buf := raw + "\n" + rest;
            var r := Pass(mode, parse, buf);
            r.stop != Stalled ==> IsSuffix(r.rest, buf) && (r.rest == buf || IsSuffix("\n" + r.rest, buf))
  {
    var buf := raw + "\n" + rest;
    CutLineUnique(raw, rest);
    var o := Interpret(parse, StripCR(raw));
    var p := Pass(mode, parse, rest);
    if o == EndOfStream {
      assert rest[0..] == rest;
      TailAfterCut(buf, raw, rest, rest);
    } else if o == Unparsable && mode == Rebuffer {
    } else {
      assert Pass(mode, parse, buf).rest == p.rest && Pass(mode, parse, buf).stop == p.stop;
      if p.stop != Stalled {
        TailAfterCut(buf, raw, rest, p.rest);
      }
    }
  }

  /** One `reader.read()` that is not `done`: append the chunk and run a pass.
      Deltas already emitted are never revised, and the new ones appended
      after them all carry text. */
  function Step(mode: OnMalformed, parse: Parser, st: State, chunk: string): (r: State)
    ensures |st.deltas| <= |r.deltas| && r.deltas[..|st.deltas|] == st.deltas
    ensures "" !in st.deltas ==> "" !in r.deltas
  {
    var p := Pass(mode, parse, st.buffer + chunk);
    State(p.rest, st.deltas + p.emitted)
  }

  /** The outer `while (true)` loop, continued from state `st` over the
      chunks the reader returns, in order. Deltas already emitted are never
      revised, and every new one carries text. */
  function Feed(mode: OnMalformed, parse: Parser, st: State, chunks: seq<string>): (r: State)
    ensures |st.deltas| <= |r.deltas| && r.deltas[..|st.deltas|] == st.deltas
    ensures "" !in st.deltas ==> "" !in r.deltas
  {
    if |chunks| == 0 then st
    else
      var before := Feed(mode, parse, st, chunks[..|chunks| - 1]);
      var r := Step(mode, parse, before, chunks[|chunks| - 1]);
      assert r.deltas[..|st.deltas|] == r.deltas[..|before.deltas|][..|st.deltas|];
      r
  }

  /** The whole read loop of one response, from an empty buffer; it ends when
      the reader is done, whatever is left in the buffer. Every delta it
      reports carries text. */
  function Run(mode: OnMalformed, parse: Parser, chunks: seq<string>): (r: State)
    ensures "" !in r.deltas
  {
    Feed(mode, parse, Start, chunks)
  }

  /** Reading `a` and then `b` is reading `a + b`: the loop keeps no state
      besides the buffer and the deltas. */
  lemma {:induction false} FeedAppend(mode: OnMalformed, parse: Parser, st: State, a: seq<string>, b: seq<string>)
    ensures Feed(mode, parse, st, a + b) == Feed(mode, parse, Feed(mode, parse, st, a), b)
    decreases |b|
  {
    if |b| == 0 {
      assert a + b == a;
    } else {
      var b' := b[..|b| - 1];
      assert (a + b)[..|a + b| - 1] == a + b';
      FeedAppend(mode, parse, st, a, b');
    }
  }

  /** Deltas come out in order and are never taken back: the deltas after
      the first `k` chunks begin the deltas after all of them. */
  lemma RunExtends(mode: OnMalformed, parse: Parser, chunks: seq<string>, k: nat)
    requires k <= |chunks|
    ensures var early := Run(mode, parse, chunks[..k]).deltas;
            var late := Run(mode, parse, chunks).deltas;
            |early| <= |late| && late[..|early|] == early
  {
    assert chunks == chunks[..k] + chunks[k..];
    FeedAppend(mode, parse, Start, chunks[..k], chunks[k..]);
  }

  /** Blank lines, comments and lines without the exact `"data: "` prefix are
      passed over: the pass goes on with the next line and nothing is emitted. */
  lemma SkippedLineEmitsNothing(mode: OnMalformed, parse: Parser, raw: string, rest: string)
    requires '\n' !in raw
    requires !StartsWith(StripCR(raw), DataPrefix)
    ensures Pass(mode, parse, raw + "\n" + rest) == Pass(mode, parse, rest)
  {
    assert Classify(StripCR(raw)).Ignored?;
    PassOverNoDelta(mode, parse, raw, rest);
  }

  /** A line that does nothing is consumed and the pass goes on. */
  lemma PassOverNoDelta(mode: OnMalformed, parse: Parser, raw: string, rest: string)
    requires '\n' !in raw
    requires Interpret(parse, StripCR(raw)) == NoDelta
    ensures Pass(mode, parse, raw + "\n" + rest) == Pass(mode, parse, rest)
  {
    PassFront(mode, parse, raw, rest);
  }

  /** `[DONE]` leaves only the inner loop: the pass ends at once with nothing
      emitted, and the lines buffered after the sentinel stay in the buffer,
      to be read when the next chunk arrives. */
  lemma DoneEndsOnlyThePass(mode: OnMalformed, parse: Parser, st: State, raw: string, rest: string)
    requires '\n' !in raw
    requires st.buffer == raw + "\n" + rest
    requires StartsWith(StripCR(raw), DataPrefix) && Trim(StripCR(raw)[|DataPrefix|..]) == DoneSentinel
    ensures Pass(mode, parse, st.buffer) == PassResult(rest, [], SawDone)
    ensures Step(mode, parse, State("", st.deltas), st.buffer) == State(rest, st.deltas)
  {
    CutLineUnique(raw, rest);
    assert "" + st.buffer == st.buffer;
  }

  /** A delta line left in the buffer (after `[DONE]`, say) is read by the
      next chunk's pass, whatever that chunk holds: its content is the first
      new delta. */
  lemma BufferedLineReadNext(mode: OnMalformed, parse: Parser, deltas: seq<string>, raw: string, rest: string, next: string)
    requires '\n' !in raw
    requires Interpret(parse, raw).Delta?
    ensures var r := Step(mode, parse, State(raw + "\n" + rest, deltas), next);
            |deltas| < |r.deltas| && r.deltas[|deltas|] == Interpret(parse, raw).text
  {
    AppendAssoc(raw + "\n", rest, next);
    DeltaLineEmitsFirst(mode, parse, raw, rest + next);
  }

  /** A pass over a buffer starting with a delta line emits that delta first. */
  lemma DeltaLineEmitsFirst(mode: OnMalformed, parse: Parser, raw: string, rest: string)
    requires '\n' !in raw
    requires Interpret(parse, raw).Delta?
    ensures var p := Pass(mode, parse, raw + "\n" + rest);
            0 < |p.emitted| && p.emitted[0] == Interpret(parse, raw).text
  {
    CutLineUnique(raw, rest);
    StripCRKeepsOutcome(parse, raw);
  }

  /** VoiceTutor: a rejected data line goes back to the front of the buffer,
      without the carriage return it lost, followed by its newline and the
      unread rest; the pass ends with nothing emitted. */
  lemma RebufferPushesLineBack(parse: Parser, raw: string, rest: string)
    requires '\n' !in raw
    requires Interpret(parse, raw) == Unparsable
    ensures Pass(Rebuffer, parse, raw + "\n" + rest)
            == PassResult(StripCR(raw) + "\n" + rest, [], Stalled)
  {
    CutLineUnique(raw, rest);
    StripCRKeepsOutcome(parse, raw);
  }

  /** ParaphraseTools: a rejected data line is dropped and the pass goes on
      with the line after it, exactly as if it had never been received. */
  lemma DropForgetsLine(parse: Parser, raw: string, rest: string)
    requires '\n' !in raw
    requires Interpret(parse, raw) == Unparsable
    ensures Pass(Drop, parse, raw + "\n" + rest) == Pass(Drop, parse, rest)
  {
    StripCRKeepsOutcome(parse, raw);
    PassFront(Drop, parse, raw, rest);
  }

  /** Once the buffer is jammed, every later pass, whatever text arrives,
      stops on the same line again and emits nothing. */
  lemma JammedPassStalls(parse: Parser, buf: string, chunk: string)
    requires Jammed(parse, buf)
    ensures var p := Pass(Rebuffer, parse, buf + chunk);
            p.stop == Stalled && p.emitted == [] && Jammed(parse, p.rest)
  {
    var c := CutLine(buf).value;
    JammedPassStallsAt(parse, c.line, c.rest, chunk);
  }

  /** `JammedPassStalls` for a buffer whose first line is `raw`. */
  lemma JammedPassStallsAt(parse: Parser, raw: string, rest0: string, chunk: string)
    requires '\n' !in raw
    requires Interpret(parse, raw) == Unparsable
    ensures var p := Pass(Rebuffer, parse, raw + "\n" + rest0 + chunk);
            p.stop == Stalled && p.emitted == [] && Jammed(parse, p.rest)
  {
    var rest := rest0 + chunk;
    assert raw + "\n" + rest0 + chunk == raw + "\n" + rest;
    RebufferPushesLineBack(parse, raw, rest);
    PushedBackLineJams(parse, raw, rest);
  }

  /** The text a stalled pass pushes back is itself jammed. */
  lemma PushedBackLineJams(parse: Parser, raw: string, rest: string)
    requires '\n' !in raw
    requires Interpret(parse, raw) == Unparsable
    ensures Jammed(parse, StripCR(raw) + "\n" + rest)
  {
    var line := StripCR(raw);
    assert '\n' !in line by { assert line == raw[..|line|]; }
    CutLineUnique(line, rest);
    StripCRKeepsOutcome(parse, raw);
  }

  /** Once the buffer is jammed, no further chunk adds a delta and the
      buffer stays jammed. */
  lemma {:induction false} JammedFeedEmitsNothing(parse: Parser, st: State, more: seq<string>)
    requires Jammed(parse, st.buffer)
    ensures Feed(Rebuffer, parse, st, more).deltas == st.deltas
    ensures Jammed(parse, Feed(Rebuffer, parse, st, more).buffer)
    decreases |more|
  {
    if |more| > 0 {
      var init := more[..|more| - 1];
      JammedFeedEmitsNothing(parse, st, init);
      var before := Feed(Rebuffer, parse, st, init);
      JammedStep(parse, before, more[|more| - 1]);
      assert Feed(Rebuffer, parse, st, more) == Step(Rebuffer, parse, before, more[|more| - 1]);
    }
  }

  /** One chunk read into a jammed buffer adds no delta and leaves the
      buffer jammed. */
  lemma JammedStep(parse: Parser, st: State, chunk: string)
    requires Jammed(parse, st.buffer)
    ensures var r := Step(Rebuffer, parse, st, chunk);
            r.deltas == st.deltas && Jammed(parse, r.buffer)
  {
    JammedPassStalls(parse, st.buffer, chunk);
    assert st.deltas + [] == st.deltas;
  }

  /** VoiceTutor never recovers from a rejected line: once the stream has
      jammed, the deltas of the whole response are those read up to then. */
  lemma StallIsFinal(parse: Parser, chunks: seq<string>, more: seq<string>)
    requires Jammed(parse, Run(Rebuffer, parse, chunks).buffer)
    ensures Run(Rebuffer, parse, chunks + more).deltas == Run(Rebuffer, parse, chunks).deltas
  {
    FeedAppend(Rebuffer, parse, Start, chunks, more);
    JammedFeedEmitsNothing(parse, Run(Rebuffer, parse, chunks), more);
  }
}
