/**
 * Chunk boundaries carry no meaning: as long as the response holds no
 * `[DONE]` line (and, for VoiceTutor, no line the parser rejects), the reader
 * of VoiceTutor.tsx lines 122-158 and ParaphraseTools.tsx lines 60-88 emits
 * exactly the deltas of the complete lines of the concatenated text, however
 * that text was split into chunks.
 */
module ChunkBoundaries {
  import opened Wrappers
  import opened Text
  import opened Frames
  import opened Decoder

  /** The text after the last newline of `s`, or all of `s` if it has none. */
  function Remainder(s: string): (r: string)
    ensures '\n' !in r && IsSuffix(r, s)
    ensures r == s || IsSuffix("\n" + r, s)
    decreases |s|
  {
    match CutLine(s)
    case None =>
      assert s[0..] == s;
      s
    case Some(c) =>
      var r := Remainder(c.rest);
      TailAfterCut(s, c.line, c.rest, r);
      r
  }

  /** The deltas of the complete lines of `s`, in order, read as a whole text
      rather than chunk by chunk; text after the last newline is not a line. */
  function Reference(parse: Parser, s: string): seq<string>
    decreases |s|
  {
    match CutLine(s)
    case None => []
    case Some(c) => DeltasOf(Interpret(parse, c.line)) + Reference(parse, c.rest)
  }

  /** The deltas one line contributes: its text if it carries one. */
  function DeltasOf(o: LineOutcome): seq<string>
  {
    if o.Delta? then [o.text] else []
  }

  /** No complete line of `s` is the sentinel, and in `Rebuffer` mode none is
      rejected by the parser either. */
  predicate Clean(mode: OnMalformed, parse: Parser, s: string)
    decreases |s|
  {
    match CutLine(s)
    case None => true
    case Some(c) =>
      var o := Interpret(parse, c.line);
      && o != EndOfStream
      && (mode == Rebuffer ==> o != Unparsable)
      && Clean(mode, parse, c.rest)
  }

  /** On clean text one pass reads every complete line, emits exactly the
      reference deltas, and leaves the unterminated tail in the buffer. */
  lemma {:induction false} PassOnClean(mode: OnMalformed, parse: Parser, buf: string)
    requires Clean(mode, parse, buf)
    ensures Pass(mode, parse, buf) == PassResult(Remainder(buf), Reference(parse, buf), Exhausted)
    decreases |buf|
  {
    match CutLine(buf)
    case None =>
    case Some(c) =>
      PassOnClean(mode, parse, c.rest);
      PassOnCleanStep(mode, parse, c.line, c.rest);
  }

  /** The inductive step of `PassOnClean`: the property carries over from
      `rest` to a clean buffer with one more line in front. */
  lemma PassOnCleanStep(mode: OnMalformed, parse: Parser, line: string, rest: string)
    requires '\n' !in line
    requires Clean(mode, parse, line + "\n" + rest)
    requires Pass(mode, parse, rest) == PassResult(Remainder(rest), Reference(parse, rest), Exhausted)
    ensures var buf := line + "\n" + rest;
            Pass(mode, parse, buf) == PassResult(Remainder(buf), Reference(parse, buf), Exhausted)
  {
    CutLineUnique(line, rest);
    StripCRKeepsOutcome(parse, line);
    RemainderStep(line, rest);
    ReferenceStep(parse, line, rest);
  }

  /** The first line of `s + t` is the first line of `s`, when `s` has one. */
  lemma CutLineAppend(s: string, t: string)
    requires CutLine(s).Some?
    ensures CutLine(s + t) == Some(Cut(CutLine(s).value.line, CutLine(s).value.rest + t))
  {
    var c := CutLine(s).value;
    assert s + t == c.line + "\n" + (c.rest + t);
    CutLineUnique(c.line, c.rest + t);
  }

  /** The tail of `s + t` is the tail of `s` followed by `t`, cut again. */
  lemma {:induction false} RemainderAppend(s: string, t: string)
    ensures Remainder(s + t) == Remainder(Remainder(s) + t)
    decreases |s|
  {
    if CutLine(s).Some? {
      CutLineAppend(s, t);
      RemainderAppend(CutLine(s).value.rest, t);
    }
  }

  /** One line read off the front of a text contributes its deltas ahead of
      the rest. */
  lemma ReferenceStep(parse: Parser, line: string, rest: string)
    requires '\n' !in line
    ensures Reference(parse, line + "\n" + rest) == DeltasOf(Interpret(parse, line)) + Reference(parse, rest)
  {
    CutLineUnique(line, rest);
  }

  /** Reading `s + t` as a whole: the lines of `s`, then the lines formed by
      the unterminated tail of `s` followed by `t`. */
  lemma {:induction false} ReferenceAppend(parse: Parser, s: string, t: string)
    ensures Reference(parse, s + t) == Reference(parse, s) + Reference(parse, Remainder(s) + t)
    decreases |s|
  {
    if CutLine(s).Some? {
      var c := CutLine(s).value;
      ReferenceAppend(parse, c.rest, t);
      ReferenceAppendStep(parse, c.line, c.rest, t);
    }
  }

  /** The inductive step of `ReferenceAppend`: the property carries over from
      `rest` to a text with one more line in front. */
  lemma ReferenceAppendStep(parse: Parser, line: string, rest: string, t: string)
    requires '\n' !in line
    requires Reference(parse, rest + t) == Reference(parse, rest) + Reference(parse, Remainder(rest) + t)
    ensures var s := line + "\n" + rest;
            Reference(parse, s + t) == Reference(parse, s) + Reference(parse, Remainder(s) + t)
  {
    ReferenceFront(parse, line, rest, t);
    ReferenceStep(parse, line, rest);
    RemainderStep(line, rest);
    AppendAssoc(DeltasOf(Interpret(parse, line)), Reference(parse, rest), Reference(parse, Remainder(rest) + t));
  }

  /** `ReferenceStep` for a text that continues with `t`. */
  lemma ReferenceFront(parse: Parser, line: string, rest: string, t: string)
    requires '\n' !in line
    ensures Reference(parse, line + "\n" + rest + t) == DeltasOf(Interpret(parse, line)) + Reference(parse, rest + t)
  {
    AppendAssoc(line + "\n", rest, t);
    ReferenceStep(parse, line, rest + t);
  }

  /** A line read off the front does not change the unterminated tail. */
  lemma RemainderStep(line: string, rest: string)
    requires '\n' !in line
    ensures Remainder(line + "\n" + rest) == Remainder(rest)
  {
    CutLineUnique(line, rest);
  }

  /** `s + t` is clean exactly when `s` is and the tail of `s` followed by
      `t` is. */
  lemma {:induction false} CleanAppend(mode: OnMalformed, parse: Parser, s: string, t: string)
    ensures Clean(mode, parse, s + t) <==> Clean(mode, parse, s) && Clean(mode, parse, Remainder(s) + t)
    decreases |s|
  {
    if CutLine(s).Some? {
      CutLineAppend(s, t);
      CleanAppend(mode, parse, CutLine(s).value.rest, t);
    }
  }

  /** On clean input the read loop's state is determined by the text read so
      far: the buffer is its unterminated tail and the deltas are the
      reference deltas of its complete lines. */
  lemma {:induction false} RunOnClean(mode: OnMalformed, parse: Parser, chunks: seq<string>)
    requires Clean(mode, parse, Concat(chunks))
    ensures Run(mode, parse, chunks) == State(Remainder(Concat(chunks)), Reference(parse, Concat(chunks)))
    decreases |chunks|
  {
    if |chunks| > 0 {
      var init := chunks[..|chunks| - 1];
      var last := chunks[|chunks| - 1];
      CleanAppend(mode, parse, Concat(init), last);
      RemainderAppend(Concat(init), last);
      ReferenceAppend(parse, Concat(init), last);
      RunOnClean(mode, parse, init);
      PassOnClean(mode, parse, Remainder(Concat(init)) + last);
    }
  }

  /** Chunk-boundary invariance: on clean input, any split of the response
      into chunks gives the same deltas and leaves the same buffer as
      delivering the whole response in one chunk. */
  lemma SplitInvariance(mode: OnMalformed, parse: Parser, chunks: seq<string>)
    requires Clean(mode, parse, Concat(chunks))
    ensures Run(mode, parse, chunks) == Run(mode, parse, [Concat(chunks)])
  {
    var whole := [Concat(chunks)];
    assert whole[..0] == [];
    assert Concat(whole) == Concat(chunks);
    RunOnClean(mode, parse, chunks);
    RunOnClean(mode, parse, whole);
  }

  /** A newline-free tail is never read by a pass: it only ends up after
      whatever the pass leaves in the buffer. */
  lemma {:induction false} TailNeverRead(mode: OnMalformed, parse: Parser, buf: string, tail: string)
    requires '\n' !in tail
    ensures var p := Pass(mode, parse, buf);
            Pass(mode, parse, buf + tail) == PassResult(p.rest + tail, p.emitted, p.stop)
    decreases |buf|
  {
    match CutLine(buf)
    case None =>
      assert '\n' !in buf + tail;
    case Some(c) =>
      TailNeverRead(mode, parse, c.rest, tail);
      TailNeverReadStep(mode, parse, c.line, c.rest, tail);
  }

  /** The inductive step of `TailNeverRead`: the property carries over from
      `rest` to a buffer with one more line in front. */
  lemma TailNeverReadStep(mode: OnMalformed, parse: Parser, line: string, rest: string, tail: string)
    requires '\n' !in line && '\n' !in tail
    requires var p := Pass(mode, parse, rest);
             Pass(mode, parse, rest + tail) == PassResult(p.rest + tail, p.emitted, p.stop)
    ensures var buf := line + "\n" + rest;
            var p := Pass(mode, parse, buf);
            Pass(mode, parse, buf + tail) == PassResult(p.rest + tail, p.emitted, p.stop)
  {
    var buf := line + "\n" + rest;
    AppendAssoc(line + "\n", rest, tail);
    assert buf + tail == line + "\n" + (rest + tail);
    CutLineUnique(line, rest);
    CutLineUnique(line, rest + tail);
    var l := StripCR(line);
    var o := Interpret(parse, l);
    if o == EndOfStream {
    } else if o == Unparsable && mode == Rebuffer {
      AppendAssoc(l + "\n", rest, tail);
    } else {
      var p := Pass(mode, parse, rest);
      assert Pass(mode, parse, buf) == if o.Delta? then PassResult(p.rest, [o.text] + p.emitted, p.stop) else p;
    }
  }

  /** On any response, a final chunk without a newline, after which the
      reader reports done, adds exactly the deltas an empty read would add:
      its own text is never read. */
  lemma FinalTailNeverRead(mode: OnMalformed, parse: Parser, chunks: seq<string>, tail: string)
    requires '\n' !in tail
    ensures Run(mode, parse, chunks + [tail]).deltas == Run(mode, parse, chunks + [""]).deltas
  {
    var st := Run(mode, parse, chunks);
    assert (chunks + [tail])[..|chunks|] == chunks;
    assert (chunks + [""])[..|chunks|] == chunks;
    TailNeverRead(mode, parse, st.buffer, tail);
    assert st.buffer + "" == st.buffer;
  }

  /** Text after the last newline is never read: a final chunk without a
      newline, after which the reader reports done, adds no delta. */
  lemma UnterminatedTailIgnored(mode: OnMalformed, parse: Parser, chunks: seq<string>, tail: string)
    requires Clean(mode, parse, Concat(chunks))
    requires '\n' !in tail
    ensures Run(mode, parse, chunks + [tail]).deltas == Run(mode, parse, chunks).deltas
  {
    assert (chunks + [tail])[..|chunks|] == chunks;
    var s := Concat(chunks);
    CleanAppend(mode, parse, s, tail);
    ReferenceAppend(parse, s, tail);
    RunOnClean(mode, parse, chunks);
    assert Reference(parse, Remainder(s) + tail) == [] by {
      assert CutLine(Remainder(s) + tail).None?;
    }
    RunOnClean(mode, parse, chunks + [tail]);
  }
}
