/**
 * Chunk boundaries on a finished response. A response ends with the
 * `data: [DONE]` line and, after it, lines that carry no delta (the blank
 * line that closes the event, say). On such a response the reader of
 * VoiceTutor.tsx lines 122-158 and ParaphraseTools.tsx lines 60-88 emits
 * exactly the deltas of the complete lines before the sentinel, however the
 * text was split into chunks: the pass that meets `[DONE]` stops there, and
 * every later pass finds nothing to emit.
 */
module FinishedResponse {
  import opened Wrappers
  import opened Text
  import opened Frames
  import opened Decoder
  import opened ChunkBoundaries

  /** The text `w` of a response is `s`, then the sentinel line `d`, then
      `t`: `s` ends at a line boundary and holds no sentinel (and, in
      push-back mode, no rejected line), and no complete line of `t` carries
      a delta. */
  predicate FinishedAt(mode: OnMalformed, parse: Parser, w: string, s: string, d: string, t: string)
  {
    && w == s + d + "\n" + t
    && Clean(mode, parse, s) && Remainder(s) == ""
    && '\n' !in d && Interpret(parse, d) == EndOfStream
    && Reference(parse, t) == []
  }

  /** A pass over clean complete lines followed by the sentinel line emits
      the deltas of those lines, stops on the sentinel and leaves exactly
      the text after it. */
  lemma {:induction false} PassToSentinel(mode: OnMalformed, parse: Parser, x: string, v: string)
    requires Clean(mode, parse, x)
    requires Interpret(parse, Remainder(x)) == EndOfStream
    ensures Pass(mode, parse, x + "\n" + v) == PassResult(v, Reference(parse, x), SawDone)
    decreases |x|
  {
    match CutLine(x)
    case None =>
      StripCRKeepsOutcome(parse, x);
      PassFront(mode, parse, x, v);
    case Some(c) =>
      PassToSentinel(mode, parse, c.rest, v);
      PassToSentinelStep(mode, parse, c.line, c.rest, v);
  }

  /** The inductive step of `PassToSentinel`: one more clean line in front. */
  lemma PassToSentinelStep(mode: OnMalformed, parse: Parser, line: string, rest: string, v: string)
    requires '\n' !in line
    requires Clean(mode, parse, line + "\n" + rest)
    requires Interpret(parse, Remainder(rest)) == EndOfStream ==>
               Pass(mode, parse, rest + "\n" + v) == PassResult(v, Reference(parse, rest), SawDone)
    requires Interpret(parse, Remainder(line + "\n" + rest)) == EndOfStream
    ensures var x := line + "\n" + rest;
            Pass(mode, parse, x + "\n" + v) == PassResult(v, Reference(parse, x), SawDone)
  {
    var x := line + "\n" + rest;
    CutLineUnique(line, rest);
    RemainderStep(line, rest);
    ReferenceStep(parse, line, rest);
    StripCRKeepsOutcome(parse, line);
    AppendAssoc(line + "\n", rest, "\n");
    AppendAssoc(line + "\n", rest + "\n", v);
    assert x + "\n" + v == line + "\n" + (rest + "\n" + v);
    PassFront(mode, parse, line, rest + "\n" + v);
  }

  /** Text whose complete lines carry no delta stays silent: a pass over
      the part of it received so far emits nothing, and what it leaves,
      followed by the text still to come, is silent again. */
  lemma {:induction false} PassSilent(mode: OnMalformed, parse: Parser, b: string, r: string)
    requires Reference(parse, b + r) == []
    ensures var p := Pass(mode, parse, b);
            p.emitted == [] && Reference(parse, p.rest + r) == []
    decreases |b|
  {
    match CutLine(b)
    case None =>
    case Some(c) =>
      SilentFront(parse, c.line, c.rest, r);
      PassSilent(mode, parse, c.rest, r);
      PassSilentStep(mode, parse, c.line, c.rest, r);
  }

  /** The first line of silent text carries no delta, and the rest is silent. */
  lemma SilentFront(parse: Parser, line: string, rest: string, r: string)
    requires '\n' !in line
    requires Reference(parse, line + "\n" + rest + r) == []
    ensures !Interpret(parse, line).Delta? && Reference(parse, rest + r) == []
  {
    ReferenceFront(parse, line, rest, r);
  }

  /** The inductive step of `PassSilent`: one more silent line in front. */
  lemma PassSilentStep(mode: OnMalformed, parse: Parser, line: string, rest: string, r: string)
    requires '\n' !in line
    requires !Interpret(parse, line).Delta? && Reference(parse, rest + r) == []
    requires var p := Pass(mode, parse, rest);
             p.emitted == [] && Reference(parse, p.rest + r) == []
    ensures var p := Pass(mode, parse, line + "\n" + rest);
            p.emitted == [] && Reference(parse, p.rest + r) == []
  {
    PassFront(mode, parse, line, rest);
    StripCRKeepsOutcome(parse, line);
    var stripped := StripCR(line);
    if Interpret(parse, stripped) == Unparsable && mode == Rebuffer {
      assert '\n' !in stripped by { assert stripped == line[..|stripped|]; }
      ReferenceFront(parse, stripped, rest, r);
    }
  }

  /** After the sentinel line has arrived, no later chunk adds a delta. */
  lemma {:induction false} FeedSilent(mode: OnMalformed, parse: Parser, st: State, more: seq<string>)
    requires Reference(parse, st.buffer + Concat(more)) == []
    ensures Feed(mode, parse, st, more).deltas == st.deltas
    decreases |more|
  {
    if |more| > 0 {
      var c := more[0];
      var later := more[1..];
      assert more == [c] + later;
      FeedAppend(mode, parse, st, [c], later);
      assert [c][..0] == [];
      var p := Pass(mode, parse, st.buffer + c);
      assert Feed(mode, parse, st, [c]) == State(p.rest, st.deltas + p.emitted);
      ConcatCons(c, later);
      AppendAssoc(st.buffer, c, Concat(later));
      PassSilent(mode, parse, st.buffer + c, Concat(later));
      assert st.deltas + [] == st.deltas;
      FeedSilent(mode, parse, State(p.rest, st.deltas), later);
    }
  }

  /** The chunk during which the text first grows past `n` characters. */
  function Arrival(chunks: seq<string>, n: nat): (k: nat)
    requires n < |Concat(chunks)|
    ensures k < |chunks| && |Concat(chunks[..k])| <= n < |Concat(chunks[..k + 1])|
    decreases |chunks|
  {
    var init := chunks[..|chunks| - 1];
    if n < |Concat(init)| then
      var k := Arrival(init, n);
      assert chunks[..k] == init[..k] && chunks[..k + 1] == init[..k + 1];
      k
    else
      assert chunks[..|chunks|] == chunks;
      |chunks| - 1
  }

  /** Where a newline at position `|pre|` of `pre + "\n" + post` falls
      inside the piece `c` of `a + c + z`. */
  lemma SplitAtNewline(a: string, c: string, z: string, pre: string, post: string)
    requires a + c + z == pre + "\n" + post
    requires |a| <= |pre| < |a| + |c|
    ensures var j := |pre| - |a|;
            && pre == a + c[..j]
            && c == c[..j] + "\n" + c[j + 1..]
            && c[j + 1..] + z == post
  {
    var w := a + c + z;
    var j := |pre| - |a|;
    assert pre == w[..|pre|];
    assert w[..|pre|] == a + c[..j];
    assert c[j] == w[|pre|] == '\n';
    assert c == c[..j] + "\n" + c[j + 1..];
    assert post == w[|pre| + 1..];
    assert w[|pre| + 1..] == c[j + 1..] + z;
  }

  /** The read loop over chunks `a` and then `c`, when the sentinel's
      newline arrives in `c`: the pass over the last chunk stops on the
      sentinel, having emitted the rest of the deltas before it. */
  lemma UpToSentinel(mode: OnMalformed, parse: Parser, a: seq<string>, c: string, s: string, d: string, q: string, t1: string)
    requires Clean(mode, parse, s) && Remainder(s) == ""
    requires '\n' !in d && Interpret(parse, d) == EndOfStream
    requires s + d == Concat(a) + q && c == q + "\n" + t1
    ensures Run(mode, parse, a + [c]) == State(t1, Reference(parse, s))
  {
    var p := Concat(a);
    var x := Remainder(p) + q;
    SentinelLine(mode, parse, s, d);
    PrefixSplit(mode, parse, p, q);
    RunOnClean(mode, parse, a);
    PassToSentinel(mode, parse, x, t1);
    Regroup(Remainder(p), q, t1);
    FeedOne(mode, parse, Run(mode, parse, a), c);
    FeedAppend(mode, parse, Start, a, [c]);
  }

  /** Clean text ending at a line boundary, followed by the sentinel line,
      is clean, has the sentinel line as its tail and the same deltas. */
  lemma SentinelLine(mode: OnMalformed, parse: Parser, s: string, d: string)
    requires Clean(mode, parse, s) && Remainder(s) == ""
    requires '\n' !in d
    ensures Clean(mode, parse, s + d) && Remainder(s + d) == d
    ensures Reference(parse, s + d) == Reference(parse, s)
  {
    assert CutLine(d).None?;
    assert "" + d == d;
    CleanAppend(mode, parse, s, d);
    RemainderAppend(s, d);
    ReferenceAppend(parse, s, d);
  }

  /** Clean text cut anywhere: both parts are clean as the loop sees them,
      and the tail and the deltas split accordingly. */
  lemma PrefixSplit(mode: OnMalformed, parse: Parser, p: string, q: string)
    requires Clean(mode, parse, p + q)
    ensures Clean(mode, parse, p) && Clean(mode, parse, Remainder(p) + q)
    ensures Remainder(p + q) == Remainder(Remainder(p) + q)
    ensures Reference(parse, p + q) == Reference(parse, p) + Reference(parse, Remainder(p) + q)
  {
    CleanAppend(mode, parse, p, q);
    RemainderAppend(p, q);
    ReferenceAppend(parse, p, q);
  }

  /** The buffer, then a chunk that completes a line. */
  lemma Regroup(r: string, q: string, t: string)
    ensures r + (q + "\n" + t) == (r + q) + "\n" + t
  {
  }

  /** Reading one chunk is one step. */
  lemma FeedOne(mode: OnMalformed, parse: Parser, st: State, c: string)
    ensures Feed(mode, parse, st, [c]) == Step(mode, parse, st, c)
  {
    var one: seq<string> := [c];
    assert one[..0] == [];
  }

  /** Chunk-boundary invariance on a finished response: the deltas are
      those of the complete lines before the sentinel line, whatever the
      split into chunks. */
  lemma FinishedReply(mode: OnMalformed, parse: Parser, chunks: seq<string>, s: string, d: string, t: string)
    requires FinishedAt(mode, parse, Concat(chunks), s, d, t)
    ensures Run(mode, parse, chunks).deltas == Reference(parse, s)
  {
    var a, c, z, q, t1 := SentinelChunk(chunks, s + d, t);
    UpToSentinel(mode, parse, a, c, s, d, q, t1);
    AfterSentinel(mode, parse, a + [c], z, Reference(parse, s));
  }

  /** The chunk `c` during which the newline after `pre` arrives splits
      into the end of `pre`, that newline, and the start of `post`. */
  lemma SentinelChunk(chunks: seq<string>, pre: string, post: string)
      returns (a: seq<string>, c: string, z: seq<string>, q: string, t1: string)
    requires Concat(chunks) == pre + "\n" + post
    ensures chunks == a + [c] + z
    ensures pre == Concat(a) + q && c == q + "\n" + t1 && t1 + Concat(z) == post
  {
    var k := Arrival(chunks, |pre|);
    a, c, z := chunks[..k], chunks[k], chunks[k + 1..];
    ChunkAt(chunks, k);
    ConcatAround(a, c, z);
    SplitAtNewline(Concat(a), c, Concat(z), pre, post);
    var j := |pre| - |Concat(a)|;
    q, t1 := c[..j], c[j + 1..];
  }

  /** A sequence of chunks around its `k`-th one. */
  lemma ChunkAt(chunks: seq<string>, k: nat)
    requires k < |chunks|
    ensures chunks == chunks[..k] + [chunks[k]] + chunks[k + 1..]
    ensures chunks[..k + 1] == chunks[..k] + [chunks[k]]
  {
  }

  /** The text of chunks `a`, then `c`, then `z`. */
  lemma ConcatAround(a: seq<string>, c: string, z: seq<string>)
    ensures Concat(a + [c]) == Concat(a) + c
    ensures Concat(a + [c] + z) == Concat(a) + c + Concat(z)
  {
    ConcatOne(c);
    ConcatAppend(a, [c]);
    ConcatAppend(a + [c], z);
  }

  /** One chunk concatenates to itself. */
  lemma ConcatOne(c: string)
    ensures Concat([c]) == c
  {
    var one: seq<string> := [c];
    assert one[..0] == [];
  }

  /** Once the loop has read past the sentinel line and holds silent text,
      the chunks still to come leave its deltas as they are. */
  lemma AfterSentinel(mode: OnMalformed, parse: Parser, a: seq<string>, z: seq<string>, deltas: seq<string>)
    requires Run(mode, parse, a).deltas == deltas
    requires Reference(parse, Run(mode, parse, a).buffer + Concat(z)) == []
    ensures Run(mode, parse, a + z).deltas == deltas
  {
    FeedAppend(mode, parse, Start, a, z);
    FeedSilent(mode, parse, Run(mode, parse, a), z);
  }

  /** On a finished response, any split into chunks gives the deltas of
      delivering the whole response in one chunk. */
  lemma FinishedSplitInvariance(mode: OnMalformed, parse: Parser, chunks: seq<string>, s: string, d: string, t: string)
    requires FinishedAt(mode, parse, Concat(chunks), s, d, t)
    ensures Run(mode, parse, chunks).deltas == Run(mode, parse, [Concat(chunks)]).deltas
  {
    var whole := [Concat(chunks)];
    ConcatOne(Concat(chunks));
    FinishedReply(mode, parse, chunks, s, d, t);
    FinishedReply(mode, parse, whole, s, d, t);
  }
}
