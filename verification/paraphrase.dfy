/**
 * The two writing tools of ParaphraseTools.tsx: paraphrasing a text (lines
 * 19-99) and generating a spreadsheet formula (lines 101-181). Both guard
 * against blank input, clear their output, send one prompt, and append every
 * streamed delta to the output, decoding in drop mode.
 */
module Paraphrase {
  import opened Wrappers
  import opened Text
  import opened Frames
  import opened Decoder
  import opened ChunkBoundaries
  import opened FinishedResponse
  import opened Gate

  datatype Tool = Paraphrasing | FormulaWriting

  const ParaphraseLead: string := "Paraphrase the following text professionally: "
  const FormulaLead: string := "Generate an Excel formula for: "
  const FormulaTail: string := ". Provide the formula and a brief explanation."

  /** The single user message a tool sends for the text typed into it. */
  function Prompt(tool: Tool, request: string): (p: string)
    ensures tool == Paraphrasing ==> |p| == |ParaphraseLead| + |request|
    ensures tool == FormulaWriting ==> |p| == |FormulaLead| + |request| + |FormulaTail|
  {
    match tool
    case Paraphrasing => ParaphraseLead + request
    case FormulaWriting => FormulaLead + request + FormulaTail
  }

  /** The typed text can be read back out of the prompt. */
  function Unprompt(tool: Tool, p: string): (request: Option<string>)
  {
    match tool
    case Paraphrasing =>
      if |ParaphraseLead| <= |p| && p[..|ParaphraseLead|] == ParaphraseLead
      then Some(p[|ParaphraseLead|..]) else None
    case FormulaWriting =>
      var n := |FormulaLead| + |FormulaTail|;
      if n <= |p| && p[..|FormulaLead|] == FormulaLead && p[|p| - |FormulaTail|..] == FormulaTail
      then Some(p[|FormulaLead|..|p| - |FormulaTail|]) else None
  }

  /** Prompts round-trip, so different texts give different prompts. */
  lemma PromptRoundTrip(tool: Tool, request: string)
    ensures Unprompt(tool, Prompt(tool, request)) == Some(request)
  {
    var p := Prompt(tool, request);
    match tool
    case Paraphrasing =>
      assert p[..|ParaphraseLead|] == ParaphraseLead;
      assert p[|ParaphraseLead|..] == request;
    case FormulaWriting =>
      assert p[..|FormulaLead|] == FormulaLead;
      assert p[|p| - |FormulaTail|..] == FormulaTail;
      assert p[|FormulaLead|..|p| - |FormulaTail|] == request;
  }

  /** The output updater `prev => prev + content`, applied once per delta in
      arrival order. */
  function Accumulate(output: string, deltas: seq<string>): string
    decreases |deltas|
  {
    if |deltas| == 0 then output else Accumulate(output + deltas[0], deltas[1..])
  }

  /** Appending deltas one by one gives the starting output followed by all
      of them, in order. */
  lemma {:induction false} AccumulateConcat(output: string, deltas: seq<string>)
    ensures Accumulate(output, deltas) == output + Concat(deltas)
    decreases |deltas|
  {
    if |deltas| > 0 {
      AccumulateConcat(output + deltas[0], deltas[1..]);
      assert deltas == [deltas[0]] + deltas[1..];
      ConcatCons(deltas[0], deltas[1..]);
    }
  }

  /** What one press of a tool's button produces: its output box afterwards,
      the prompt sent (if any), whether the blank-input warning was shown and
      whether the request failed. */
  datatype Outcome = Outcome(output: string, prompt: Option<string>, blank: bool, failed: bool)

  /** One press of a tool's button with `input` typed in and `output` on
      show, given the server's response to the prompt. */
  function Submit(tool: Tool, parse: Parser, input: string, output: string, resp: Response): (o: Outcome)
    ensures o.blank <==> AllSpace(input)
    ensures o.blank ==> o == Outcome(output, None, true, false)
    ensures !o.blank ==> o.prompt == Some(Prompt(tool, input))
    ensures o.failed <==> !o.blank && Admit(resp).Fail?
    ensures o.failed ==> o.output == ""
  {
    TrimSpec(input);
    if Trim(input) == "" then Outcome(output, None, true, false)
    else
      match Admit(resp)
      case Fail(_) => Outcome("", Some(Prompt(tool, input)), false, true)
      case Proceed(chunks) =>
        Outcome(Accumulate("", Run(Drop, parse, chunks).deltas), Some(Prompt(tool, input)), false, false)
  }

  /** After a successful request the output is every decoded delta, in order,
      and nothing of what was on show before. */
  lemma SubmitShowsReply(tool: Tool, parse: Parser, input: string, output: string, resp: Response)
    requires !AllSpace(input)
    requires Admit(resp).Proceed?
    ensures Submit(tool, parse, input, output, resp).output == Concat(Run(Drop, parse, resp.body.value).deltas)
  {
    AccumulateConcat("", Run(Drop, parse, resp.body.value).deltas);
  }

  /** On a response without a `[DONE]` line, the output is the content of the
      complete lines of the whole body, however it was split into chunks;
      lines the parser rejects contribute nothing. */
  lemma SubmitCleanReply(tool: Tool, parse: Parser, input: string, output: string, resp: Response)
    requires !AllSpace(input)
    requires Admit(resp).Proceed?
    requires Clean(Drop, parse, Concat(resp.body.value))
    ensures Submit(tool, parse, input, output, resp).output == Concat(Reference(parse, Concat(resp.body.value)))
  {
    SubmitShowsReply(tool, parse, input, output, resp);
    RunOnClean(Drop, parse, resp.body.value);
  }

  /** On a finished response (its lines before `data: [DONE]` free of
      another `[DONE]`, the `[DONE]` line, then lines carrying no delta), the
      output is the content of the lines before `[DONE]`, however the body
      was split into chunks. */
  lemma SubmitFinishedReply(tool: Tool, parse: Parser, input: string, output: string, resp: Response, s: string, d: string, t: string)
    requires !AllSpace(input)
    requires Admit(resp).Proceed?
    requires FinishedAt(Drop, parse, Concat(resp.body.value), s, d, t)
    ensures Submit(tool, parse, input, output, resp).output == Concat(Reference(parse, s))
  {
    SubmitShowsReply(tool, parse, input, output, resp);
    FinishedReply(Drop, parse, resp.body.value, s, d, t);
  }

  /** The model shares one decoder between the tools, because their read
      loops (lines 60-88 and 142-170) differ only in the output setter they
      call. This lemma records that choice: with the same input and response
      the tools show the same output, which holds because `Submit`'s output
      does not depend on the tool. */
  lemma ToolsDecodeAlike(parse: Parser, input: string, output: string, resp: Response)
    ensures Submit(Paraphrasing, parse, input, output, resp).output == Submit(FormulaWriting, parse, input, output, resp).output
  {
  }
}
