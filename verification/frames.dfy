/**
 * One line of the streamed chat-completion response: cutting it off the
 * buffer, dropping its carriage return, and deciding what it means
 * (VoiceTutor.tsx lines 127-143, repeated in ParaphraseTools.tsx).
 */
module Frames {
  import opened Wrappers
  import opened Text

  /** What `JSON.parse(payload)` followed by the read of
      `parsed.choices?.[0]?.delta?.content` yields: an exception
      (`Malformed`), or the content, absent when the path is missing. */
  datatype ParseResult = Malformed | Parsed(content: Option<string>)

  /** The JSON parser is foreign code; every property below holds for any
      parser, so it is passed in rather than fixed. */
  type Parser = string -> ParseResult

  const DataPrefix: string := "data: "
  const DoneSentinel: string := "[DONE]"

  /** A complete line and the buffer that follows its `'\n'`. */
  datatype Cut = Cut(line: string, rest: string)

  /** `indexOf("\n")` then the two `slice`s: the line before the first
      newline and the text after it, with nothing lost; none when the buffer
      holds no newline yet. */
  function CutLine(buf: string): (r: Option<Cut>)
    ensures r.None? <==> '\n' !in buf
    ensures r.Some? ==> '\n' !in r.value.line && buf == r.value.line + "\n" + r.value.rest
  {
    match IndexOf(buf, '\n')
    case None => None
    case Some(i) =>
      assert buf == buf[..i] + "\n" + buf[i + 1..];
      Some(Cut(buf[..i], buf[i + 1..]))
  }

  /** The first newline is the only place a buffer can be cut: any split
      `line + "\n" + rest` with a newline-free `line` is the one `CutLine` finds. */
  lemma CutLineUnique(line: string, rest: string)
    requires '\n' !in line
    ensures CutLine(line + "\n" + rest) == Some(Cut(line, rest))
  {
    var buf := line + "\n" + rest;
    var i := IndexOf(buf, '\n').value;
    assert buf[..|line|] == line;
    assert buf[|line|] == '\n';
    assert buf[..i] == line;
    assert buf[i + 1..] == rest;
  }

  /** `if (line.endsWith("\r")) line = line.slice(0, -1)`: at most one
      carriage return is removed, and only from the end. */
  function StripCR(line: string): (r: string)
    ensures line == r || line == r + "\r"
    ensures |r| < |line| <==> |line| > 0 && line[|line| - 1] == '\r'
  {
    if |line| > 0 && line[|line| - 1] == '\r' then line[..|line| - 1] else line
  }

  /** The three kinds of line the reader tells apart. */
  datatype LineKind = Ignored | Sentinel | Data(payload: string)

  /** A data line is neither a comment nor blank. */
  lemma DataLineIsNotSkipped(line: string)
    requires StartsWith(line, DataPrefix)
    ensures !StartsWith(line, ":") && Trim(line) != ""
  {
    assert line[0] == 'd';
    TrimNotEmpty(line, 0);
  }

  /** Comment and blank lines, then lines without the exact `"data: "`
      prefix, are ignored; the rest have the prefix cut and are trimmed, and
      the trimmed text is compared with `[DONE]` before anything parses it.
      Because a line starting with `"data: "` is neither a comment nor blank,
      a line is ignored exactly when it lacks the prefix. */
  function Classify(line: string): (k: LineKind)
    ensures k.Ignored? <==> !StartsWith(line, DataPrefix)
    ensures k.Sentinel? <==> StartsWith(line, DataPrefix) && Trim(line[|DataPrefix|..]) == DoneSentinel
    ensures k.Data? ==> k.payload == Trim(line[|DataPrefix|..]) && k.payload != DoneSentinel
  {
    if StartsWith(line, ":") || Trim(line) == "" then
      assert !StartsWith(line, DataPrefix) by {
        if StartsWith(line, DataPrefix) { DataLineIsNotSkipped(line); }
      }
      Ignored
    else if !StartsWith(line, DataPrefix) then Ignored
    else
      var payload := Trim(line[|DataPrefix|..]);
      if payload == DoneSentinel then Sentinel else Data(payload)
  }

  /** What one (carriage-return-stripped) line does to the reader. */
  datatype LineOutcome = NoDelta | Delta(text: string) | EndOfStream | Unparsable

  /** The body of the inner loop for one line: `[DONE]` ends the pass, a
      payload the parser rejects is `Unparsable`, and a delta is produced only
      for non-empty string content (`if (content)`). */
  function Interpret(parse: Parser, line: string): (o: LineOutcome)
    ensures o.Delta? ==> |o.text| > 0
  {
    match Classify(line)
    case Ignored => NoDelta
    case Sentinel => EndOfStream
    case Data(payload) =>
      match parse(payload)
      case Malformed => Unparsable
      case Parsed(content) =>
        if content.Some? && |content.value| > 0 then Delta(content.value) else NoDelta
  }

  /** What a line means, read off the line itself: only a line with the
      exact `"data: "` prefix can do anything; the sentinel is recognised on
      the trimmed payload whatever the parser would say about it; a payload
      other than the sentinel is handed to the parser, and its verdict decides
      between a rejected line, a delta and nothing. */
  lemma InterpretMeaning(parse: Parser, line: string)
    ensures !StartsWith(line, DataPrefix) ==> Interpret(parse, line) == NoDelta
    ensures Interpret(parse, line) == EndOfStream <==>
              StartsWith(line, DataPrefix) && Trim(line[|DataPrefix|..]) == DoneSentinel
    ensures Interpret(parse, line) == Unparsable <==>
              && StartsWith(line, DataPrefix)
              && Trim(line[|DataPrefix|..]) != DoneSentinel
              && parse(Trim(line[|DataPrefix|..])) == Malformed
    ensures Interpret(parse, line).Delta? <==>
              && StartsWith(line, DataPrefix)
              && Trim(line[|DataPrefix|..]) != DoneSentinel
              && parse(Trim(line[|DataPrefix|..])).Parsed?
              && parse(Trim(line[|DataPrefix|..])).content.Some?
              && |parse(Trim(line[|DataPrefix|..])).content.value| > 0
    ensures Interpret(parse, line).Delta? ==>
              parse(Trim(line[|DataPrefix|..])) == Parsed(Some(Interpret(parse, line).text))
  {
  }

  /** A text cut from the front of `line` can only start with `p` if `line` does. */
  lemma PrefixOfKeepsStart(r: string, line: string, p: string)
    requires |r| <= |line| && r == line[..|r|]
    ensures StartsWith(r, p) ==> StartsWith(line, p)
  {
    if |p| <= |r| {
      assert line[..|p|] == r[..|p|];
    }
  }

  /** Stripping the carriage return never changes what a line means: a data
      line keeps its prefix and `trim` removes the `'\r'` anyway. It matters
      only for the text pushed back onto the buffer. */
  lemma StripCRKeepsOutcome(parse: Parser, line: string)
    ensures Interpret(parse, StripCR(line)) == Interpret(parse, line)
  {
    var r := StripCR(line);
    if r != line {
      assert line == r + "\r";
      if StartsWith(line, DataPrefix) {
        assert line[5] == ' ';
        assert |line| > |DataPrefix|;
        assert r[..|DataPrefix|] == line[..|DataPrefix|];
        assert line[|DataPrefix|..] == r[|DataPrefix|..] + ['\r'];
        TrimDropsTrailingSpace(r[|DataPrefix|..], '\r');
      } else {
        PrefixOfKeepsStart(r, line, DataPrefix);
      }
    }
  }
}
