/**
 * The JavaScript string operations the stream readers rely on: `trim`,
 * `startsWith`, `indexOf` of one character, and `+=` over a run of pieces.
 * Strings are `seq<char>`, one `char` per Unicode code point. The source
 * counts UTF-16 units instead, which agrees here: every cut falls on an ASCII
 * delimiter, and decoded text has no lone surrogates.
 */
module Text {
  import opened Wrappers

  /** The characters `String.prototype.trim` removes: ECMAScript WhiteSpace
      (tab, vertical tab, form feed, space, no-break space, byte order mark and
      the Zs category) and LineTerminator (LF, CR, LS, PS). */
  predicate IsSpace(c: char) {
    var n := c as int;
    n == 0x09 || n == 0x0A || n == 0x0B || n == 0x0C || n == 0x0D || n == 0x20
    || n == 0xA0 || n == 0x1680 || (0x2000 <= n <= 0x200A) || n == 0x2028
    || n == 0x2029 || n == 0x202F || n == 0x205F || n == 0x3000 || n == 0xFEFF
  }

  predicate AllSpace(s: string) {
    forall k :: 0 <= k < |s| ==> IsSpace(s[k])
  }

  predicate StartsWith(s: string, prefix: string) {
    |prefix| <= |s| && s[..|prefix|] == prefix
  }

  predicate IsSuffix(suffix: string, s: string) {
    |suffix| <= |s| && s[|s| - |suffix|..] == suffix
  }

  /** A suffix of the text after `front` is a suffix of the whole. */
  lemma SuffixOfSuffix(a: string, b: string, front: string)
    ensures IsSuffix(a, b) ==> IsSuffix(a, front + b)
  {
    if IsSuffix(a, b) {
      assert (front + b)[|front + b| - |a|..] == b[|b| - |a|..];
    }
  }

  /** Leading white space removed (the first half of `trim`). */
  function TrimStart(s: string): string
  {
    if |s| > 0 && IsSpace(s[0]) then TrimStart(s[1..]) else s
  }

  /** Trailing white space removed (the second half of `trim`). */
  function TrimEnd(s: string): string
  {
    if |s| > 0 && IsSpace(s[|s| - 1]) then TrimEnd(s[..|s| - 1]) else s
  }

  /** `String.prototype.trim`. */
  function Trim(s: string): string
  {
    TrimStart(TrimEnd(s))
  }

  /** `TrimStart` keeps a suffix of its input, everything it cuts off is white
      space, and what it keeps does not start with white space. */
  lemma {:induction false} TrimStartSpec(s: string)
    ensures var r := TrimStart(s);
            && IsSuffix(r, s)
            && AllSpace(s[..|s| - |r|])
            && (|r| > 0 ==> !IsSpace(r[0]))
    decreases |s|
  {
    if |s| > 0 && IsSpace(s[0]) {
      TrimStartSpec(s[1..]);
      var r := TrimStart(s);
      assert s[..|s| - |r|] == [s[0]] + s[1..][..|s[1..]| - |r|];
    }
  }

  /** `TrimEnd` keeps a prefix of its input, everything it cuts off is white
      space, and what it keeps does not end with white space. */
  lemma {:induction false} TrimEndSpec(s: string)
    ensures var r := TrimEnd(s);
            && |r| <= |s| && r == s[..|r|]
            && AllSpace(s[|r|..])
            && (|r| > 0 ==> !IsSpace(r[|r| - 1]))
    decreases |s|
  {
    if |s| > 0 && IsSpace(s[|s| - 1]) {
      var s' := s[..|s| - 1];
      TrimEndSpec(s');
      var r := TrimEnd(s);
      assert s[|r|..] == s'[|r|..] + [s[|s| - 1]];
    }
  }

  /** `trim` returns the slice `s[i..i + |r|]` with only white space outside
      it and no white space at either of its ends; it is empty exactly when
      `s` is all white space. */
  lemma TrimSpec(s: string)
    ensures var r := Trim(s);
            && (exists i ::
                  && 0 <= i <= |s| - |r| && r == s[i..i + |r|]
                  && AllSpace(s[..i]) && AllSpace(s[i + |r|..]))
            && (|r| > 0 ==> !IsSpace(r[0]) && !IsSpace(r[|r| - 1]))
            && (r == [] <==> AllSpace(s))
  {
    var e := TrimEnd(s);
    var r := TrimStart(e);
    TrimEndSpec(s);
    TrimStartSpec(e);
    var i := |e| - |r|;
    assert r == s[i..i + |r|];
    assert s[..i] == e[..i];
    assert s[i + |r|..] == s[|e|..];
    assert r == [] ==> s == e[..i] + s[|e|..];
  }

  /** A text with a character other than white space never trims to `""`. */
  lemma TrimNotEmpty(s: string, k: nat)
    requires k < |s| && !IsSpace(s[k])
    ensures Trim(s) != ""
  {
    TrimSpec(s);
  }

  /** Trailing white space never changes the trimmed text. */
  lemma TrimDropsTrailingSpace(s: string, c: char)
    requires IsSpace(c)
    ensures Trim(s + [c]) == Trim(s)
  {
    assert (s + [c])[..|s|] == s;
  }

  /** `s.indexOf(c)`: the position of the first occurrence of `c`, or none. */
  function IndexOf(s: string, c: char): (r: Option<nat>)
    ensures r.None? <==> c !in s
    ensures r.Some? ==> r.value < |s| && s[r.value] == c && c !in s[..r.value]
    ensures r.Some? ==> forall k :: 0 <= k < r.value ==> s[k] != c
  {
    if |s| == 0 then None
    else if s[0] == c then Some(0)
    else match IndexOf(s[1..], c)
      case None => None
      case Some(i) =>
        assert s[..i + 1] == [s[0]] + s[1..][..i];
        Some(i + 1)
  }

  /** The text obtained by `acc += piece` for each piece in turn, from `""`. */
  function Concat(pieces: seq<string>): string
  {
    if |pieces| == 0 then "" else Concat(pieces[..|pieces| - 1]) + pieces[|pieces| - 1]
  }

  lemma {:induction false} ConcatAppend(a: seq<string>, b: seq<string>)
    ensures Concat(a + b) == Concat(a) + Concat(b)
    decreases |b|
  {
    if |b| == 0 {
      assert a + b == a;
    } else {
      var b' := b[..|b| - 1];
      assert (a + b)[..|a + b| - 1] == a + b';
      ConcatAppend(a, b');
    }
  }

  lemma ConcatCons(d: string, ds: seq<string>)
    ensures Concat([d] + ds) == d + Concat(ds)
  {
    ConcatAppend([d], ds);
    assert [d][..0] == [];
  }

  /** Without empty pieces, the concatenation is empty only when there are
      no pieces at all. */
  lemma ConcatEmpty(pieces: seq<string>)
    requires "" !in pieces
    ensures Concat(pieces) == "" <==> |pieces| == 0
  {
    if |pieces| > 0 {
      assert pieces[|pieces| - 1] in pieces;
    }
  }

  /** Concatenation regroups freely. */
  lemma AppendAssoc<T>(a: seq<T>, b: seq<T>, c: seq<T>)
    ensures a + (b + c) == (a + b) + c
  {
  }

  /** A tail of `rest` that is all of it, or follows a newline in it, is a
      tail of `s == line + "\n" + rest` that follows a newline there. */
  lemma TailAfterCut(s: string, line: string, rest: string, r: string)
    requires s == line + "\n" + rest
    requires IsSuffix(r, rest)
    requires r == rest || IsSuffix("\n" + r, rest)
    ensures IsSuffix(r, s) && IsSuffix("\n" + r, s)
  {
    SuffixOfSuffix(r, rest, line + "\n");
    if r == rest {
      var t := "\n" + rest;
      assert t[0..] == t;
      AppendAssoc(line, "\n", rest);
      SuffixOfSuffix(t, t, line);
    } else {
      SuffixOfSuffix("\n" + r, rest, line + "\n");
    }
  }
}
