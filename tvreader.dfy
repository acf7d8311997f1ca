/** The line reader of the SPDX tag:value format: it turns lines into
    (tag, value) pairs, skipping blank and comment lines and joining the
    lines of a multi-line `<text>` ... `</text>` value. */
module TVReader {
  import opened Wrappers
  import opened Strings

  datatype TagValue = TagValue(tag: string, value: string)

  /** The reader's fields, as a value. */
  datatype ReaderState = ReaderState(
    midtext: bool,
    tvList: seq<TagValue>,
    currentLine: int,
    currentTag: string,
    currentValue: string)

  /** Append a finished pair and clear the pending tag and value. */
  function Record(st: ReaderState, tag: string, value: string): ReaderState {
    st.(tvList := st.tvList + [TagValue(tag, value)], currentTag := "", currentValue := "")
  }

  /** What a line read outside a text block amounts to. */
  datatype ReadyLine =
    | Ignored                              // blank or comment
    | NoColon                              // an error
    | Complete(tag: string, value: string) // a pair on one line
    | Opened(tag: string, value: string)   // a text block starts; value so far

  /** The text processing of readNextLineFromReady: leading white space
      stripped, blank and `#` lines ignored, the tag trimmed before the
      first colon, then a plain trimmed value, a one-line `<text>` value, or
      the start of a text block. */
  function ClassifyReady(line: string): ReadyLine {
    var line2 := TrimLeftSpace(line);
    if line2 == "" || HasPrefix(line2, "#") then Ignored
    else
      var substrings := SplitN2(line2, ":");
      if |substrings| == 1 then NoColon
      else
        var tag := TrimSpace(substrings[0]);
        var text := SplitN2(substrings[1], "<text>");
        if |text| == 1 then Complete(tag, TrimSpace(text[0]))
        else
          var closing := SplitN2(text[1], "</text>");
          if |closing| > 1 then Complete(tag, closing[0])
          else Opened(tag, closing[0] + "\n")
  }

  /** readNextLineFromReady on the reader's state. */
  function FromReady(st: ReaderState, line: string): (r: (Outcome, ReaderState)) {
    match ClassifyReady(line)
    case Ignored => (Pass, st)
    case NoColon => (Fail("no colon found in '" + line + "'"), st)
    case Complete(tag, value) => (Pass, Record(st, tag, value))
    case Opened(tag, value) => (Pass, st.(midtext := true, currentTag := tag, currentValue := value))
  }

  /** The text before `</text>` on a line inside a text block, if the
      marker is there. */
  function ClosingText(line: string): (r: Option<string>) {
    var substrings := SplitN2(line, "</text>");
    if |substrings| == 1 then None else Some(substrings[0])
  }

  /** readNextLineFromMidtext on the reader's state. */
  function FromMidtext(st: ReaderState, line: string): (r: (Outcome, ReaderState)) {
    match ClosingText(line)
    case None => (Pass, st.(currentValue := st.currentValue + line + "\n"))
    case Some(p) => (Pass, Record(st.(midtext := false), st.currentTag, st.currentValue + p))
  }

  /** readNextLine on the reader's state. */
  function NextLine(st: ReaderState, line: string): (r: (Outcome, ReaderState)) {
    var st1 := st.(currentLine := st.currentLine + 1);
    if st1.midtext then FromMidtext(st1, line) else FromReady(st1, line)
  }

  /** Feeding lines one at a time, stopping at the first error, as a caller
      of readNextLine does. */
  function ReadLines(st: ReaderState, lines: seq<string>): (r: (Outcome, ReaderState))
    decreases |lines|
  {
    if lines == [] then (Pass, st)
    else
      var (o, st1) := NextLine(st, lines[0]);
      if o.Fail? then (o, st1) else ReadLines(st1, lines[1..])
  }

  /** Each line advances the counter by one and appends at most one pair;
      earlier pairs are never changed. */
  lemma ReadNextLineGrowsByAtMostOne(st: ReaderState, line: string)
    ensures var st' := NextLine(st, line).1;
            && st'.currentLine == st.currentLine + 1
            && |st.tvList| <= |st'.tvList| <= |st.tvList| + 1
            && st'.tvList[..|st.tvList|] == st.tvList
  {
    var st' := NextLine(st, line).1;
    assert st'.tvList[..|st.tvList|] == st.tvList;
  }

  /** Over a run of lines the list only grows, by at most one pair per
      line, and the counter advances once per line read. */
  lemma {:induction false} ReadLinesGrows(st: ReaderState, lines: seq<string>)
    ensures var st' := ReadLines(st, lines).1;
            || (st.currentLine < st'.currentLine <= st.currentLine + |lines|)
            || (lines == [] && st' == st)
    ensures var st' := ReadLines(st, lines).1;
            && |st.tvList| <= |st'.tvList| <= |st.tvList| + |lines|
            && st'.tvList[..|st.tvList|] == st.tvList
    ensures ReadLines(st, lines).0.Pass? ==> ReadLines(st, lines).1.currentLine == st.currentLine + |lines|
    decreases |lines|
  {
    if lines != [] {
      ReadNextLineGrowsByAtMostOne(st, lines[0]);
      var (o, st1) := NextLine(st, lines[0]);
      if o.Pass? {
        ReadLinesGrows(st1, lines[1..]);
        var st' := ReadLines(st1, lines[1..]).1;
        assert st'.tvList[..|st.tvList|] == st'.tvList[..|st1.tvList|][..|st.tvList|];
      }
    } else {
      assert st.tvList[..|st.tvList|] == st.tvList;
    }
  }

  /** Outside a text block, a line that completes a pair appends it. */
  lemma ReadyLineCompletes(st: ReaderState, line: string, tag: string, value: string)
    requires !st.midtext && ClassifyReady(line) == Complete(tag, value)
    ensures NextLine(st, line) == (Pass, Record(st.(currentLine := st.currentLine + 1), tag, value))
  {
  }

  /** Outside a text block, a line that opens a text block records the tag
      and the value so far. */
  lemma ReadyLineOpens(st: ReaderState, line: string, tag: string, value: string)
    requires !st.midtext && ClassifyReady(line) == Opened(tag, value)
    ensures NextLine(st, line)
            == (Pass, st.(currentLine := st.currentLine + 1, midtext := true,
                          currentTag := tag, currentValue := value))
  {
  }

  /** Outside a text block, blank lines and comment lines (after leading
      white space) change nothing but the line counter. */
  lemma BlankAndCommentLinesIgnored(st: ReaderState, line: string)
    requires !st.midtext
    requires TrimLeftSpace(line) == "" || HasPrefix(TrimLeftSpace(line), "#")
    ensures NextLine(st, line) == (Pass, st.(currentLine := st.currentLine + 1))
  {
    assert ClassifyReady(line) == Ignored;
  }

  /** A character absent from a line is absent once leading white space is
      trimmed. */
  lemma AbsentAfterTrim(line: string, c: char)
    requires c !in line
    ensures c !in TrimLeftSpace(line)
  {
    var line2 := TrimLeftSpace(line);
    TrimLeftSpaceSpec(line);
    forall i | 0 <= i < |line2|
      ensures line2[i] != c
    {
      assert line2[i] == line[|line| - |line2| + i];
    }
  }

  lemma ClassifyNoColon(line: string)
    requires TrimLeftSpace(line) != "" && !HasPrefix(TrimLeftSpace(line), "#")
    requires ':' !in line
    ensures ClassifyReady(line) == NoColon
  {
    AbsentAfterTrim(line, ':');
    IndexOfAbsentChar(TrimLeftSpace(line), ':');
  }

  /** Outside a text block, a line that is neither blank nor a comment and
      has no colon is an error, and changes nothing but the line counter. */
  lemma LineWithoutColonFails(st: ReaderState, line: string)
    requires !st.midtext
    requires TrimLeftSpace(line) != "" && !HasPrefix(TrimLeftSpace(line), "#")
    requires ':' !in line
    ensures NextLine(st, line).0.Fail?
    ensures NextLine(st, line).1 == st.(currentLine := st.currentLine + 1)
  {
    ClassifyNoColon(line);
  }

  /** A tag that can be written on a line of its own: non-empty, no colon,
      not a comment, no surrounding white space. */
  predicate PlainTag(tag: string) {
    tag != [] && ':' !in tag && tag[0] != '#' && Trimmed(tag)
  }

  /** A line starting with a plain tag and a colon is neither blank nor a
      comment, and splits at that colon. */
  lemma SplitTagLine(tag: string, rest: string)
    requires PlainTag(tag)
    ensures var line := tag + ":" + rest;
            && TrimLeftSpace(line) == line && line != "" && !HasPrefix(line, "#")
            && SplitN2(line, ":") == [tag, rest]
            && TrimSpace(tag) == tag
  {
    var line := tag + ":" + rest;
    assert line[0] == tag[0];
    TrimLeftOfNonSpace(line);
    TrimSpaceOfTrimmed(tag);
    SplitAtChar(tag, ':', rest);
  }

  lemma ClassifyPair(tag: string, value: string)
    requires PlainTag(tag) && Trimmed(value)
    requires Index(value, "<text>").None?
    ensures ClassifyReady(tag + ": " + value) == Complete(tag, value)
  {
    assert tag + ": " + value == tag + ":" + (" " + value);
    SplitTagLine(tag, " " + value);
    IndexAfterChar(' ', value, "<text>");
    TrimSpaceAfterSpace(' ', value);
    TrimSpaceOfTrimmed(value);
  }

  /** Reading `tag: value` back gives exactly the pair written, for a
      trimmed value with no `<text>` marker. */
  lemma PairLineRoundTrip(st: ReaderState, tag: string, value: string)
    requires !st.midtext && PlainTag(tag) && Trimmed(value)
    requires Index(value, "<text>").None?
    ensures NextLine(st, tag + ": " + value)
            == (Pass, Record(st.(currentLine := st.currentLine + 1), tag, value))
  {
    ClassifyPair(tag, value);
    ReadyLineCompletes(st, tag + ": " + value, tag, value);
  }

  /** After `tag: ` the `<text>` marker comes first. */
  lemma SplitTextMarker(rest: string)
    ensures SplitN2(" <text>" + rest, "<text>") == [" ", rest]
  {
    assert Index(" ", "<text>").None?;
    SplitAtMarker(" ", "<text>", rest);
    assert " " + "<text>" + rest == " <text>" + rest;
  }

  /** The lines of the text forms, regrouped at the colon. */
  lemma TextLineAtColon(tag: string, rest: string)
    ensures tag + ": <text>" + rest == tag + ":" + (" <text>" + rest)
  {
    assert ": <text>" == ":" + " <text>";
  }

  lemma ClassifyOpenTextAtColon(tag: string, rest: string)
    requires PlainTag(tag)
    ensures ClassifyReady(tag + ":" + (" <text>" + rest))
            == (if Index(rest, "</text>").None? then Opened(tag, rest + "\n")
                else Complete(tag, SplitN2(rest, "</text>")[0]))
  {
    SplitTagLine(tag, " <text>" + rest);
    SplitTextMarker(rest);
  }

  lemma ClassifyOneLineText(tag: string, v: string, trailer: string)
    requires PlainTag(tag)
    requires Index(v, "</text>").None?
    ensures ClassifyReady(tag + ": <text>" + v + "</text>" + trailer) == Complete(tag, v)
  {
    var rest := v + "</text>" + trailer;
    assert tag + ": <text>" + v + "</text>" + trailer == tag + ": <text>" + rest;
    SplitAtMarker(v, "</text>", trailer);
    assert Index(rest, "</text>").Some? && SplitN2(rest, "</text>")[0] == v;
    ClassifyOpenTextAtColon(tag, rest);
    assert ClassifyReady(tag + ":" + (" <text>" + rest)) == Complete(tag, v);
    TextLineAtColon(tag, rest);
  }

  /** `tag: <text>v</text>` on one line gives the pair (tag, v), with v kept
      verbatim, untrimmed. */
  lemma OneLineTextRoundTrip(st: ReaderState, tag: string, v: string, trailer: string)
    requires !st.midtext && PlainTag(tag)
    requires Index(v, "</text>").None?
    ensures NextLine(st, tag + ": <text>" + v + "</text>" + trailer)
            == (Pass, Record(st.(currentLine := st.currentLine + 1), tag, v))
  {
    ClassifyOneLineText(tag, v, trailer);
    ReadyLineCompletes(st, tag + ": <text>" + v + "</text>" + trailer, tag, v);
  }

  lemma ClassifyOpenText(tag: string, v: string)
    requires PlainTag(tag)
    requires Index(v, "</text>").None?
    ensures ClassifyReady(tag + ": <text>" + v) == Opened(tag, v + "\n")
  {
    TextLineAtColon(tag, v);
    ClassifyOpenTextAtColon(tag, v);
  }

  /** `tag: <text>v` with no closing marker starts a text block: nothing is
      appended yet and the pending value is v plus a newline. */
  lemma OpenTextBlock(st: ReaderState, tag: string, v: string)
    requires !st.midtext && PlainTag(tag)
    requires Index(v, "</text>").None?
    ensures NextLine(st, tag + ": <text>" + v)
            == (Pass, st.(currentLine := st.currentLine + 1, midtext := true,
                          currentTag := tag, currentValue := v + "\n"))
  {
    ClassifyOpenText(tag, v);
    ReadyLineOpens(st, tag + ": <text>" + v, tag, v + "\n");
  }

  /** Inside a text block a line without `</text>` is kept verbatim plus a
      newline; comment and blank handling does not apply. */
  lemma MidtextLineKept(st: ReaderState, line: string)
    requires st.midtext && Index(line, "</text>").None?
    ensures NextLine(st, line)
            == (Pass, st.(currentLine := st.currentLine + 1, currentValue := st.currentValue + line + "\n"))
  {
    assert ClosingText(line).None?;
  }

  /** The closing line contributes only the text before `</text>`, appends
      the pair and leaves the text block. */
  lemma MidtextLineCloses(st: ReaderState, p: string, rest: string)
    requires st.midtext && Index(p, "</text>").None?
    ensures NextLine(st, p + "</text>" + rest)
            == (Pass, Record(st.(currentLine := st.currentLine + 1, midtext := false),
                             st.currentTag, st.currentValue + p))
  {
    SplitAtMarker(p, "</text>", rest);
    assert ClosingText(p + "</text>" + rest) == Some(p);
  }

  /** The text of body lines as a text block holds them: each followed by a
      newline. */
  function Joined(lines: seq<string>): string {
    if lines == [] then "" else lines[0] + "\n" + Joined(lines[1..])
  }

  /** Reading from a kept line onwards is reading the rest from the state
      that line leaves. */
  lemma ReadLinesAfterKept(st: ReaderState, lines: seq<string>)
    requires st.midtext && lines != [] && Index(lines[0], "</text>").None?
    ensures ReadLines(st, lines)
            == ReadLines(st.(currentLine := st.currentLine + 1,
                             currentValue := st.currentValue + lines[0] + "\n"), lines[1..])
  {
    MidtextLineKept(st, lines[0]);
  }

  lemma ConcatAssoc(a: string, b: string, c: string, d: string)
    ensures a + b + c + d == a + (b + c + d)
  {
  }

  /** Inside a text block, lines without `</text>` are gathered verbatim,
      each with its newline. */
  lemma {:induction false} MidtextLinesKept(st: ReaderState, lines: seq<string>)
    requires st.midtext
    requires forall i :: 0 <= i < |lines| ==> Index(lines[i], "</text>").None?
    ensures ReadLines(st, lines)
            == (Pass, st.(currentLine := st.currentLine + |lines|, currentValue := st.currentValue + Joined(lines)))
    decreases |lines|
  {
    if lines != [] {
      var st1 := st.(currentLine := st.currentLine + 1, currentValue := st.currentValue + lines[0] + "\n");
      ReadLinesAfterKept(st, lines);
      MidtextLinesKept(st1, lines[1..]);
      ConcatAssoc(st.currentValue, lines[0], "\n", Joined(lines[1..]));
      assert Joined(lines) == lines[0] + "\n" + Joined(lines[1..]);
    } else {
      assert st.currentValue + Joined(lines) == st.currentValue;
    }
  }

  /** A whole multi-line block read back: the value is the first line's
      text after `<text>`, every following line verbatim with its newline,
      and the closing line's text before `</text>`. */
  lemma TextBlockRoundTrip(st: ReaderState, tag: string, first: string,
                           body: seq<string>, last: string, trailer: string)
    requires !st.midtext && PlainTag(tag)
    requires Index(first, "</text>").None? && Index(last, "</text>").None?
    requires forall i :: 0 <= i < |body| ==> Index(body[i], "</text>").None?
    ensures ReadLines(st, [tag + ": <text>" + first] + body + [last + "</text>" + trailer])
            == (Pass, Record(st.(currentLine := st.currentLine + |body| + 2), tag,
                             first + "\n" + Joined(body) + last))
  {
    var opening := tag + ": <text>" + first;
    var closing := last + "</text>" + trailer;
    var st1 := st.(currentLine := st.currentLine + 1, midtext := true,
                   currentTag := tag, currentValue := first + "\n");
    OpenTextBlock(st, tag, first);
    assert [opening] + body + [closing] == [opening] + (body + [closing]);
    ReadLinesStep(st, opening, st1, body + [closing]);
    BodyThenClose(st1, body, last, trailer);
    var st3 := Record(st1.(currentLine := st1.currentLine + |body| + 1, midtext := false),
                      st1.currentTag, st1.currentValue + Joined(body) + last);
    assert ReadLines(st, [opening] + body + [closing]) == (Pass, st3);
    assert st3 == Record(st.(currentLine := st.currentLine + |body| + 2), tag,
                         first + "\n" + Joined(body) + last);
  }

  /** Inside a text block, body lines and then a closing line: the pair is
      the pending value, the body and the text before `</text>`. */
  lemma BodyThenClose(st: ReaderState, body: seq<string>, last: string, trailer: string)
    requires st.midtext && Index(last, "</text>").None?
    requires forall i :: 0 <= i < |body| ==> Index(body[i], "</text>").None?
    ensures ReadLines(st, body + [last + "</text>" + trailer])
            == (Pass, Record(st.(currentLine := st.currentLine + |body| + 1, midtext := false),
                             st.currentTag, st.currentValue + Joined(body) + last))
  {
    var closing := last + "</text>" + trailer;
    ReadLinesAppend(st, body, closing);
    MidtextLinesKept(st, body);
    var st2 := st.(currentLine := st.currentLine + |body|, currentValue := st.currentValue + Joined(body));
    assert ReadLines(st, body) == (Pass, st2);
    ClosingLineRead(st2, last, trailer);
    var st3 := Record(st2.(currentLine := st2.currentLine + 1, midtext := false), st2.currentTag, st2.currentValue + last);
    assert ReadLines(st2, [closing]) == (Pass, st3);
    assert ReadLines(st, body + [closing]) == (Pass, st3);
    assert st3 == Record(st.(currentLine := st.currentLine + |body| + 1, midtext := false),
                         st.currentTag, st.currentValue + Joined(body) + last);
  }

  lemma ClosingLineRead(st: ReaderState, last: string, trailer: string)
    requires st.midtext && Index(last, "</text>").None?
    ensures ReadLines(st, [last + "</text>" + trailer])
            == (Pass, Record(st.(currentLine := st.currentLine + 1, midtext := false),
                             st.currentTag, st.currentValue + last))
  {
    MidtextLineCloses(st, last, trailer);
    ReadLinesStep(st, last + "</text>" + trailer,
                  Record(st.(currentLine := st.currentLine + 1, midtext := false),
                         st.currentTag, st.currentValue + last), []);
    assert [last + "</text>" + trailer] + [] == [last + "</text>" + trailer];
  }

  /** Reading a line that succeeds, then the rest. */
  lemma ReadLinesStep(st: ReaderState, line: string, st1: ReaderState, rest: seq<string>)
    requires NextLine(st, line) == (Pass, st1)
    ensures ReadLines(st, [line] + rest) == ReadLines(st1, rest)
  {
    assert ([line] + rest)[1..] == rest;
  }

  /** Reading `a` and then one more line, when reading `a` succeeds. */
  lemma {:induction false} ReadLinesAppend(st: ReaderState, a: seq<string>, line: string)
    ensures ReadLines(st, a + [line])
            == (if ReadLines(st, a).0.Pass? then ReadLines(ReadLines(st, a).1, [line]) else ReadLines(st, a))
    decreases |a|
  {
    if a == [] {
      assert a + [line] == [line];
    } else {
      assert (a + [line])[0] == a[0];
      assert (a + [line])[1..] == a[1..] + [line];
      var (o, st1) := NextLine(st, a[0]);
      if o.Pass? {
        ReadLinesAppend(st1, a[1..], line);
      }
    }
  }

  /** The reader object: the model of `spdxTVReader`. */
  class SpdxTVReader {
    var midtext: bool
    var tvList: seq<TagValue>
    var currentLine: int
    var currentTag: string
    var currentValue: string

    function State(): ReaderState
      reads this
    {
      ReaderState(midtext, tvList, currentLine, currentTag, currentValue)
    }

    /** The zero value of the Go struct. */
    constructor ()
      ensures State() == ReaderState(false, [], 0, "", "")
    {
      midtext := false;
      tvList := [];
      currentLine := 0;
      currentTag := "";
      currentValue := "";
    }

    /** finalize: the pairs read so far, unless a text block is still
        open. */
    method Finalize() returns (r: Result<seq<TagValue>>)
      ensures r.Ok? <==> !midtext
      ensures r.Ok? ==> r.value == tvList
    {
      if midtext {
        return Err("finalize called while still midtext parsing a text tag");
      }
      return Ok(tvList);
    }

    method ReadNextLine(line: string) returns (err: Outcome)
      modifies this
      ensures (err, State()) == NextLine(old(State()), line)
    {
      currentLine := currentLine + 1;
      if midtext {
        err := ReadNextLineFromMidtext(line);
      } else {
        err := ReadNextLineFromReady(line);
      }
    }

    method ReadNextLineFromReady(line: string) returns (err: Outcome)
      modifies this
      ensures (err, State()) == FromReady(old(State()), line)
    {
      var line2 := TrimLeftSpace(line);
      if line2 == "" {
        assert ClassifyReady(line) == Ignored;
        return Pass;
      }
      if HasPrefix(line2, "#") {
        assert ClassifyReady(line) == Ignored;
        return Pass;
      }
      var substrings := SplitN2(line2, ":");
      if |substrings| == 1 {
        assert ClassifyReady(line) == NoColon;
        return Fail("no colon found in '" + line + "'");
      }
      currentTag := TrimSpace(substrings[0]);
      substrings := SplitN2(substrings[1], "<text>");
      if |substrings| == 1 {
        currentValue := TrimSpace(substrings[0]);
      } else {
        substrings := SplitN2(substrings[1], "</text>");
        if |substrings| > 1 {
          currentValue := substrings[0];
        } else {
          currentValue := substrings[0] + "\n";
          midtext := true;
          assert ClassifyReady(line) == Opened(currentTag, currentValue);
          return Pass;
        }
      }
      assert ClassifyReady(line) == Complete(currentTag, currentValue);
      tvList := tvList + [TagValue(currentTag, currentValue)];
      currentTag := "";
      currentValue := "";
      return Pass;
    }

    method ReadNextLineFromMidtext(line: string) returns (err: Outcome)
      modifies this
      ensures (err, State()) == FromMidtext(old(State()), line)
    {
      var substrings := SplitN2(line, "</text>");
      if |substrings| == 1 {
        currentValue := currentValue + line + "\n";
        return Pass;
      }
      currentValue := currentValue + substrings[0];
      tvList := tvList + [TagValue(currentTag, currentValue)];
      midtext := false;
      currentTag := "";
      currentValue := "";
      return Pass;
    }
  }
}
