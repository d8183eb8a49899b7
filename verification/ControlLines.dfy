/**
 The control-line framer of EventsClient.attachStdin in packages/agent-cli/src/events-client.ts:
 chunks of standard input are cut into trimmed, non-empty lines.
 */
module ControlLines {
  import opened Utf16

  const LINE_LIMIT: nat := 16_384

  // ---------------------------------------------------------------- text

  /** Buffer.byteLength(text, "utf8"); a lone surrogate becomes the three-byte replacement character. */
  function Utf8Length(t: Text): nat
    decreases |t|
  {
    if t == [] then 0
    else if |t| >= 2 && High(t[0]) && Low(t[1]) then 4 + Utf8Length(t[2..])
    else (if t[0] < 0x80 then 1 else if t[0] < 0x800 then 2 else 3) + Utf8Length(t[1..])
  }

  /** The bytes one code unit accounts for; the halves of a surrogate pair share its four. */
  function Bytes(t: Text, i: nat): nat
    requires i < |t|
  {
    if t[i] <= 0x7F then 1
    else if t[i] <= 0x7FF then 2
    else if 0xD800 <= t[i] <= 0xDBFF && i + 1 < |t| && 0xDC00 <= t[i + 1] <= 0xDFFF then 2
    else if 0xDC00 <= t[i] <= 0xDFFF && i > 0 && 0xD800 <= t[i - 1] <= 0xDBFF then 2
    else 3
  }

  function BytesBefore(t: Text, n: nat): nat
    requires n <= |t|
  {
    if n == 0 then 0 else BytesBefore(t, n - 1) + Bytes(t, n - 1)
  }

  lemma {:induction false} LengthFrom(t: Text, i: nat)
    requires i <= |t| && !(0 < i < |t| && High(t[i - 1]) && Low(t[i]))
    ensures BytesBefore(t, |t|) == BytesBefore(t, i) + Utf8Length(t[i..])
    decreases |t| - i
  {
    if i < |t| {
      var rest := t[i..];
      if |rest| >= 2 && High(rest[0]) && Low(rest[1]) {
        assert rest[2..] == t[i + 2..];
        LengthFrom(t, i + 2);
      } else {
        assert rest[1..] == t[i + 1..];
        LengthFrom(t, i + 1);
      }
    }
  }

  /** The byte length is the sum over the code units. */
  lemma Utf8LengthIsSum(t: Text)
    ensures Utf8Length(t) == BytesBefore(t, |t|)
  {
    LengthFrom(t, 0);
    assert t[0..] == t;
  }

  function TrimStart(t: Text): Text
    decreases |t|
  {
    if t != [] && Whitespace(t[0]) then TrimStart(t[1..]) else t
  }

  function TrimEnd(t: Text): Text
    decreases |t|
  {
    if t != [] && Whitespace(t[|t| - 1]) then TrimEnd(t[..|t| - 1]) else t
  }

  function Trim(t: Text): Text {
    TrimEnd(TrimStart(t))
  }

  lemma TrimStartStep(t: Text)
    ensures TrimStart(t) == if t != [] && Whitespace(t[0]) then TrimStart(t[1..]) else t
  {
  }

  lemma TrimEndStep(t: Text)
    ensures TrimEnd(t) == if t != [] && Whitespace(t[|t| - 1]) then TrimEnd(t[..|t| - 1]) else t
  {
  }

  lemma {:induction false} TrimStartCuts(t: Text) returns (n: nat)
    ensures n <= |t| && TrimStart(t) == t[n..] && Blank(t[..n])
    ensures TrimStart(t) != [] ==> !Whitespace(TrimStart(t)[0])
    decreases |t|
  {
    hide Whitespace, TrimStart;
    TrimStartStep(t);
    if t != [] && Whitespace(t[0]) {
      var m := TrimStartCuts(t[1..]);
      n := m + 1;
      assert t[..n] == [t[0]] + t[1..][..m];
    } else {
      n := 0;
    }
  }

  lemma {:induction false} TrimEndCuts(t: Text) returns (n: nat)
    ensures n <= |t| && TrimEnd(t) == t[..n] && Blank(t[n..])
    ensures n > 0 ==> !Whitespace(t[n - 1])
    decreases |t|
  {
    hide Whitespace, TrimEnd;
    TrimEndStep(t);
    if t != [] && Whitespace(t[|t| - 1]) {
      var init := t[..|t| - 1];
      n := TrimEndCuts(init);
      assert t[n..] == init[n..] + [t[|t| - 1]];
      assert init[..n] == t[..n];
    } else {
      n := |t|;
    }
  }

  /** Trimming removes white space at both ends and nothing else. */
  lemma TrimKeepsTheCore(t: Text) returns (before: Text, after: Text)
    ensures t == before + Trim(t) + after && Blank(before) && Blank(after)
    ensures Trim(t) != [] ==> !Whitespace(Trim(t)[0]) && !Whitespace(Trim(t)[|Trim(t)| - 1])
    ensures Trim(t) == [] <==> Blank(t)
  {
    var n := TrimStartCuts(t);
    var m := TrimEndCuts(t[n..]);
    before, after := t[..n], t[n..][m..];
    assert t == before + (t[n..][..m] + after);
    if Trim(t) == [] {
      assert t == before + after;
    } else {
      assert !Whitespace(t[n]);
    }
  }

  /** The lines that have been ended by a line feed. */
  function Lines(t: Text): seq<Text>
    decreases |t|
  {
    var i := IndexOf(t, LINE_FEED);
    if i == |t| then [] else [t[..i]] + Lines(t[i + 1..])
  }

  /** What follows the last line feed. */
  function Rest(t: Text): Text
    decreases |t|
  {
    var i := IndexOf(t, LINE_FEED);
    if i == |t| then t else Rest(t[i + 1..])
  }

  function Glued(lines: seq<Text>): Text {
    if lines == [] then [] else lines[0] + [LINE_FEED] + Glued(lines[1..])
  }

  /** Cutting into lines loses nothing and leaves no line feed inside a piece. */
  lemma {:induction false} LinesRebuildTheText(t: Text)
    ensures Glued(Lines(t)) + Rest(t) == t
    ensures LINE_FEED !in Rest(t) && forall i :: 0 <= i < |Lines(t)| ==> LINE_FEED !in Lines(t)[i]
    decreases |t|
  {
    hide Glued, Lines, Rest, IndexOf;
    var i := IndexOf(t, LINE_FEED);
    FirstLine(t);
    if i < |t| {
      var head, tail := t[..i], t[i + 1..];
      LinesRebuildTheText(tail);
      GluedCons(head, Lines(tail));
      assert t == head + [LINE_FEED] + tail;
    } else {
      GluedNothing();
    }
  }

  lemma GluedNothing()
    ensures Glued([]) == []
  {
  }

  lemma GluedCons(line: Text, lines: seq<Text>)
    ensures Glued([line] + lines) == line + [LINE_FEED] + Glued(lines)
  {
  }

  /** The lines that are handled: trimmed, without the blank ones. */
  function Controls(lines: seq<Text>): seq<Text> {
    if lines == [] then []
    else (if Trim(lines[0]) != [] then [Trim(lines[0])] else []) + Controls(lines[1..])
  }

  lemma ControlsOfNothing()
    ensures Controls([]) == []
  {
  }

  lemma {:induction false} ControlsConcat(a: seq<Text>, b: seq<Text>)
    ensures Controls(a + b) == Controls(a) + Controls(b)
    decreases |a|
  {
    if a == [] {
      assert a + b == b;
    } else {
      assert (a + b)[1..] == a[1..] + b;
      ControlsConcat(a[1..], b);
    }
  }

  lemma ControlsSnoc(lines: seq<Text>, line: Text)
    ensures Controls(lines + [line]) == Controls(lines) + (if Trim(line) != [] then [Trim(line)] else [])
  {
    ControlsConcat(lines, [line]);
    assert [line][1..] == [];
  }

  /** Strictly increasing indices, of exactly the lines that are not blank. */
  predicate FullLines(lines: seq<Text>, at: seq<nat>) {
    && (forall i, j :: 0 <= i < j < |at| ==> at[i] < at[j])
    && (forall i :: 0 <= i < |at| ==> at[i] < |lines|)
    && forall k :: 0 <= k < |lines| ==> (k in at <==> !Blank(lines[k]))
  }

  predicate TrimmedAt(lines: seq<Text>, at: seq<nat>, controls: seq<Text>) {
    |at| == |controls| && forall i :: 0 <= i < |at| ==> at[i] < |lines| && controls[i] == Trim(lines[at[i]])
  }

  lemma FullLinesMore(lines: seq<Text>, line: Text, at: seq<nat>, controls: seq<Text>)
    requires FullLines(lines, at) && TrimmedAt(lines, at, controls)
    ensures Blank(line) ==> FullLines(lines + [line], at) && TrimmedAt(lines + [line], at, controls)
    ensures !Blank(line) ==>
              && FullLines(lines + [line], at + [|lines|])
              && TrimmedAt(lines + [line], at + [|lines|], controls + [Trim(line)])
  {
    hide Blank, Trim;
    assert |lines| !in at;
    assert forall k :: k in at + [|lines|] <==> k in at || k == |lines|;
  }

  lemma NoLines()
    ensures FullLines([], []) && TrimmedAt([], [], Controls([]))
  {
  }

  /** The handled lines are the lines that are not blank, in order, each trimmed. */
  lemma {:induction false} ControlsAreFullLines(lines: seq<Text>) returns (at: seq<nat>)
    ensures FullLines(lines, at) && TrimmedAt(lines, at, Controls(lines))
  {
    hide FullLines, TrimmedAt, Controls, Blank, Trim;
    if lines == [] {
      at := [];
      NoLines();
    } else {
      var init, line := lines[..|lines| - 1], lines[|lines| - 1];
      assert lines == init + [line];
      var before := ControlsAreFullLines(init);
      FullLinesMore(init, line, before, Controls(init));
      ControlsSnoc(init, line);
      var _, _ := TrimKeepsTheCore(line);
      if Blank(line) {
        at := before;
        assert Controls(init) + [] == Controls(init);
      } else {
        at := before + [|init|];
      }
    }
  }

  /** One unfolding of the cut into lines. */
  lemma FirstLine(t: Text)
    ensures var i := IndexOf(t, LINE_FEED);
            if i < |t| then Lines(t) == [t[..i]] + Lines(t[i + 1..]) && Rest(t) == Rest(t[i + 1..])
            else Lines(t) == [] && Rest(t) == t
  {
  }

  lemma IndexOfInConcat(a: Text, b: Text)
    requires LINE_FEED in a
    ensures var i := IndexOf(a, LINE_FEED);
            IndexOf(a + b, LINE_FEED) == i < |a| && (a + b)[..i] == a[..i] && (a + b)[i + 1..] == a[i + 1..] + b
  {
    var i := IndexOf(a, LINE_FEED);
    assert (a + b)[i] == LINE_FEED;
  }

  /** Only the unfinished line of what came before matters for what comes next. */
  lemma {:induction false} LinesOfMore(a: Text, b: Text)
    ensures Lines(a + b) == Lines(a) + Lines(Rest(a) + b)
    ensures Rest(a + b) == Rest(Rest(a) + b)
    decreases |a|
  {
    hide Lines, Rest, IndexOf;
    FirstLine(a);
    if LINE_FEED in a {
      var tail := a[IndexOf(a, LINE_FEED) + 1..];
      IndexOfInConcat(a, b);
      FirstLine(a + b);
      LinesOfMore(tail, b);
      assert [a[..IndexOf(a, LINE_FEED)]] + (Lines(tail) + Lines(Rest(a) + b)) == Lines(a) + Lines(Rest(a) + b);
    } else {
      assert [] + Lines(a + b) == Lines(a + b);
    }
  }

  // ---------------------------------------------------------------- the listener

  class ControlInput {
    var stdinBuffer: Text
    var handled: seq<Text>    // the lines passed on, in order
    var overflows: nat        // how often the 16 KiB diagnostic was raised

    constructor ()
      ensures stdinBuffer == [] && handled == [] && overflows == 0
    {
      stdinBuffer, handled, overflows := [], [], 0;
    }

    /** The data listener. An unfinished line over the limit is dropped with a diagnostic. */
    method OnData(chunk: Text)
      modifies this
      ensures var all := old(stdinBuffer) + chunk;
              && handled == old(handled) + Controls(Lines(all))
              && stdinBuffer == (if Utf8Length(Rest(all)) > 16_384 then [] else Rest(all))
              && overflows == old(overflows) + (if Utf8Length(Rest(all)) > 16_384 then 1 else 0)
    {
      hide Lines, Rest, Controls, Trim, Utf8Length, IndexOf;
      stdinBuffer := stdinBuffer + chunk;
      ghost var all := stdinBuffer;
      ghost var done: seq<Text> := [];
      ControlsOfNothing();
      var newline := IndexOf(stdinBuffer, LINE_FEED);
      while newline < |stdinBuffer|
        invariant newline == IndexOf(stdinBuffer, LINE_FEED)
        invariant Lines(all) == done + Lines(stdinBuffer) && Rest(all) == Rest(stdinBuffer)
        invariant handled == old(handled) + Controls(done) && overflows == old(overflows)
        decreases |stdinBuffer|
      {
        FirstLine(stdinBuffer);
        var raw := stdinBuffer[..newline];
        var line := Trim(raw);
        stdinBuffer := stdinBuffer[newline + 1..];
        if line != [] {
          handled := handled + [line];
        }
        ControlsSnoc(done, raw);
        done := done + [raw];
        newline := IndexOf(stdinBuffer, LINE_FEED);
      }
      FirstLine(stdinBuffer);
      assert Lines(all) == done;
      if Utf8Length(stdinBuffer) > LINE_LIMIT {
        overflows := overflows + 1;
        stdinBuffer := [];
      }
    }

    /** A whole input, chunk by chunk. */
    method Feed(chunks: seq<Text>)
      modifies this
      ensures (handled, stdinBuffer, overflows)
           == Framed((old(handled), old(stdinBuffer), old(overflows)), chunks)
    {
      hide Lines, Rest, Controls, Trim, Utf8Length, IndexOf;
      for i := 0 to |chunks|
        invariant Framed((handled, stdinBuffer, overflows), chunks[i..])
               == Framed((old(handled), old(stdinBuffer), old(overflows)), chunks)
      {
        assert chunks[i..][1..] == chunks[i + 1..];
        OnData(chunks[i]);
      }
    }
  }

  // ---------------------------------------------------------------- whole inputs

  /** Handled lines, buffer and diagnostics after some more chunks. */
  function Framed(from: (seq<Text>, Text, nat), chunks: seq<Text>): (seq<Text>, Text, nat)
    decreases |chunks|
  {
    if chunks == [] then from
    else
      var all := from.1 + chunks[0];
      var over := Utf8Length(Rest(all)) > LINE_LIMIT;
      var next := (from.0 + Controls(Lines(all)), if over then [] else Rest(all), from.2 + if over then 1 else 0);
      Framed(next, chunks[1..])
  }

  /** After no chunk is the unfinished line over the limit. */
  predicate FitsFrom(before: Text, chunks: seq<Text>)
    decreases |chunks|
  {
    chunks != [] ==>
      Utf8Length(Rest(before + chunks[0])) <= LINE_LIMIT && FitsFrom(before + chunks[0], chunks[1..])
  }

  lemma {:induction false} DiagnosticsOnlyGrow(from: (seq<Text>, Text, nat), chunks: seq<Text>)
    ensures Framed(from, chunks).2 >= from.2
    decreases |chunks|
  {
    if chunks != [] {
      var all := from.1 + chunks[0];
      var over := Utf8Length(Rest(all)) > LINE_LIMIT;
      var next := (from.0 + Controls(Lines(all)), if over then [] else Rest(all), from.2 + if over then 1 else 0);
      DiagnosticsOnlyGrow(next, chunks[1..]);
    }
  }

  lemma {:induction false} FramedFrom(before: Text, chunks: seq<Text>)
    ensures var start := (Controls(Lines(before)), Rest(before), 0);
            var end := Framed(start, chunks);
            var all := before + Joined(chunks);
            && (FitsFrom(before, chunks) <==> end.2 == 0)
            && (end.2 == 0 ==> end == (Controls(Lines(all)), Rest(all), 0))
    decreases |chunks|
  {
    hide Lines, Rest, Controls, Utf8Length, IndexOf;
    var start := (Controls(Lines(before)), Rest(before), 0);
    if chunks == [] {
      assert before + [] == before;
    } else {
      var more := before + chunks[0];
      LinesOfMore(before, chunks[0]);
      ControlsConcat(Lines(before), Lines(Rest(before) + chunks[0]));
      assert before + Joined(chunks) == more + Joined(chunks[1..]);
      if Utf8Length(Rest(more)) <= LINE_LIMIT {
        FramedFrom(more, chunks[1..]);
      } else {
        var all := start.1 + chunks[0];
        DiagnosticsOnlyGrow((start.0 + Controls(Lines(all)), [], 1), chunks[1..]);
      }
    }
  }

  /**
   Framing does not depend on the chunks: no diagnostic is raised exactly when every unfinished line
   stays within the limit, and then the handled lines and the buffer are those of the whole input.
   */
  lemma FramingIgnoresChunks(chunks: seq<Text>)
    ensures var end := Framed(([], [], 0), chunks);
            && (FitsFrom([], chunks) <==> end.2 == 0)
            && (end.2 == 0 ==> end.0 == Controls(Lines(Joined(chunks))) && end.1 == Rest(Joined(chunks)))
  {
    assert Lines([]) == [] && Rest([]) == [];
    FramedFrom([], chunks);
    assert [] + Joined(chunks) == Joined(chunks);
  }
}
