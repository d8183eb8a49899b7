/**
 Finding the Codex thread id in provider output: the one-shot scan of the adapter, the scan the
 worker repeats after every chunk, and the bounded capture both read from.
 */
module ThreadScan {
  import opened Common
  import opened Utf16

  /** What JSON.parse and the record checks make of one line: a thread.started id, or nothing. */
  type Reader = Text -> Option<string>

  const OBSERVED_LIMIT: nat := 65_536
  const CAPTURE_LIMIT: nat := 1_048_576

  // ---------------------------------------------------------------- lines

  /** A line that was ended by a line feed loses one carriage return before it. */
  function Stripped(line: Text): Text {
    if line != [] && line[|line| - 1] == CARRIAGE_RETURN then line[..|line| - 1] else line
  }

  /** Blank lines are skipped before the record is read. */
  function ReadLine(read: Reader, line: Text): Option<string> {
    if Blank(line) then None else read(line)
  }

  /** The first line as the scan reads it. */
  function FirstLine(text: Text): Text {
    var i := IndexOf(text, LINE_FEED);
    if i == |text| then text else Stripped(text[..i])
  }

  /** The id of the first line that is a thread.started record. */
  function Scan(read: Reader, text: Text): Option<string>
    decreases |text|
  {
    var i := IndexOf(text, LINE_FEED);
    var found := ReadLine(read, FirstLine(text));
    if found.Some? || i == |text| then found else Scan(read, text[i + 1..])
  }

  /** The scan by lines: each line loses one carriage return if it was ended, blank ones are skipped. */
  lemma ScanByLines(read: Reader, line: Text, rest: Text)
    requires 0x0A !in line
    ensures Scan(read, line) == if Blank(line) then None else read(line)
    ensures var kept := if line != [] && line[|line| - 1] == 0x0D then line[..|line| - 1] else line;
            var found := if Blank(kept) then None else read(kept);
            Scan(read, line + [0x0A] + rest) == if found.Some? then found else Scan(read, rest)
  {
    hide Blank;
    var text: Text := line + [0x0A] + rest;
    assert text[|line|] == LINE_FEED && forall k :: 0 <= k < |line| ==> text[k] == line[k];
    assert IndexOf(text, LINE_FEED) == |line|;
    assert text[..|line|] == line && text[|line| + 1..] == rest;
  }

  // ---------------------------------------------------------------- buffers

  /** The worker keeps the last 65,536 code units. */
  function KeepLast(text: Text): (kept: Text)
    ensures |kept| <= OBSERVED_LIMIT
    ensures |text| <= OBSERVED_LIMIT ==> kept == text
  {
    if |text| <= OBSERVED_LIMIT then text else text[|text| - OBSERVED_LIMIT..]
  }

  /** The captured stdout keeps the first 1,048,576 code units. */
  function AppendBounded(current: Text, chunk: Text): (next: Text)
    requires |current| <= CAPTURE_LIMIT
    ensures |next| <= CAPTURE_LIMIT
  {
    if |current| >= CAPTURE_LIMIT then current
    else
      var all := current + chunk;
      if |all| <= CAPTURE_LIMIT then all else all[..CAPTURE_LIMIT]
  }

  /** What the process wrapper has captured after all chunks. */
  function Captured(current: Text, chunks: seq<Text>): (all: Text)
    requires |current| <= CAPTURE_LIMIT
    ensures |all| <= CAPTURE_LIMIT
    decreases |chunks|
  {
    if chunks == [] then current else Captured(AppendBounded(current, chunks[0]), chunks[1..])
  }

  /** What the observer publishes: the first id found after some chunk; it then stops listening. */
  function Published(read: Reader, buffer: Text, chunks: seq<Text>): Option<string>
    decreases |chunks|
  {
    if chunks == [] then None
    else
      var next := KeepLast(buffer + chunks[0]);
      var found := Scan(read, next);
      if Truthy(found) then found else Published(read, next, chunks[1..])
  }

  /** The capture is the output itself while it fits, and its longest allowed prefix otherwise. */
  lemma {:induction false} CapturedIsPrefix(current: Text, chunks: seq<Text>)
    requires |current| <= CAPTURE_LIMIT
    ensures var all := current + Joined(chunks);
            Captured(current, chunks) == if |all| <= 1_048_576 then all else all[..1_048_576]
    decreases |chunks|
  {
    if chunks == [] {
      assert current + [] == current;
    } else {
      var next := AppendBounded(current, chunks[0]);
      CapturedIsPrefix(next, chunks[1..]);
      assert current + Joined(chunks) == current + chunks[0] + Joined(chunks[1..]);
    }
  }

  // ---------------------------------------------------------------- agreement

  /** JSON treats a trailing carriage return as white space, and an id is never empty. */
  ghost predicate JsonLike(read: Reader) {
    && (forall line: Text {:trigger line + [CARRIAGE_RETURN]} :: read(line + [CARRIAGE_RETURN]) == read(line))
    && (forall line: Text :: read(line) != Some(""))
  }

  predicate NothingOr(found: Option<string>, id: Option<string>) {
    found.None? || found == id
  }

  /** The line starts that a chunk boundary can leave at the end of the buffer. */
  ghost predicate StartsHarmlessly(read: Reader, line: Text, id: Option<string>) {
    forall n :: 0 <= n < |line| ==> NothingOr(ReadLine(read, line[..n]), id)
  }

  /**
   No line up to and including the first thread.started record has a proper prefix that reads as
   a record with another id.
   */
  ghost predicate NoFalseStart(read: Reader, text: Text)
    decreases |text|
  {
    var i := IndexOf(text, LINE_FEED);
    && StartsHarmlessly(read, FirstLine(text), Scan(read, text))
    && (i < |text| && ReadLine(read, FirstLine(text)).None? ==> NoFalseStart(read, text[i + 1..]))
  }

  /** The stronger condition that is easier to see: no proper line prefix is a record at all. */
  ghost predicate NoRecordInsideALine(read: Reader, text: Text)
    decreases |text|
  {
    var i, line := IndexOf(text, LINE_FEED), FirstLine(text);
    && (forall n :: 0 <= n < |line| ==> ReadLine(read, line[..n]).None?)
    && (i < |text| ==> NoRecordInsideALine(read, text[i + 1..]))
  }

  lemma {:induction false} NoRecordInsideALineSuffices(read: Reader, text: Text)
    requires NoRecordInsideALine(read, text)
    ensures NoFalseStart(read, text)
    decreases |text|
  {
    var i := IndexOf(text, LINE_FEED);
    if i < |text| {
      NoRecordInsideALineSuffices(read, text[i + 1..]);
    }
  }

  lemma ReturnIsInvisible(read: Reader, line: Text)
    requires JsonLike(read)
    ensures ReadLine(read, line) == ReadLine(read, Stripped(line))
  {
    if line != [] && line[|line| - 1] == CARRIAGE_RETURN {
      var kept := line[..|line| - 1];
      assert line == kept + [CARRIAGE_RETURN];
      if Blank(kept) {
        assert Blank(line);
      } else {
        var k :| 0 <= k < |kept| && !Whitespace(kept[k]);
        assert line[k] == kept[k];
      }
    }
  }

  /** A text cut within its first line is that start of the line. */
  lemma ScanOfLineStart(read: Reader, text: Text, n: nat)
    requires n <= IndexOf(text, LINE_FEED)
    ensures Scan(read, text[..n]) == ReadLine(read, text[..n])
  {
  }

  /** A text cut after its first line scans that line and then the cut rest. */
  lemma ScanPastFirstLine(read: Reader, text: Text, n: nat)
    requires IndexOf(text, LINE_FEED) < n <= |text|
    ensures var i := IndexOf(text, LINE_FEED);
            var first := ReadLine(read, FirstLine(text));
            Scan(read, text[..n]) == if first.Some? then first else Scan(read, text[i + 1..][..n - i - 1])
  {
    var i, cut := IndexOf(text, LINE_FEED), text[..n];
    IndexOfInPrefix(text, LINE_FEED, n);
    assert IndexOf(cut, LINE_FEED) == i;
    assert FirstLine(cut) == FirstLine(text) by {
      assert cut[..i] == text[..i];
    }
    assert cut[i + 1..] == text[i + 1..][..n - i - 1];
  }

  lemma FirstLineCut(read: Reader, text: Text, n: nat)
    requires JsonLike(read) && n <= IndexOf(text, LINE_FEED)
    ensures n < |FirstLine(text)| ==> text[..n] == FirstLine(text)[..n]
    ensures n >= |FirstLine(text)| ==> ReadLine(read, text[..n]) == ReadLine(read, FirstLine(text))
  {
    var i := IndexOf(text, LINE_FEED);
    ReturnIsInvisible(read, text[..i]);
    if n >= |FirstLine(text)| {
      assert i == |text| ==> text[..i] == text;
      assert text[..n] == text[..i] || text[..n] == FirstLine(text);
    }
  }

  lemma PrefixInFirstLine(read: Reader, text: Text, n: nat)
    requires JsonLike(read) && n <= IndexOf(text, LINE_FEED)
    requires StartsHarmlessly(read, FirstLine(text), Scan(read, text))
    ensures NothingOr(Scan(read, text[..n]), Scan(read, text))
  {
    var line, cut := FirstLine(text), text[..n];
    ScanOfLineStart(read, text, n);
    FirstLineCut(read, text, n);
    if n < |line| {
      assert NothingOr(ReadLine(read, line[..n]), Scan(read, text));
    }
  }

  /** A partial scan finds nothing or what the whole text holds, unless a line starts falsely. */
  lemma {:induction false} PrefixAgrees(read: Reader, text: Text, n: nat)
    requires JsonLike(read) && NoFalseStart(read, text) && n <= |text|
    ensures NothingOr(Scan(read, text[..n]), Scan(read, text))
    decreases |text|
  {
    hide FirstLine, ReadLine, StartsHarmlessly, JsonLike, IndexOf;
    var i := IndexOf(text, LINE_FEED);
    if n <= i {
      PrefixInFirstLine(read, text, n);
    } else {
      var rest := text[i + 1..];
      ScanPastFirstLine(read, text, n);
      if ReadLine(read, FirstLine(text)).None? {
        PrefixAgrees(read, rest, n - i - 1);
        assert Scan(read, text) == Scan(read, rest);
      }
    }
  }

  lemma FirstLineFits(text: Text)
    ensures |FirstLine(text)| <= IndexOf(text, LINE_FEED)
  {
  }

  /** A false start is visible to a scan of the text cut right after it. */
  lemma {:induction false} FalseStartShows(read: Reader, text: Text) returns (n: nat)
    requires JsonLike(read) && !NoFalseStart(read, text)
    ensures n <= |text| && !NothingOr(Scan(read, text[..n]), Scan(read, text))
    decreases |text|
  {
    hide FirstLine, ReadLine, IndexOf, JsonLike;
    var i, line := IndexOf(text, LINE_FEED), FirstLine(text);
    FirstLineFits(text);
    if !StartsHarmlessly(read, line, Scan(read, text)) {
      n :| 0 <= n < |line| && !NothingOr(ReadLine(read, line[..n]), Scan(read, text));
      ScanOfLineStart(read, text, n);
      FirstLineCut(read, text, n);
    } else {
      var m := FalseStartShows(read, text[i + 1..]);
      n := i + 1 + m;
      ScanPastFirstLine(read, text, n);
    }
  }

  lemma {:induction false} ScanIsNeverEmpty(read: Reader, text: Text)
    requires JsonLike(read)
    ensures Scan(read, text) != Some("")
    decreases |text|
  {
    var i := IndexOf(text, LINE_FEED);
    assert read(FirstLine(text)) != Some("");
    if i < |text| {
      ScanIsNeverEmpty(read, text[i + 1..]);
    }
  }

  // ---------------------------------------------------------------- every way of cutting an output

  /** All ways of cutting an output into chunks. */
  ghost predicate Cuts(chunks: seq<Text>, text: Text) {
    chunks != [] && Joined(chunks) == text
  }

  /** What is captured of a whole output. */
  function Capture(text: Text): Text {
    if |text| <= CAPTURE_LIMIT then text else text[..CAPTURE_LIMIT]
  }

  lemma CutsAreCaptured(chunks: seq<Text>, text: Text)
    requires Cuts(chunks, text)
    ensures Captured([], chunks) == Capture(text)
  {
    CapturedIsPrefix([], chunks);
    assert [] + Joined(chunks) == text;
  }

  /** What the observer looks at after the first n units. */
  function Window(text: Text, n: nat): Text
    requires n <= |text|
  {
    KeepLast(text[..n])
  }

  /** A window is the end of what came before it: all of it, or its last 65,536 units. */
  lemma WindowIsTheEnd(text: Text, n: nat)
    requires n <= |text|
    ensures |Window(text, n)| == if n <= 65_536 then n else 65_536
    ensures text[n - |Window(text, n)|..n] == Window(text, n)
  {
  }

  /** Every window reads as nothing or as the adapter's id, and the last one as exactly that. */
  ghost predicate WindowsAgree(read: Reader, text: Text) {
    && (forall n :: 0 <= n <= |text| ==> NothingOr(Scan(read, Window(text, n)), Scan(read, Capture(text))))
    && Scan(read, Window(text, |text|)) == Scan(read, Capture(text))
  }

  /** The buffer depends on what came before only through the window. */
  lemma KeepLastTwice(before: Text, chunk: Text)
    ensures KeepLast(KeepLast(before) + chunk) == KeepLast(before + chunk)
  {
    if |before| > OBSERVED_LIMIT {
      var n := |before| - OBSERVED_LIMIT;
      assert before + chunk == before[..n] + (KeepLast(before) + chunk);
    }
  }

  lemma {:induction false} PublishedFrom(read: Reader, text: Text, before: Text, chunks: seq<Text>)
    requires JsonLike(read) && WindowsAgree(read, text) && before + Joined(chunks) == text
    requires chunks == [] ==> Scan(read, Capture(text)).None?
    ensures Published(read, KeepLast(before), chunks) == Scan(read, Capture(text))
    decreases |chunks|
  {
    hide KeepLast, Scan, JsonLike, Capture;
    if chunks != [] {
      var now := before + chunks[0];
      KeepLastTwice(before, chunks[0]);
      assert now + Joined(chunks[1..]) == text && now == text[..|now|];
      assert NothingOr(Scan(read, Window(text, |now|)), Scan(read, Capture(text)));
      ScanIsNeverEmpty(read, KeepLast(now));
      if Scan(read, KeepLast(now)).None? {
        if chunks[1..] == [] {
          assert now == text;
        }
        PublishedFrom(read, text, now, chunks[1..]);
      }
    }
  }

  lemma PublishedAtOnce(read: Reader, chunks: seq<Text>)
    requires JsonLike(read) && chunks != []
    ensures var first := Scan(read, KeepLast(chunks[0]));
            Published(read, [], chunks) == if first.Some? then first
              else Published(read, KeepLast(chunks[0]), chunks[1..])
  {
    assert [] + chunks[0] == chunks[0];
    ScanIsNeverEmpty(read, KeepLast(chunks[0]));
  }

  /** A window that disagrees has a cut that publishes the wrong id, or none. */
  lemma DisagreementIsPublished(read: Reader, text: Text) returns (chunks: seq<Text>)
    requires JsonLike(read) && !WindowsAgree(read, text)
    ensures Cuts(chunks, text) && Published(read, [], chunks) != Scan(read, Capture(text))
  {
    hide Scan, KeepLast, Capture;
    if n :| 0 <= n <= |text| && !NothingOr(Scan(read, Window(text, n)), Scan(read, Capture(text))) {
      var start, rest := text[..n], text[n..];
      chunks := [start, rest];
      assert Joined(chunks) == text by {
        assert chunks[1..] == [rest] && Joined([rest]) == rest;
        assert start + rest == text;
      }
    } else {
      chunks := [text];
      assert text[..|text|] == text;
      assert Joined(chunks) == text;
    }
    PublishedAtOnce(read, chunks);
  }

  /** While the output fits the observer, windows disagree exactly at false starts. */
  lemma ShortWindows(read: Reader, text: Text)
    requires JsonLike(read) && |text| <= OBSERVED_LIMIT
    ensures WindowsAgree(read, text) <==> NoFalseStart(read, text)
  {
    hide Scan, NoFalseStart, JsonLike;
    assert text[..|text|] == text;
    if NoFalseStart(read, text) {
      forall n | 0 <= n <= |text|
        ensures NothingOr(Scan(read, Window(text, n)), Scan(read, Capture(text)))
      {
        PrefixAgrees(read, text, n);
      }
    } else {
      var n := FalseStartShows(read, text);
      assert !NothingOr(Scan(read, Window(text, n)), Scan(read, Capture(text)));
    }
  }

  /**
   Chunking does not change the thread id: every way of cutting an output publishes exactly what the
   adapter finds in the captured output, if and only if every window agrees with it; and for output
   within the observed limit, if and only if no line starts with a different record.
   */
  lemma ChunkingIsInvisible(read: Reader, text: Text)
    requires JsonLike(read)
    ensures WindowsAgree(read, text)
       <==> (forall chunks :: Cuts(chunks, text) ==> Published(read, [], chunks) == Scan(read, Captured([], chunks)))
    ensures |text| <= 65_536 ==> (WindowsAgree(read, text) <==> NoFalseStart(read, text))
  {
    hide WindowsAgree, Scan, Published, JsonLike, NoFalseStart;
    forall chunks | Cuts(chunks, text)
      ensures Captured([], chunks) == Capture(text)
    {
      CutsAreCaptured(chunks, text);
    }
    if WindowsAgree(read, text) {
      forall chunks | Cuts(chunks, text)
        ensures Published(read, [], chunks) == Scan(read, Capture(text))
      {
        assert [] + Joined(chunks) == text;
        PublishedFrom(read, text, [], chunks);
      }
    } else {
      var chunks := DisagreementIsPublished(read, text);
      assert Cuts(chunks, text) && Published(read, [], chunks) != Scan(read, Captured([], chunks));
    }
    if |text| <= OBSERVED_LIMIT {
      ShortWindows(read, text);
    }
  }

  lemma {:induction false} PublishedWithin(read: Reader, captured: Text, before: Text, chunks: seq<Text>, m: nat)
    requires JsonLike(read) && NoFalseStart(read, captured) && m <= |chunks|
    requires before + Joined(chunks[..m]) <= captured && |before + Joined(chunks[..m])| <= OBSERVED_LIMIT
    requires Scan(read, before).None? && Scan(read, before + Joined(chunks[..m])).Some?
    ensures Published(read, before, chunks) == Scan(read, captured)
    decreases |chunks|
  {
    hide Scan, NoFalseStart, JsonLike;
    assert before + [] == before;
    if m > 0 {
      var now := before + chunks[0];
      assert chunks[..m][1..] == chunks[1..][..m - 1];
      assert before + Joined(chunks[..m]) == now + Joined(chunks[1..][..m - 1]);
      assert now == captured[..|now|];
      PrefixAgrees(read, captured, |now|);
      ScanIsNeverEmpty(read, now);
      if Scan(read, now).None? {
        PublishedWithin(read, captured, now, chunks[1..], m - 1);
      }
    }
  }

  /**
   Output of any length: if some chunk boundary within the observed limit leaves a readable record,
   and no line starts falsely, the id that is published is the one the adapter finds.
   */
  lemma RecordInFirstWindow(read: Reader, chunks: seq<Text>, m: nat)
    requires JsonLike(read) && m <= |chunks|
    requires |Joined(chunks[..m])| <= OBSERVED_LIMIT && Scan(read, Joined(chunks[..m])).Some?
    requires NoFalseStart(read, Captured([], chunks))
    ensures Published(read, [], chunks) == Scan(read, Captured([], chunks))
  {
    hide Scan, NoFalseStart, JsonLike;
    JoinedPrefix(chunks, m);
    CapturedIsPrefix([], chunks);
    assert [] + Joined(chunks) == Joined(chunks) && [] + Joined(chunks[..m]) == Joined(chunks[..m]);
    ScanOfNothing(read);
    PublishedWithin(read, Captured([], chunks), [], chunks, m);
  }

  lemma ScanOfNothing(read: Reader)
    ensures Scan(read, []).None?
  {
  }

  lemma {:induction false} JoinedPrefix(chunks: seq<Text>, m: nat)
    requires m <= |chunks|
    ensures Joined(chunks[..m]) <= Joined(chunks)
  {
    if m > 0 {
      JoinedPrefix(chunks[1..], m - 1);
      assert chunks[..m][1..] == chunks[1..][..m - 1];
    }
  }

  // ---------------------------------------------------------------- the conditions can fail

  function WithoutReturns(line: Text): Text {
    if line != [] && line[|line| - 1] == CARRIAGE_RETURN then WithoutReturns(line[..|line| - 1]) else line
  }

  /** Reads one letter as the record, and nothing else. */
  function LetterReader(): Reader {
    (line: Text) => if WithoutReturns(line) == [0x61] then Some("t") else None
  }

  lemma ReturnIsDropped(line: Text)
    ensures WithoutReturns(line + [CARRIAGE_RETURN]) == WithoutReturns(line)
  {
    assert (line + [CARRIAGE_RETURN])[..|line|] == line;
  }

  lemma LetterReaderIsJsonLike()
    ensures JsonLike(LetterReader())
  {
    hide WithoutReturns;
    forall line: Text
      ensures LetterReader()(line + [CARRIAGE_RETURN]) == LetterReader()(line)
    {
      ReturnIsDropped(line);
    }
  }

  lemma ScanOneLine(read: Reader, text: Text)
    requires LINE_FEED !in text
    ensures Scan(read, text) == ReadLine(read, text) && FirstLine(text) == text
  {
  }

  lemma ReadsLetters()
    ensures ReadLine(LetterReader(), [0x61]) == Some("t")
    ensures ReadLine(LetterReader(), [0x61, 0x62]) == None
  {
    var start: Text, text: Text := [0x61], [0x61, 0x62];
    assert !Whitespace(start[0]) && !Whitespace(text[0]);
  }

  lemma FalseStartBreaks(read: Reader, text: Text, n: nat)
    requires LINE_FEED !in text && n < |text|
    requires ReadLine(read, text).None? && ReadLine(read, text[..n]).Some?
    ensures !NoFalseStart(read, text)
  {
    hide Scan, ReadLine;
    ScanOneLine(read, text);
    assert !NothingOr(ReadLine(read, FirstLine(text)[..n]), Scan(read, text));
  }

  /** A record followed by more on its line is announced if a chunk ends between them. */
  lemma FalseStartExample()
    ensures var read, text, chunks := LetterReader(), [0x61, 0x62], [[0x61], [0x62]];
            && JsonLike(read) && !NoFalseStart(read, text) && Cuts(chunks, text)
            && Published(read, [], chunks) == Some("t") && Scan(read, Captured([], chunks)) == None
  {
    hide Scan, ReadLine, LetterReader, NoFalseStart, JsonLike, Captured;
    var read: Reader, start: Text, text: Text := LetterReader(), [0x61], [0x61, 0x62];
    var chunks: seq<Text> := [[0x61], [0x62]];
    LetterReaderIsJsonLike();
    ReadsLetters();
    ScanOneLine(read, start);
    ScanOneLine(read, text);
    assert text[..1] == start;
    FalseStartBreaks(read, text, 1);
    assert chunks[1..] == [[0x62]] && Joined(chunks[1..]) == [0x62];
    assert Joined(chunks) == text;
    CutsAreCaptured(chunks, text);
    PublishedAtOnce(read, chunks);
  }

  lemma ReadsTheLetter(rest: Text)
    ensures Scan(LetterReader(), [0x61, LINE_FEED] + rest) == Some("t")
  {
    var text: Text := [0x61, LINE_FEED] + rest;
    assert text[0] == 0x61 && text[1] == LINE_FEED && text[..1] == [0x61];
    assert IndexOf(text, LINE_FEED) == 1 && FirstLine(text) == [0x61] && !Whitespace(text[0]);
  }

  lemma ReadsNoPadding(n: nat)
    requires n > 0
    ensures Scan(LetterReader(), seq(n, _ => 0x62)) == None
  {
    var padding: Text := seq(n, _ => 0x62);
    assert FirstLine(padding) == padding && WithoutReturns(padding) == padding;
    assert padding[0] == 0x62;
  }

  /** A chunk that is longer than the window can push the record out before it is read. */
  lemma PushedOutExample() returns (text: Text)
    ensures JsonLike(LetterReader()) && Published(LetterReader(), [], [text]) == None
    ensures Scan(LetterReader(), Captured([], [text])) == Some("t")
  {
    hide Scan, LetterReader;
    var read: Reader, padding: Text := LetterReader(), seq(OBSERVED_LIMIT, _ => 0x62);
    text := [0x61, LINE_FEED] + padding;
    LetterReaderIsJsonLike();
    ReadsTheLetter(padding);
    ReadsNoPadding(OBSERVED_LIMIT);
    assert [] + text == text && KeepLast(text) == padding;
  }
}
