/**
 From a chunked container stream to log entries: `LineBuffer` cuts lines, `MultilineBuffer`
 gathers tracebacks, and `Consume` composes them with end-of-stream flushing.
 Text is a sequence of characters; decoding bytes to characters is not part of this model.
 */
module LogLines {

  // ---------------------------------------------------------------- cutting lines

  /** The length of a match of the pattern `\r?\n` at `i`, or 0. */
  function BreakAt(s: string, i: nat): nat
    requires i <= |s|
  {
    if i < |s| && s[i] == '\n' then 1
    else if i + 1 < |s| && s[i] == '\r' && s[i + 1] == '\n' then 2
    else 0
  }

  /** The leftmost match of `\r?\n`, or the end of the text. */
  function FirstBreak(s: string, from: nat := 0): (i: nat)
    requires from <= |s|
    ensures from <= i <= |s|
    ensures i < |s| <==> BreakAt(s, i) > 0
    ensures forall j :: from <= j < i ==> BreakAt(s, j) == 0
    decreases |s| - from
  {
    if from == |s| || BreakAt(s, from) > 0 then from else FirstBreak(s, from + 1)
  }

  /** What splitting on `\r?\n` yields: the pieces between successive leftmost matches. */
  function Split(s: string): (pieces: seq<string>)
    ensures |pieces| >= 1
  {
    var i := FirstBreak(s);
    if i == |s| then [s] else [s[..i]] + Split(s[i + BreakAt(s, i)..])
  }

  function NonEmpty(lines: seq<string>): seq<string> {
    if lines == [] then []
    else NonEmpty(lines[..|lines| - 1]) + (if lines[|lines| - 1] == "" then [] else [lines[|lines| - 1]])
  }

  /** The terminated lines of a text and its unterminated rest. */
  datatype Cut = Cut(lines: seq<string>, rest: string)

  ghost function DropReturn(s: string): string {
    if s != "" && s[|s| - 1] == '\r' then s[..|s| - 1] else s
  }

  /** Reference: read one character at a time; a newline ends a line and takes one `\r` before it along. */
  ghost function Scan(s: string): Cut {
    if s == "" then Cut([], "")
    else
      var before := Scan(s[..|s| - 1]);
      if s[|s| - 1] == '\n' then Cut(before.lines + [DropReturn(before.rest)], "")
      else Cut(before.lines, before.rest + [s[|s| - 1]])
  }

  lemma {:induction false} ScanOneLine(s: string)
    requires '\n' !in s
    ensures Scan(s) == Cut([], s)
  {
    if s != "" {
      ScanOneLine(s[..|s| - 1]);
      assert s[..|s| - 1] + [s[|s| - 1]] == s;
    }
  }

  lemma {:induction false} ScanLeavesNoNewline(s: string)
    ensures '\n' !in Scan(s).rest
    ensures forall i :: 0 <= i < |Scan(s).lines| ==> '\n' !in Scan(s).lines[i]
  {
    if s != "" { ScanLeavesNoNewline(s[..|s| - 1]); }
  }

  /** Reading on from the unterminated rest of `a` is reading `a + b`, wherever the cut falls. */
  lemma {:induction false} ScanResumes(a: string, b: string)
    ensures Scan(a + b) == Cut(Scan(a).lines + Scan(Scan(a).rest + b).lines, Scan(Scan(a).rest + b).rest)
    decreases |b|
  {
    var r := Scan(a).rest;
    if b == "" {
      ScanLeavesNoNewline(a);
      ScanOneLine(r);
      assert a + b == a && r + b == r;
    } else {
      ScanResumes(a, b[..|b| - 1]);
      assert (a + b)[..|a + b| - 1] == a + b[..|b| - 1];
      assert (r + b)[..|r + b| - 1] == r + b[..|b| - 1];
    }
  }

  /** One line and its terminator, when the terminator has not left a `\r` behind. */
  lemma ScanTerminated(line: string, crlf: bool)
    requires '\n' !in line
    requires !crlf ==> DropReturn(line) == line
    ensures Scan(line + (if crlf then "\r\n" else "\n")) == Cut([line], "")
  {
    var body := if crlf then line + ['\r'] else line;
    ScanOneLine(body);
    assert DropReturn(body) == line;
    assert (body + ['\n'])[..|body|] == body;
    assert line + (if crlf then "\r\n" else "\n") == body + ['\n'];
  }

  lemma FirstBreakShape(s: string)
    requires FirstBreak(s) < |s|
    ensures var i := FirstBreak(s);
      && '\n' !in s[..i]
      && (BreakAt(s, i) != 2 ==> DropReturn(s[..i]) == s[..i])
  {
    var i := FirstBreak(s);
    forall j | 0 <= j < i ensures s[j] != '\n' {
      assert BreakAt(s, j) == 0;
    }
    if i > 0 {
      assert BreakAt(s, i - 1) == 0;
    }
  }

  lemma BreakSplits(s: string, i: nat)
    requires i < |s| && BreakAt(s, i) > 0
    ensures s == s[..i] + (if BreakAt(s, i) == 2 then "\r\n" else "\n") + s[i + BreakAt(s, i)..]
  {
  }

  lemma ScanAfterLine(head: string, line: string, tail: string)
    requires Scan(head) == Cut([line], "")
    ensures Scan(head + tail) == Cut([line] + Scan(tail).lines, Scan(tail).rest)
  {
    ScanResumes(head, tail);
    assert "" + tail == tail;
  }

  /** The reading of a text whose first match is at `i`, by the reading of what follows it. */
  lemma ScanFirstBreak(s: string)
    requires FirstBreak(s) < |s|
    ensures var i := FirstBreak(s);
      var tail := s[i + BreakAt(s, i)..];
      Scan(s) == Cut([s[..i]] + Scan(tail).lines, Scan(tail).rest)
  {
    var i := FirstBreak(s);
    var crlf := BreakAt(s, i) == 2;
    FirstBreakShape(s);
    BreakSplits(s, i);
    ScanTerminated(s[..i], crlf);
    ScanAfterLine(s[..i] + (if crlf then "\r\n" else "\n"), s[..i], s[i + BreakAt(s, i)..]);
  }

  lemma NoBreakNoNewline(s: string)
    requires FirstBreak(s) == |s|
    ensures '\n' !in s
  {
    forall j | 0 <= j < |s| ensures s[j] != '\n' {
      assert BreakAt(s, j) == 0;
    }
  }

  lemma ConsAppend(first: string, middle: seq<string>, last: string)
    ensures [first] + (middle + [last]) == ([first] + middle) + [last]
  {
  }

  /** Splitting on the pattern is the character-by-character reading. */
  lemma {:induction false} SplitIsScan(s: string)
    ensures Split(s) == Scan(s).lines + [Scan(s).rest]
    decreases |s|
  {
    var i := FirstBreak(s);
    if i == |s| {
      NoBreakNoNewline(s);
      ScanOneLine(s);
    } else {
      var tail := s[i + BreakAt(s, i)..];
      ScanFirstBreak(s);
      SplitIsScan(tail);
      ConsAppend(s[..i], Scan(tail).lines, Scan(tail).rest);
    }
  }

  lemma {:induction false} NonEmptyConcat(a: seq<string>, b: seq<string>)
    ensures NonEmpty(a + b) == NonEmpty(a) + NonEmpty(b)
    decreases |b|
  {
    if b == [] {
      assert a + b == a;
    } else {
      NonEmptyConcat(a, b[..|b| - 1]);
      assert (a + b)[..|a + b| - 1] == a + b[..|b| - 1];
    }
  }

  /** Only empty lines are left out. */
  lemma NonEmptyOfOne(line: string)
    ensures NonEmpty([line]) == if line == "" then [] else [line]
  {
    assert [line][..0] == [];
  }

  class LineBuffer {
    var pending: string
    ghost var seen: string
    ghost var emitted: seq<string>

    ghost predicate Valid()
      reads this
    {
      pending == Scan(seen).rest && emitted == NonEmpty(Scan(seen).lines)
    }

    constructor ()
      ensures Valid() && seen == "" && emitted == []
    {
      pending, seen, emitted := "", "", [];
    }

    method Push(chunk: string) returns (lines: seq<string>)
      requires Valid()
      modifies this
      ensures Valid() && seen == old(seen) + chunk && emitted == old(emitted) + lines
    {
      SplitIsScan(pending + chunk);
      ScanResumes(seen, chunk);
      NonEmptyConcat(Scan(seen).lines, Scan(pending + chunk).lines);
      pending := pending + chunk;
      var pieces := Split(pending);
      pending := pieces[|pieces| - 1];
      lines := NonEmpty(pieces[..|pieces| - 1]);
      seen, emitted := seen + chunk, emitted + lines;
    }

    /** At the end of the stream the unterminated rest counts as a line. */
    method Flush() returns (lines: seq<string>)
      requires Valid()
      modifies this
      ensures pending == "" && old(emitted) + lines == NonEmpty(Split(old(seen)))
    {
      SplitIsScan(seen);
      NonEmptyConcat(Scan(seen).lines, [pending]);
      assert [pending][..0] == [];
      var line := pending;
      pending := "";
      lines := if line != "" then [line] else [];
    }
  }

  // ---------------------------------------------------------------- gathering tracebacks

  const MAX_LINES := 100

  predicate IsSpace(c: char) {
    || '\t' <= c <= '\r'
    || c in {' ', '\U{A0}', '\U{1680}', '\U{2028}', '\U{2029}', '\U{202F}', '\U{205F}', '\U{3000}', '\U{FEFF}'}
    || '\U{2000}' <= c <= '\U{200A}'
  }

  predicate IsStackStart(line: string) {
    "Traceback (most recent call last):" <= line
  }

  predicate IsStackContinuation(line: string) {
    || (line != "" && IsSpace(line[0]))
    || "Traceback (" <= line
    || "During handling of the above exception" <= line
    || "The above exception was" <= line
  }

  function Join(lines: seq<string>): string {
    if lines == [] then ""
    else if |lines| == 1 then lines[0]
    else Join(lines[..|lines| - 1]) + "\n" + lines[|lines| - 1]
  }

  /** A traceback is complete with its first line that does not continue it, or at 100 lines. */
  ghost predicate Complete(block: seq<string>) {
    |block| >= 2 && (!IsStackContinuation(block[|block| - 1]) || |block| >= MAX_LINES)
  }

  /** The shortest complete traceback at the front, or all that is left. */
  ghost function BlockLength(lines: seq<string>, n: nat := 1): (r: nat)
    requires 1 <= n <= |lines|
    ensures n <= r <= |lines|
    decreases |lines| - n
  {
    if n == |lines| || Complete(lines[..n]) then n else BlockLength(lines, n + 1)
  }

  /** Reference: the entries of a whole list of lines, read from the front. */
  ghost function Group(lines: seq<string>): seq<string>
    decreases |lines|
  {
    if lines == [] then []
    else
      var n := if IsStackStart(lines[0]) then BlockLength(lines) else 1;
      [Join(lines[..n])] + Group(lines[n..])
  }

  datatype Gathered = Gathered(pending: seq<string>, entries: seq<string>)

  /** What one line does to the lines gathered so far. */
  ghost function Gather(pending: seq<string>, line: string): Gathered {
    if pending == [] && !IsStackStart(line) then Gathered([], [line])
    else if pending != [] && Complete(pending + [line]) then Gathered([], [Join(pending + [line])])
    else Gathered(pending + [line], [])
  }

  ghost function GatherAll(lines: seq<string>): Gathered {
    if lines == [] then Gathered([], [])
    else
      var g := GatherAll(lines[..|lines| - 1]);
      var h := Gather(g.pending, lines[|lines| - 1]);
      Gathered(h.pending, g.entries + h.entries)
  }

  ghost predicate Open(pending: seq<string>) {
    pending != [] ==> IsStackStart(pending[0]) && forall n :: 1 <= n <= |pending| ==> !Complete(pending[..n])
  }

  lemma {:induction false} BlockLengthOf(lines: seq<string>, n: nat, m: nat)
    requires 1 <= n <= m <= |lines|
    requires forall k :: n <= k < m ==> !Complete(lines[..k])
    requires m == |lines| || Complete(lines[..m])
    ensures BlockLength(lines, n) == m
    decreases m - n
  {
    if n < m { BlockLengthOf(lines, n + 1, m); }
  }

  lemma GatherKeepsOpen(pending: seq<string>, line: string)
    requires Open(pending)
    ensures Open(Gather(pending, line).pending)
  {
    var p := Gather(pending, line).pending;
    forall n | 1 <= n <= |p| ensures !Complete(p[..n]) {
      if n < |p| { assert p[..n] == pending[..n]; } else { assert p[..n] == p; }
    }
  }

  /** One step of the gathering machine against the reference, whatever follows. */
  lemma GatherStep(pending: seq<string>, line: string, future: seq<string>)
    requires Open(pending)
    ensures var g := Gather(pending, line);
      Group(pending + [line] + future) == g.entries + Group(g.pending + future)
  {
    var lines, g, n := pending + [line] + future, Gather(pending, line), |pending| + 1;
    assert lines[..n] == pending + [line];
    assert lines[n..] == future;
    if g.entries == [] {
      assert g.pending == pending + [line];
    } else {
      assert g.pending + future == future;
      if pending != [] {
        forall k | 1 <= k < n ensures !Complete(lines[..k]) {
          assert lines[..k] == pending[..k];
        }
        assert lines[0] == pending[0];
        BlockLengthOf(lines, 1, n);
      }
    }
  }

  lemma {:induction false} GatherAllIsOpen(lines: seq<string>)
    ensures Open(GatherAll(lines).pending)
  {
    if lines != [] {
      GatherAllIsOpen(lines[..|lines| - 1]);
      GatherKeepsOpen(GatherAll(lines[..|lines| - 1]).pending, lines[|lines| - 1]);
    }
  }

  lemma Associates<T>(a: seq<T>, b: seq<T>, c: seq<T>)
    ensures a + (b + c) == a + b + c
  {
  }

  lemma {:induction false} GatherAllIsGroup(lines: seq<string>, future: seq<string>)
    ensures Group(lines + future) == GatherAll(lines).entries + Group(GatherAll(lines).pending + future)
    decreases |lines|
  {
    if lines == [] {
      assert lines + future == future;
    } else {
      var front, line := lines[..|lines| - 1], lines[|lines| - 1];
      var g := GatherAll(front);
      var h := Gather(g.pending, line);
      GatherAllIsOpen(front);
      calc {
        Group(lines + future);
        { assert lines == front + [line]; Associates(front, [line], future); }
        Group(front + ([line] + future));
        { GatherAllIsGroup(front, [line] + future); }
        g.entries + Group(g.pending + ([line] + future));
        { Associates(g.pending, [line], future); }
        g.entries + Group(g.pending + [line] + future);
        { GatherStep(g.pending, line, future); }
        g.entries + (h.entries + Group(h.pending + future));
        { Associates(g.entries, h.entries, Group(h.pending + future)); }
        g.entries + h.entries + Group(h.pending + future);
      }
    }
  }

  lemma GroupOpen(pending: seq<string>)
    requires Open(pending)
    ensures Group(pending) == if pending == [] then [] else [Join(pending)]
  {
    if pending != [] {
      BlockLengthOf(pending, 1, |pending|);
      assert pending[..|pending|] == pending;
    }
  }

  class MultilineBuffer {
    var pending: seq<string>
    ghost var fed: seq<string>
    ghost var emitted: seq<string>

    ghost predicate Valid()
      reads this
    {
      Open(pending) && GatherAll(fed) == Gathered(pending, emitted)
    }

    constructor ()
      ensures Valid() && fed == [] && emitted == []
    {
      pending, fed, emitted := [], [], [];
    }

    method Push(line: string) returns (entries: seq<string>)
      requires Valid()
      modifies this
      ensures Valid() && fed == old(fed) + [line] && emitted == old(emitted) + entries
    {
      GatherKeepsOpen(pending, line);
      assert (fed + [line])[..|fed|] == fed;
      ghost var g := Gather(pending, line);
      JoinIsNotEmpty(pending + [line]);
      assert pending == (pending + [line])[..|pending|];
      if pending == [] {
        var startsStack := IsStackStart(line);
        if startsStack {
          pending := [line];
        }
        entries := if startsStack then [] else [line];
      } else if IsStackContinuation(line) {
        pending := pending + [line];
        if |pending| >= MAX_LINES {
          entries := Drain();
        } else {
          entries := [];
        }
      } else {
        pending := pending + [line];
        entries := Drain();
      }
      fed, emitted := fed + [line], emitted + entries;
    }

    method Drain() returns (entries: seq<string>)
      modifies this`pending
      ensures pending == [] && entries == if Join(old(pending)) == "" then [] else [Join(old(pending))]
    {
      var value := Join(pending);
      pending := [];
      entries := if value != "" then [value] else [];
    }

    method Flush() returns (entries: seq<string>)
      requires Valid()
      modifies this
      ensures pending == [] && old(emitted) + entries == Group(old(fed))
    {
      GatherAllIsGroup(fed, []);
      GatherAllIsOpen(fed);
      assert fed + [] == fed && pending + [] == pending;
      GroupOpen(pending);
      JoinIsNotEmpty(pending);
      entries := Drain();
    }
  }

  lemma {:induction false} JoinIsNotEmpty(lines: seq<string>)
    ensures lines != [] && (|lines| == 1 ==> lines[0] != "") ==> Join(lines) != ""
    ensures lines == [] ==> Join(lines) == ""
  {
  }

  // ---------------------------------------------------------------- the whole stream

  ghost function Concat(chunks: seq<string>): string {
    if chunks == [] then "" else Concat(chunks[..|chunks| - 1]) + chunks[|chunks| - 1]
  }

  /** The entries of a text, however it arrives. */
  ghost function Entries(text: string): seq<string> {
    Group(NonEmpty(Split(text)))
  }

  /** `LogStreamer.consume` for one stream that delivers `chunks` and then ends. */
  method Consume(chunks: seq<string>) returns (enqueued: seq<string>)
    ensures enqueued == Entries(Concat(chunks))
  {
    var buffer := new LineBuffer();
    var multiline := new MultilineBuffer();
    enqueued := [];
    for i := 0 to |chunks|
      invariant fresh(buffer) && fresh(multiline) && buffer.Valid() && multiline.Valid()
      invariant buffer.seen == Concat(chunks[..i]) && multiline.fed == buffer.emitted
      invariant multiline.emitted == enqueued
    {
      assert chunks[..i + 1][..i] == chunks[..i];
      var lines := buffer.Push(chunks[i]);
      enqueued := PushLines(multiline, lines, enqueued);
    }
    assert chunks[..|chunks|] == chunks;
    var lines := buffer.Flush();
    enqueued := PushLines(multiline, lines, enqueued);
    var last := multiline.Flush();
    enqueued := enqueued + last;
  }

  method PushLines(multiline: MultilineBuffer, lines: seq<string>, before: seq<string>)
    returns (enqueued: seq<string>)
    requires multiline.Valid() && multiline.emitted == before
    modifies multiline
    ensures multiline.Valid() && multiline.emitted == enqueued
    ensures multiline.fed == old(multiline.fed) + lines
  {
    enqueued := before;
    for i := 0 to |lines|
      invariant multiline.Valid() && multiline.emitted == enqueued
      invariant multiline.fed == old(multiline.fed) + lines[..i]
    {
      assert lines[..i + 1] == lines[..i] + [lines[i]];
      Associates(old(multiline.fed), lines[..i], [lines[i]]);
      var entries := multiline.Push(lines[i]);
      enqueued := enqueued + entries;
    }
  }

  // ---------------------------------------------------------------- nothing is lost

  ghost function UnjoinAll(entries: seq<string>): seq<string> {
    if entries == [] then [] else PlainLines(entries[0]) + UnjoinAll(entries[1..])
  }

  /** Splitting on the bare newline, as a reader of an entry does. */
  ghost function PlainLines(s: string): (lines: seq<string>)
    ensures |lines| >= 1
  {
    if s == "" then [""]
    else
      var before, c := PlainLines(s[..|s| - 1]), s[|s| - 1];
      if c == '\n' then before + [""]
      else before[..|before| - 1] + [before[|before| - 1] + [c]]
  }

  ghost predicate AreLines(lines: seq<string>) {
    forall i :: 0 <= i < |lines| ==> lines[i] != "" && '\n' !in lines[i]
  }

  lemma PlainLinesOneMore(s: string, c: char)
    requires c != '\n'
    ensures var lines := PlainLines(s);
      PlainLines(s + [c]) == lines[..|lines| - 1] + [lines[|lines| - 1] + [c]]
  {
    assert (s + [c])[..|s|] == s;
  }

  lemma {:induction false} PlainLinesAppend(s: string, line: string)
    requires '\n' !in line
    ensures PlainLines(s + "\n" + line) == PlainLines(s) + [line]
    ensures PlainLines(line) == [line]
  {
    if line == "" {
      assert s + "\n" + line == s + "\n";
    } else {
      var front, c := line[..|line| - 1], line[|line| - 1];
      PlainLinesAppend(s, front);
      assert front + [c] == line && s + "\n" + line == s + "\n" + front + [c];
      PlainLinesOneMore(s + "\n" + front, c);
      PlainLinesOneMore(front, c);
    }
  }

  lemma {:induction false} PlainLinesOfJoin(lines: seq<string>)
    requires AreLines(lines) && lines != []
    ensures PlainLines(Join(lines)) == lines
  {
    var front, last := lines[..|lines| - 1], lines[|lines| - 1];
    if front == [] {
      PlainLinesAppend("", last);
      assert lines == [last];
    } else {
      calc {
        PlainLines(Join(lines));
        PlainLines(Join(front) + "\n" + last);
        { PlainLinesAppend(Join(front), last); }
        PlainLines(Join(front)) + [last];
        { PlainLinesOfJoin(front); }
        front + [last];
        lines;
      }
    }
  }

  /** The shape of one entry: a single line, or a traceback header, lines continuing it, and a last line. */
  ghost predicate WellFormedEntry(entry: string) {
    var lines := PlainLines(entry);
    && |lines| <= MAX_LINES
    && (|lines| > 1 ==> IsStackStart(lines[0]))
    && forall i :: 0 < i < |lines| - 1 ==> IsStackContinuation(lines[i])
  }

  lemma FirstEntryIsWellFormed(lines: seq<string>, n: nat)
    requires AreLines(lines) && lines != []
    requires n == if IsStackStart(lines[0]) then BlockLength(lines) else 1
    ensures WellFormedEntry(Join(lines[..n]))
  {
    PlainLinesOfJoin(lines[..n]);
    BlockIsShort(lines, 1);
  }

  ghost predicate WellFormedEntries(entries: seq<string>) {
    entries != [] ==> WellFormedEntry(entries[0]) && WellFormedEntries(entries[1..])
  }

  lemma UnjoinFirst(entry: string, rest: seq<string>)
    ensures UnjoinAll([entry] + rest) == PlainLines(entry) + UnjoinAll(rest)
  {
    assert ([entry] + rest)[1..] == rest;
  }

  lemma {:induction false} GroupIsLossless(lines: seq<string>)
    requires AreLines(lines)
    ensures UnjoinAll(Group(lines)) == lines
    decreases |lines|
  {
    if lines != [] {
      var n := if IsStackStart(lines[0]) then BlockLength(lines) else 1;
      PlainLinesOfJoin(lines[..n]);
      GroupIsLossless(lines[n..]);
      UnjoinFirst(Join(lines[..n]), Group(lines[n..]));
      assert lines == lines[..n] + lines[n..];
    }
  }

  lemma {:induction false} GroupIsWellFormed(lines: seq<string>)
    requires AreLines(lines)
    ensures WellFormedEntries(Group(lines))
    decreases |lines|
  {
    if lines != [] {
      var n := if IsStackStart(lines[0]) then BlockLength(lines) else 1;
      FirstEntryIsWellFormed(lines, n);
      GroupIsWellFormed(lines[n..]);
      assert Group(lines)[1..] == Group(lines[n..]);
    }
  }

  lemma {:induction false} BlockIsShort(lines: seq<string>, n: nat)
    requires 1 <= n <= |lines| && n <= MAX_LINES
    requires forall k :: 1 <= k < n ==> !Complete(lines[..k])
    ensures BlockLength(lines, n) <= MAX_LINES
    ensures forall i :: 0 < i < BlockLength(lines, n) - 1 ==> IsStackContinuation(lines[i])
    decreases |lines| - n
  {
    if n == |lines| || Complete(lines[..n]) {
      forall i | 0 < i < n - 1 ensures IsStackContinuation(lines[i]) {
        assert !Complete(lines[..i + 1]);
      }
    } else {
      BlockIsShort(lines, n + 1);
    }
  }

  lemma {:induction false} NonEmptyOfScan(lines: seq<string>)
    requires forall i :: 0 <= i < |lines| ==> '\n' !in lines[i]
    ensures AreLines(NonEmpty(lines))
  {
    if lines != [] { NonEmptyOfScan(lines[..|lines| - 1]); }
  }

  /** Cutting the entries of any text at newlines gives back its nonempty lines, in order. */
  lemma EntriesAreLossless(text: string)
    ensures UnjoinAll(Entries(text)) == NonEmpty(Split(text))
    ensures WellFormedEntries(Entries(text))
  {
    SplitIsScan(text);
    ScanLeavesNoNewline(text);
    NonEmptyOfScan(Split(text));
    GroupIsLossless(NonEmpty(Split(text)));
    GroupIsWellFormed(NonEmpty(Split(text)));
  }

  // ---------------------------------------------------------------- which lines make an entry

  /** The lines that continue a traceback: indented ones, and the phrases between chained ones. */
  ghost predicate Continues(line: string) {
    || (line != "" && (line[0] == ' ' || line[0] == '\t'))
    || "Traceback (" <= line
    || "During handling of the above exception" <= line
    || "The above exception was" <= line
  }

  /** A line that begins with a letter and none of those phrases, as the exception at the end does. */
  ghost predicate Concludes(line: string) {
    && line != "" && ('A' <= line[0] <= 'Z' || 'a' <= line[0] <= 'z')
    && !("Traceback (" <= line)
    && !("During handling of the above exception" <= line)
    && !("The above exception was" <= line)
  }

  ghost predicate IsTraceback(lines: seq<string>) {
    && 2 <= |lines| <= 100
    && "Traceback (most recent call last):" <= lines[0]
    && (forall i :: 0 < i < |lines| - 1 ==> Continues(lines[i]))
    && (Concludes(lines[|lines| - 1]) || (|lines| == 100 && Continues(lines[99])))
  }

  lemma TracebackIsComplete(lines: seq<string>, rest: seq<string>)
    requires IsTraceback(lines)
    ensures BlockLength(lines + rest) == |lines|
  {
    var all, n := lines + rest, |lines|;
    forall k | 1 <= k < n ensures !Complete(all[..k]) {
      assert k > 1 ==> all[..k][k - 1] == lines[k - 1];
    }
    assert all[..n] == lines;
    BlockLengthOf(all, 1, n);
  }

  /**
   A traceback, from its header to the first line that does not continue it or to its hundredth line, is
   one entry, whatever follows; any line outside of one is an entry of its own.
   */
  lemma TracebackIsOneEntry(lines: seq<string>, rest: seq<string>)
    ensures IsTraceback(lines) ==> Group(lines + rest) == [Join(lines)] + Group(rest)
    ensures |lines| == 1 && !("Traceback (most recent call last):" <= lines[0]) ==>
              Group(lines + rest) == lines + Group(rest)
  {
    if IsTraceback(lines) {
      TracebackIsComplete(lines, rest);
      assert (lines + rest)[..|lines|] == lines && (lines + rest)[|lines|..] == rest;
    } else if |lines| == 1 && !("Traceback (most recent call last):" <= lines[0]) {
      assert (lines + rest)[..1] == lines && (lines + rest)[1..] == rest;
    }
  }

  /** The text of these lines, each with its end. */
  ghost function Terminated(lines: seq<string>): string {
    if lines == [] then "" else Terminated(lines[..|lines| - 1]) + (lines[|lines| - 1] + "\n")
  }

  /** Lines that come back as they are: not empty, without a newline, and without a return at their end. */
  ghost predicate ArePlain(lines: seq<string>) {
    AreLines(lines) && forall i :: 0 <= i < |lines| ==> DropReturn(lines[i]) == lines[i]
  }

  lemma ScanOneMoreLine(text: string, line: string)
    requires Scan(text).rest == "" && '\n' !in line && DropReturn(line) == line
    ensures Scan(text + (line + "\n")) == Cut(Scan(text).lines + [line], "")
  {
    ScanTerminated(line, false);
    ScanResumes(text, line + "\n");
    assert "" + (line + "\n") == line + "\n";
  }

  lemma {:induction false} ScanOfTerminated(lines: seq<string>)
    requires ArePlain(lines)
    ensures Scan(Terminated(lines)) == Cut(lines, "")
  {
    if lines != [] {
      var front, last := lines[..|lines| - 1], lines[|lines| - 1];
      ScanOfTerminated(front);
      ScanOneMoreLine(Terminated(front), last);
      assert front + [last] == lines;
    }
  }

  lemma {:induction false} NonEmptyOfLines(lines: seq<string>)
    requires AreLines(lines)
    ensures NonEmpty(lines) == lines
  {
    if lines != [] { NonEmptyOfLines(lines[..|lines| - 1]); }
  }

  /** So the text of a traceback comes out as one entry, and what follows it as if it stood alone. */
  lemma TracebackInAText(lines: seq<string>, rest: seq<string>)
    requires IsTraceback(lines) && ArePlain(lines + rest)
    ensures Entries(Terminated(lines + rest)) == [Join(lines)] + Group(rest)
  {
    var all := lines + rest;
    ScanOfTerminated(all);
    SplitIsScan(Terminated(all));
    NonEmptyConcat(all, [""]);
    NonEmptyOfLines(all);
    NonEmptyOfOne("");
    assert all + [] == all;
    TracebackIsOneEntry(lines, rest);
  }
}
