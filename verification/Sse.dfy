/**
  Incremental framing of a server-sent event stream (`services/streaming.ts`) and the frames the server writes
  (`streaming/sse.py`). The UTF-8 decoder and `JSON.parse` are given; a chunk is what the decoder returned for one read.
 */
module Sse {
  import opened Wrappers

  const BLANK: string := "\n\n"

  /** Where the leftmost blank line starts. */
  function FindBlank(s: string): (r: Option<nat>)
    ensures r.Some? ==> r.value + 2 <= |s| && s[r.value] == s[r.value + 1] == '\n'
  {
    if |s| < 2 then None
    else if s[0] == '\n' && s[1] == '\n' then Some(0)
    else match FindBlank(s[1..]) case None => None case Some(k) => Some(k + 1)
  }

  /** `s.split("\n\n")`. */
  function Split(s: string): (r: seq<string>)
    ensures r != []
    decreases |s|
  {
    match FindBlank(s)
    case None => [s]
    case Some(k) => [s[..k]] + Split(s[k + 2..])
  }

  function Front<T>(xs: seq<T>): seq<T>
    requires xs != []
  {
    xs[..|xs| - 1]
  }

  function Final<T>(xs: seq<T>): T
    requires xs != []
  {
    xs[|xs| - 1]
  }

  function Concat(chunks: seq<string>): string {
    if chunks == [] then "" else Concat(Front(chunks)) + Final(chunks)
  }

  // ----- what the blank-line search finds

  ghost predicate NoBlank(s: string) {
    forall i :: 0 <= i < |s| - 1 ==> !(s[i] == '\n' && s[i + 1] == '\n')
  }

  lemma {:induction false} FindsLeftmost(s: string)
    ensures FindBlank(s).None? <==> NoBlank(s)
    ensures FindBlank(s).Some? ==> NoBlank(s[..FindBlank(s).value + 1])
    decreases |s|
  {
    if |s| >= 2 && !(s[0] == '\n' && s[1] == '\n') {
      var rest := s[1..];
      FindsLeftmost(rest);
      if FindBlank(rest).Some? {
        var k := FindBlank(rest).value;
        assert rest[k] == s[k + 1] && rest[k + 1] == s[k + 2];
        var upTo := s[..k + 2];
        forall i | 0 <= i < |upTo| - 1
          ensures !(upTo[i] == '\n' && upTo[i + 1] == '\n')
        {
          if i > 0 {
            assert rest[..k + 1][i - 1] == s[i] && rest[..k + 1][i] == s[i + 1];
          }
        }
      } else {
        forall i | 0 <= i < |s| - 1
          ensures !(s[i] == '\n' && s[i + 1] == '\n')
        {
          if i > 0 {
            assert rest[i - 1] == s[i] && rest[i] == s[i + 1];
          }
        }
      }
    }
  }

  lemma {:induction false} FindIgnoresWhatFollows(x: string, y: string)
    requires FindBlank(x).Some?
    ensures FindBlank(x + y) == FindBlank(x)
    decreases |x|
  {
    if !(x[0] == '\n' && x[1] == '\n') {
      assert (x + y)[1..] == x[1..] + y;
      FindIgnoresWhatFollows(x[1..], y);
    }
  }

  /** Text that arrives later only touches the last piece. */
  lemma {:induction false} SplitAppend(x: string, y: string)
    ensures Split(x + y) == Front(Split(x)) + Split(Final(Split(x)) + y)
    decreases |x|
  {
    if FindBlank(x).Some? {
      var k := FindBlank(x).value;
      FindIgnoresWhatFollows(x, y);
      assert (x + y)[..k] == x[..k];
      assert (x + y)[k + 2..] == x[k + 2..] + y;
      SplitAppend(x[k + 2..], y);
      var rest := Split(x[k + 2..]);
      assert Split(x) == [x[..k]] + rest;
      assert Front(Split(x)) == [x[..k]] + Front(rest);
    }
  }

  function Join(pieces: seq<string>, separator: string): string
    requires pieces != []
  {
    if |pieces| == 1 then pieces[0] else pieces[0] + separator + Join(pieces[1..], separator)
  }

  /** Nothing is lost: the pieces, joined by blank lines again, are the text. */
  lemma {:induction false} SplitJoins(s: string)
    ensures Split(s) != [] && Join(Split(s), "\n\n") == s
    decreases |s|
  {
    if FindBlank(s).Some? {
      var k := FindBlank(s).value;
      SplitJoins(s[k + 2..]);
      FindsLeftmost(s);
      assert s == s[..k] + "\n\n" + s[k + 2..];
    }
  }

  // ----- the client's loop

  /** What the client has cut off as frames, and what it still buffers. */
  datatype Reading = Reading(frames: seq<string>, buffer: string)

  /** The client after reading the chunks one by one, splitting the buffer each time. */
  function ReadChunks(chunks: seq<string>): Reading {
    if chunks == [] then Reading([], "")
    else
      var before := ReadChunks(Front(chunks));
      var pieces := Split(before.buffer + Final(chunks));
      Reading(before.frames + Front(pieces), Final(pieces))
  }

  lemma ReadStep(frames: seq<string>, buffer: string, x: string, chunk: string)
    requires frames + [buffer] == Split(x)
    ensures (frames + Front(Split(buffer + chunk))) + [Final(Split(buffer + chunk))] == Split(x + chunk)
  {
    hide FindBlank, Split, Concat;
    SplitAppend(x, chunk);
    assert Front(frames + [buffer]) == frames && Final(frames + [buffer]) == buffer;
    var pieces := Split(buffer + chunk);
    assert (frames + Front(pieces)) + [Final(pieces)] == frames + pieces;
  }

  lemma {:induction false} ReadingIsSplittingOnce(chunks: seq<string>)
    ensures ReadChunks(chunks).frames + [ReadChunks(chunks).buffer] == Split(Concat(chunks))
    decreases |chunks|
  {
    if chunks != [] {
      var before, x, chunk := ReadChunks(Front(chunks)), Concat(Front(chunks)), Final(chunks);
      var pieces := Split(before.buffer + chunk);
      assert ReadChunks(chunks) == Reading(before.frames + Front(pieces), Final(pieces));
      assert Concat(chunks) == x + chunk;
      hide *;
      ReadingIsSplittingOnce(Front(chunks));
      ReadStep(before.frames, before.buffer, x, chunk);
    }
  }

  /** Any two ways of cutting one stream into chunks give the same frames and leftover. */
  lemma ChunkingIsIrrelevant(chunks: seq<string>, others: seq<string>)
    requires Concat(chunks) == Concat(others)
    ensures ReadChunks(chunks) == ReadChunks(others)
  {
    ReadingIs(chunks, ReadChunks(others).frames, ReadChunks(others).buffer);
    ReadingIsSplittingOnce(others);
  }

  lemma ReadingIs(chunks: seq<string>, frames: seq<string>, buffer: string)
    ensures frames + [buffer] == Split(Concat(chunks)) <==> ReadChunks(chunks) == Reading(frames, buffer)
  {
    var r := ReadChunks(chunks);
    ReadingIsSplittingOnce(chunks);
    hide ReadChunks, Split, Concat;
    assert Front(frames + [buffer]) == frames && Front(r.frames + [r.buffer]) == r.frames;
    assert Final(frames + [buffer]) == buffer && Final(r.frames + [r.buffer]) == r.buffer;
  }

  // ----- which frames survive the trip

  /** The frames as written: each followed by a blank line. */
  function Written(frames: seq<string>): string {
    if frames == [] then "" else frames[0] + BLANK + Written(frames[1..])
  }

  /** No blank line inside, and none formed with the terminator: the frame does not end in a newline. */
  ghost predicate Clean(frame: string) {
    NoBlank(frame + "\n")
  }

  lemma CleanFrameEndsAtTerminator(frame: string, rest: string)
    requires Clean(frame)
    ensures FindBlank(frame + BLANK + rest) == Some(|frame|)
  {
    var s := frame + BLANK;
    FindsLeftmost(s);
    assert s[|frame|] == '\n' && s[|frame| + 1] == '\n';
    forall i | 0 <= i < |frame|
      ensures !(s[i] == '\n' && s[i + 1] == '\n')
    {
      assert (frame + "\n")[i] == s[i] && (frame + "\n")[i + 1] == s[i + 1];
    }
    FindIgnoresWhatFollows(s, rest);
  }

  lemma SplitFirst(frame: string, rest: string)
    requires Clean(frame)
    ensures Split(frame + BLANK + rest) == [frame] + Split(rest)
  {
    CleanFrameEndsAtTerminator(frame, rest);
    var s := frame + BLANK + rest;
    assert s[..|frame|] == frame && s[|frame| + 2..] == rest;
  }

  lemma {:induction false} PiecesAreClean(s: string, i: nat)
    requires i < |Split(s)| - 1
    ensures Clean(Split(s)[i])
    decreases |s|
  {
    var k := FindBlank(s).value;
    if i == 0 {
      FindsLeftmost(s);
      assert s[..k] + "\n" == s[..k + 1];
    } else {
      PiecesAreClean(s[k + 2..], i - 1);
    }
  }

  lemma {:induction false} CleanFramesAreRecovered(frames: seq<string>)
    requires forall f :: f in frames ==> Clean(f)
    ensures Split(Written(frames)) == frames + [""]
    decreases |frames|
  {
    if frames != [] {
      var frame, rest := frames[0], Written(frames[1..]);
      CleanFramesAreRecovered(frames[1..]);
      SplitFirst(frame, rest);
      assert [frame] + (frames[1..] + [""]) == frames + [""];
    }
  }

  /**
    However the stream is cut, the frames written are recovered, in order and with nothing left over, exactly when
    all of them are clean.
   */
  lemma RecoveredIffClean(frames: seq<string>, chunks: seq<string>)
    requires Concat(chunks) == Written(frames)
    ensures ReadChunks(chunks) == Reading(frames, "") <==> forall f :: f in frames ==> Clean(f)
  {
    ReadingIs(chunks, frames, "");
    if forall f :: f in frames ==> Clean(f) {
      CleanFramesAreRecovered(frames);
    } else if Split(Written(frames)) == frames + [""] {
      forall f | f in frames
        ensures Clean(f)
      {
        var i :| 0 <= i < |frames| && frames[i] == f;
        PiecesAreClean(Written(frames), i);
        assert (frames + [""])[i] == f;
      }
    }
  }

  // ----- events

  /** `frame.split("\n")`. */
  function Lines(s: string): (r: seq<string>)
    ensures r != []
  {
    if s == "" then [""]
    else if s[0] == '\n' then [""] + Lines(s[1..])
    else [[s[0]] + Lines(s[1..])[0]] + Lines(s[1..])[1..]
  }

  const DATA: string := "data: "

  /** The lines are the text between newlines: joined again they give it, and none contains one. */
  lemma {:induction false} LinesJoin(s: string)
    ensures Join(Lines(s), "\n") == s && forall line :: line in Lines(s) ==> '\n' !in line
    decreases |s|
  {
    if s != "" {
      var rest := Lines(s[1..]);
      LinesJoin(s[1..]);
      assert s == [s[0]] + s[1..];
      if s[0] == '\n' {
        assert Lines(s) == [""] + rest && Lines(s)[1..] == rest;
      } else {
        var lines := [[s[0]] + rest[0]] + rest[1..];
        assert Lines(s) == lines && lines[1..] == rest[1..];
        assert rest == [rest[0]] + rest[1..];
      }
    }
  }

  /** The payload of a frame is that of the first line that starts as a data line; without one there is none. */
  lemma {:induction false} FirstDataIs(lines: seq<string>)
    ensures match FirstData(lines)
            case Some(json) => exists i ::
              0 <= i < |lines| && lines[i] == "data: " + json && forall j :: 0 <= j < i ==> !("data: " <= lines[j])
            case None => forall i :: 0 <= i < |lines| ==> !("data: " <= lines[i])
    decreases |lines|
  {
    if lines != [] {
      if DATA <= lines[0] {
        assert lines[0] == "data: " + lines[0][6..];
      } else {
        FirstDataIs(lines[1..]);
        match FirstData(lines[1..])
        case Some(json) =>
          var i :|
            && 0 <= i < |lines[1..]| && lines[1..][i] == "data: " + json
            && forall j :: 0 <= j < i ==> !("data: " <= lines[1..][j]);
          assert lines[i + 1] == "data: " + json;
          assert forall j :: 0 < j < i + 1 ==> lines[j] == lines[1..][j - 1];
        case None =>
          assert forall j :: 0 < j < |lines| ==> lines[j] == lines[1..][j - 1];
      }
    }
  }

  function FirstData(lines: seq<string>): Option<string> {
    if lines == [] then None
    else if DATA <= lines[0] then Some(lines[0][|DATA|..])
    else FirstData(lines[1..])
  }

  /** The parsed payload of the frame's first data line; None where the client drops the frame. */
  function ParseFrame<E>(frame: string, parse: string -> Option<E>): Option<E> {
    match FirstData(Lines(frame))
    case None => None
    case Some(json) => parse(json)
  }

  function ParseAll<E>(frames: seq<string>, parse: string -> Option<E>): seq<E> {
    if frames == [] then []
    else
      ParseAll(Front(frames), parse) +
      match ParseFrame(Final(frames), parse) case Some(e) => [e] case None => []
  }

  lemma {:induction false} ParseAllAppend<E>(a: seq<string>, b: seq<string>, parse: string -> Option<E>)
    ensures ParseAll(a + b, parse) == ParseAll(a, parse) + ParseAll(b, parse)
    decreases |b|
  {
    if b == [] {
      assert a + b == a;
    } else {
      assert Front(a + b) == a + Front(b);
      ParseAllAppend(a, Front(b), parse);
    }
  }

  method DeliverFrames<E>(frames: seq<string>, parse: string -> Option<E>) returns (events: seq<E>)
    ensures events == ParseAll(frames, parse)
  {
    events := [];
    for i := 0 to |frames|
      invariant events == ParseAll(frames[..i], parse)
    {
      assert Front(frames[..i + 1]) == frames[..i];
      match ParseFrame(frames[i], parse)
      case Some(e) => events := events + [e];
      case None =>
    }
    assert frames[..|frames|] == frames;
  }

  /**
    The client's read loop. The frames it parses and the buffer it is left with are those of splitting the whole
    stream once, so they do not depend on how the stream was cut into chunks.
   */
  method StreamQuery<E>(chunks: seq<string>, parse: string -> Option<E>)
    returns (events: seq<E>, buffer: string)
    ensures buffer == ReadChunks(chunks).buffer
    ensures events == ParseAll(ReadChunks(chunks).frames, parse)
    ensures buffer == Final(Split(Concat(chunks)))
    ensures events == ParseAll(Front(Split(Concat(chunks))), parse)
  {
    events, buffer := [], "";
    for i := 0 to |chunks|
      invariant buffer == ReadChunks(chunks[..i]).buffer
      invariant events == ParseAll(ReadChunks(chunks[..i]).frames, parse)
    {
      assert Front(chunks[..i + 1]) == chunks[..i];
      ghost var frames := ReadChunks(chunks[..i]).frames;
      buffer := buffer + chunks[i];
      var pieces := Split(buffer);
      buffer := Final(pieces);
      var delivered := DeliverFrames(Front(pieces), parse);
      events := events + delivered;
      ParseAllAppend(frames, Front(pieces), parse);
    }
    assert chunks[..|chunks|] == chunks;
    ReadingIsSplittingOnce(chunks);
    assert Front(ReadChunks(chunks).frames + [buffer]) == ReadChunks(chunks).frames;
  }

  // ----- the server's frames

  /** An event as the server serialises it: its identifier, its type and its JSON text. */
  datatype WireEvent = WireEvent(id: string, eventType: string, json: string)

  function FrameBody(e: WireEvent): string {
    "id: " + e.id + "\n" + ("event: " + e.eventType + "\n" + (DATA + e.json))
  }

  predicate OneLine(s: string) {
    '\n' !in s
  }

  predicate WellFormed(e: WireEvent) {
    OneLine(e.id) && OneLine(e.eventType) && OneLine(e.json)
  }

  lemma {:induction false} LinesOfOneLine(s: string)
    requires OneLine(s)
    ensures Lines(s) == [s]
    decreases |s|
  {
    if s != "" {
      LinesOfOneLine(s[1..]);
      assert [s[0]] + s[1..] == s;
    }
  }

  lemma {:induction false} LinesCons(line: string, rest: string)
    requires OneLine(line)
    ensures Lines(line + "\n" + rest) == [line] + Lines(rest)
    decreases |line|
  {
    var s := line + "\n" + rest;
    if line == "" {
      assert s[1..] == rest;
    } else {
      LinesCons(line[1..], rest);
      assert s[1..] == line[1..] + "\n" + rest;
      assert [s[0]] + line[1..] == line;
    }
  }

  lemma NoBlankCons(line: string, rest: string)
    requires OneLine(line) && NoBlank(rest) && rest != "" && rest[0] != '\n'
    ensures NoBlank(line + "\n" + rest)
  {
  }

  lemma FrameIsCleanAndParses<E>(e: WireEvent, parse: string -> Option<E>)
    requires WellFormed(e)
    ensures Clean(FrameBody(e))
    ensures ParseFrame(FrameBody(e), parse) == parse(e.json)
    ensures Lines(FrameBody(e)) == ["id: " + e.id, "event: " + e.eventType, "data: " + e.json]
  {
    var idLine, eventLine, dataLine := "id: " + e.id, "event: " + e.eventType, DATA + e.json;
    assert NoBlank(dataLine + "\n");
    NoBlankCons(eventLine, dataLine + "\n");
    NoBlankCons(idLine, eventLine + "\n" + (dataLine + "\n"));
    assert FrameBody(e) + "\n" == idLine + "\n" + (eventLine + "\n" + (dataLine + "\n"));
    LinesCons(idLine, eventLine + "\n" + dataLine);
    LinesCons(eventLine, dataLine);
    LinesOfOneLine(dataLine);
    assert idLine[0] == 'i' && eventLine[0] == 'e';
    assert FrameBody(e) == idLine + "\n" + (eventLine + "\n" + dataLine);
    assert Lines(FrameBody(e)) == [idLine] + ([eventLine] + [dataLine]);
    FirstDataSkips(idLine, [eventLine] + [dataLine]);
    FirstDataSkips(eventLine, [dataLine]);
    assert dataLine[|DATA|..] == e.json;
  }

  lemma FirstDataSkips(line: string, lines: seq<string>)
    requires line != "" && line[0] != 'd'
    ensures FirstData([line] + lines) == FirstData(lines)
  {
    assert !(DATA <= line);
    assert ([line] + lines)[1..] == lines;
  }

  function Frames(events: seq<WireEvent>): seq<string> {
    seq(|events|, i requires 0 <= i < |events| => FrameBody(events[i]))
  }

  lemma {:induction false} AllParse<E>(wire: seq<WireEvent>, events: seq<E>, parse: string -> Option<E>)
    requires |wire| == |events|
    requires forall i :: 0 <= i < |wire| ==> WellFormed(wire[i]) && parse(wire[i].json) == Some(events[i])
    ensures ParseAll(Frames(wire), parse) == events
    decreases |wire|
  {
    if wire != [] {
      AllParse(Front(wire), Front(events), parse);
      assert Front(Frames(wire)) == Frames(Front(wire));
      FrameIsCleanAndParses(Final(wire), parse);
    }
  }

  /** However the server's bytes are cut up, the client delivers exactly the events sent, in order. */
  lemma StreamDeliversEveryEvent<E>(wire: seq<WireEvent>, events: seq<E>, parse: string -> Option<E>,
                                    chunks: seq<string>)
    requires |wire| == |events|
    requires forall i :: 0 <= i < |wire| ==> WellFormed(wire[i]) && parse(wire[i].json) == Some(events[i])
    requires Concat(chunks) == Written(Frames(wire))
    ensures ReadChunks(chunks) == Reading(Frames(wire), "")
    ensures ParseAll(ReadChunks(chunks).frames, parse) == events
  {
    forall f | f in Frames(wire)
      ensures Clean(f)
    {
      var i :| 0 <= i < |Frames(wire)| && Frames(wire)[i] == f;
      FrameIsCleanAndParses(wire[i], parse);
    }
    RecoveredIffClean(Frames(wire), chunks);
    AllParse(wire, events, parse);
  }
}
