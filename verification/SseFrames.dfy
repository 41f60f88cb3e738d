/**
 The incremental reader of server-sent events: chunks of text are gathered in a buffer and cut at blank
 lines. Framing is the subset of section 9.2 of the WHATWG HTML Standard that both sides use: LF line
 ends and `data:` lines only.
 */
module SseFrames {
  import opened Common
  import opened Text

  /** JSON printing and parsing of events; `failed` is the error event made of an unparsable text. */
  datatype Codec<!E> = Codec(print_: E -> string, parse: string -> Option<E>, failed: string -> E)

  /** JSON as the two sides use it: parsing undoes printing, and printed text is one line without outer blanks. */
  ghost predicate Lawful<E(!new)>(codec: Codec<E>) {
    forall e :: codec.parse(codec.print_(e)) == Some(e) && IsPlainLine(codec.print_(e))
  }

  ghost predicate IsPlainLine(s: string) {
    s != [] && !IsBlank(s[0]) && !IsBlank(s[|s| - 1]) && '\n' !in s
  }

  // ----- cutting frames -----

  /** `buffer.indexOf('\n\n')` */
  function IndexOfBreak(s: string): (r: int)
    ensures -1 <= r && (r >= 0 ==> r + 2 <= |s| && s[r] == '\n' && s[r + 1] == '\n')
    ensures forall k :: 0 <= k && k + 2 <= |s| && (r >= 0 ==> k < r) ==> !(s[k] == '\n' && s[k + 1] == '\n')
  {
    if |s| < 2 then -1
    else if s[0] == '\n' && s[1] == '\n' then 0
    else
      var r := IndexOfBreak(s[1..]);
      assert forall k :: 0 < k && k + 2 <= |s| ==> s[k] == s[1..][k - 1] && s[k + 1] == s[1..][k];
      if r == -1 then -1 else r + 1
  }

  /** `s.split('\n')` */
  function SplitLines(s: string): (lines: seq<string>)
    ensures lines != []
  {
    if s == [] then [""]
    else
      var rest := SplitLines(s[1..]);
      if s[0] == '\n' then [""] + rest else [[s[0]] + rest[0]] + rest[1..]
  }

  const DATA := "data:"

  predicate IsData(line: string) { |line| >= 5 && line[..5] == DATA }

  /** The trimmed contents of the `data:` lines. */
  function DataLines(lines: seq<string>): seq<string> {
    if lines == [] then []
    else (if IsData(lines[0]) then [Trim(lines[0][5..])] else []) + DataLines(lines[1..])
  }

  function JoinLines(lines: seq<string>): string {
    if |lines| == 0 then "" else if |lines| == 1 then lines[0] else lines[0] + "\n" + JoinLines(lines[1..])
  }

  /** The event of one frame, if it has data. */
  function FrameEvents<E>(codec: Codec<E>, frame: string): seq<E> {
    var data := DataLines(SplitLines(frame));
    if data == [] then []
    else
      var raw := JoinLines(data);
      match codec.parse(raw)
      case Some(e) => [e]
      case None => [codec.failed(raw)]
  }

  /**
   A frame yields an event exactly when one of its lines is a data line; text that does not parse yields its
   error event.
   */
  lemma FrameYields<E>(codec: Codec<E>, frame: string)
    ensures |FrameEvents(codec, frame)| == if exists line :: line in SplitLines(frame) && IsData(line) then 1 else 0
    ensures var raw := JoinLines(DataLines(SplitLines(frame)));
      FrameEvents(codec, frame) != [] && codec.parse(raw) == None ==> FrameEvents(codec, frame) == [codec.failed(raw)]
  {
    DataLinesOf(SplitLines(frame));
  }

  lemma {:induction false} DataLinesOf(lines: seq<string>)
    ensures DataLines(lines) != [] <==> exists line :: line in lines && IsData(line)
  {
    if lines == [] {
    } else {
      DataLinesOf(lines[1..]);
      assert forall line :: line in lines <==> line == lines[0] || line in lines[1..];
    }
  }

  lemma {:induction false} SplitJoins(lines: seq<string>)
    requires lines != [] && forall k :: 0 <= k < |lines| ==> '\n' !in lines[k]
    ensures SplitLines(JoinLines(lines)) == lines
    decreases |lines|, |lines[0]|
  {
    if |lines| == 1 {
      LineSplits(lines[0]);
    } else {
      SplitJoins(lines[1..]);
      LineSplitsFrom(lines[0], JoinLines(lines[1..]));
      assert JoinLines(lines) == lines[0] + ("\n" + JoinLines(lines[1..]));
      assert lines == [lines[0]] + lines[1..];
    }
  }

  lemma {:induction false} LineSplits(line: string)
    requires '\n' !in line
    ensures SplitLines(line) == [line]
  {
    if line == "" {
    } else {
      LineSplits(line[1..]);
      assert line == [line[0]] + line[1..];
    }
  }

  lemma {:induction false} LineSplitsFrom(line: string, rest: string)
    requires '\n' !in line
    ensures SplitLines(line + ("\n" + rest)) == [line] + SplitLines(rest)
  {
    var s := line + ("\n" + rest);
    if line == "" {
      assert s == "\n" + rest && s[1..] == rest;
    } else {
      assert s[0] == line[0] && s[1..] == line[1..] + ("\n" + rest);
      LineSplitsFrom(line[1..], rest);
      assert line == [line[0]] + line[1..];
    }
  }

  /** A line that begins with the five characters `data:`. */
  ghost predicate BeginsWithData(line: string) {
    |line| >= 5 && line[0] == 'd' && line[1] == 'a' && line[2] == 't' && line[3] == 'a' && line[4] == ':'
  }

  /** `at` names the lines that begin with `data:`, in order, and `data` is what stands behind it, trimmed. */
  ghost predicate IsDataOf(lines: seq<string>, at: seq<nat>, data: seq<string>) {
    NamesData(lines, at) && NamesAll(lines, at) && StandsBehind(lines, at, data)
  }

  ghost predicate NamesData(lines: seq<string>, at: seq<nat>) {
    && (forall k :: 0 <= k < |at| ==> at[k] < |lines| && BeginsWithData(lines[at[k]]))
    && (forall k, l :: 0 <= k < l < |at| ==> at[k] < at[l])
  }

  ghost predicate NamesAll(lines: seq<string>, at: seq<nat>) {
    forall n: nat :: n < |lines| && BeginsWithData(lines[n]) ==> n in at
  }

  ghost predicate StandsBehind(lines: seq<string>, at: seq<nat>, data: seq<string>)
    requires NamesData(lines, at)
  {
    |at| == |data| && forall k :: 0 <= k < |at| ==> data[k] == Trim(lines[at[k]][5..])
  }

  function Shifted(at: seq<nat>): seq<nat> { seq(|at|, k requires 0 <= k < |at| => at[k] + 1) }

  lemma NamesLater(line: string, lines: seq<string>, at: seq<nat>)
    requires NamesData(lines, at)
    ensures NamesData([line] + lines, Shifted(at))
    ensures BeginsWithData(line) ==> NamesData([line] + lines, [0] + Shifted(at))
  {
    hide BeginsWithData;
    assert forall k :: 0 <= k < |at| ==> ([line] + lines)[at[k] + 1] == lines[at[k]];
  }

  lemma NamesAllLater(line: string, lines: seq<string>, at: seq<nat>)
    requires NamesAll(lines, at)
    ensures if BeginsWithData(line) then NamesAll([line] + lines, [0] + Shifted(at))
            else NamesAll([line] + lines, Shifted(at))
  {
    hide BeginsWithData;
    var all, later := [line] + lines, Shifted(at);
    forall n: nat | 0 < n < |all| && BeginsWithData(all[n]) ensures n in later && n in [0] + later {
      var m: nat := n - 1;
      assert all[n] == lines[m] && m in at;
      var k :| 0 <= k < |at| && at[k] == m;
      assert later[k] == n && ([0] + later)[k + 1] == n;
    }
    assert ([0] + later)[0] == 0;
  }

  lemma BehindLater(line: string, lines: seq<string>, at: seq<nat>, data: seq<string>)
    requires NamesData(lines, at) && StandsBehind(lines, at, data)
    requires NamesData([line] + lines, Shifted(at))
    ensures StandsBehind([line] + lines, Shifted(at), data)
    ensures BeginsWithData(line) && NamesData([line] + lines, [0] + Shifted(at)) ==>
      StandsBehind([line] + lines, [0] + Shifted(at), [Trim(line[5..])] + data)
  {
    hide Trim;
    assert forall k :: 0 <= k < |at| ==> ([line] + lines)[at[k] + 1] == lines[at[k]];
  }

  lemma {:induction false} DataLinesAre(lines: seq<string>) returns (at: seq<nat>)
    ensures IsDataOf(lines, at, DataLines(lines))
  {
    hide Trim, BeginsWithData;
    if lines == [] {
      at := [];
    } else {
      var head, rest := lines[0], lines[1..];
      at := DataLinesAre(rest);
      DataIs(head);
      assert lines == [head] + rest && [] + DataLines(rest) == DataLines(rest);
      hide NamesData, NamesAll, StandsBehind, Shifted;
      NamesLater(head, rest, at);
      NamesAllLater(head, rest, at);
      BehindLater(head, rest, at, DataLines(rest));
      at := if BeginsWithData(head) then [0] + Shifted(at) else Shifted(at);
    }
  }

  lemma DataIs(line: string)
    ensures IsData(line) <==> BeginsWithData(line)
  {
    assert |DATA| == 5;
  }

  /**
   A frame of several lines: no event without a data line, and else what its data lines say together parses to, or
   the error event of that text.
   */
  lemma FrameInWords<E>(codec: Codec<E>, lines: seq<string>) returns (at: seq<nat>, data: seq<string>)
    requires lines != [] && forall k :: 0 <= k < |lines| ==> '\n' !in lines[k]
    ensures IsDataOf(lines, at, data)
    ensures var raw, events := JoinLines(data), FrameEvents(codec, JoinLines(lines));
      && (data == [] ==> events == [])
      && (data != [] && codec.parse(raw).Some? ==> events == [codec.parse(raw).value])
      && (data != [] && codec.parse(raw) == None ==> events == [codec.failed(raw)])
  {
    SplitJoins(lines);
    at := DataLinesAre(lines);
    data := DataLines(lines);
  }

  /** All events of the complete frames of a text, and the incomplete rest. */
  function Drain<E>(codec: Codec<E>, text: string): (r: (seq<E>, string))
    ensures IndexOfBreak(r.1) == -1
    decreases |text|
  {
    var at := IndexOfBreak(text);
    if at == -1 then ([], text)
    else
      var (events, rest) := Drain(codec, text[at + 2..]);
      (FrameEvents(codec, text[..at]) + events, rest)
  }

  function EventsOf<E>(codec: Codec<E>, text: string): seq<E> { Drain(codec, text).0 }

  /** The first break of a text stays first when more text follows. */
  lemma BreakStays(s: string, more: string)
    requires IndexOfBreak(s) >= 0
    ensures IndexOfBreak(s + more) == IndexOfBreak(s)
  {
    var r := IndexOfBreak(s);
    assert forall k :: 0 <= k < |s| ==> (s + more)[k] == s[k];
  }

  lemma DrainStep<E>(codec: Codec<E>, text: string)
    ensures var at := IndexOfBreak(text);
      if at == -1 then Drain(codec, text) == ([], text)
      else Drain(codec, text).0 == FrameEvents(codec, text[..at]) + Drain(codec, text[at + 2..]).0
           && Drain(codec, text).1 == Drain(codec, text[at + 2..]).1
  {
    hide FrameEvents, IndexOfBreak;
    var at := IndexOfBreak(text);
    if at != -1 {
      var (events, rest) := Drain(codec, text[at + 2..]);
      assert Drain(codec, text) == (FrameEvents(codec, text[..at]) + events, rest);
    }
  }

  lemma BreakSplits(text: string, more: string)
    requires IndexOfBreak(text) >= 0
    ensures var at := IndexOfBreak(text);
      && IndexOfBreak(text + more) == at && (text + more)[..at] == text[..at]
      && (text + more)[at + 2..] == text[at + 2..] + more
  {
    BreakStays(text, more);
  }

  /** Draining may stop anywhere: the rest carries all that later text needs. */
  lemma {:induction false} DrainConcat<E>(codec: Codec<E>, text: string, more: string)
    ensures var (events, rest) := Drain(codec, text);
      Drain(codec, text + more) == (events + Drain(codec, rest + more).0, Drain(codec, rest + more).1)
    decreases |text|
  {
    hide FrameEvents, Drain, IndexOfBreak;
    var at := IndexOfBreak(text);
    DrainStep(codec, text);
    if at == -1 {
      assert [] + Drain(codec, text + more).0 == Drain(codec, text + more).0;
    } else {
      DrainConcat(codec, text[at + 2..], more);
      BreakSplits(text, more);
      DrainStep(codec, text + more);
      var (events, rest) := Drain(codec, text[at + 2..]);
      Regroup(FrameEvents(codec, text[..at]), events, Drain(codec, rest + more).0);
    }
  }

  function Concat(chunks: seq<string>): string {
    if chunks == [] then "" else Concat(chunks[..|chunks| - 1]) + chunks[|chunks| - 1]
  }

  // ----- the reader -----

  /** The inner loop: cuts all complete frames off the buffer. */
  method DrainBuffer<E>(codec: Codec<E>, buffer: string) returns (events: seq<E>, rest: string)
    ensures (events, rest) == Drain(codec, buffer)
  {
    events, rest := [], buffer;
    assert [] + Drain(codec, rest).0 == Drain(codec, rest).0;
    while true
      invariant Drain(codec, buffer) == (events + Drain(codec, rest).0, Drain(codec, rest).1)
      decreases |rest|
    {
      var frameEnd := IndexOfBreak(rest);
      if frameEnd == -1 { break; }
      var frame := rest[..frameEnd];
      Regroup(events, FrameEvents(codec, frame), Drain(codec, rest[frameEnd + 2..]).0);
      rest := rest[frameEnd + 2..];
      events := events + FrameEvents(codec, frame);
    }
    assert events + [] == events;
  }

  /** Whatever the chunks, the reader yields the events of their concatenation. */
  method ParseSseEvents<E>(codec: Codec<E>, chunks: seq<string>) returns (events: seq<E>)
    ensures events == EventsOf(codec, Concat(chunks))
  {
    events := [];
    var buffer := "";
    for k := 0 to |chunks|
      invariant (events, buffer) == Drain(codec, Concat(chunks[..k]))
    {
      assert chunks[..k + 1][..k] == chunks[..k];
      DrainConcat(codec, Concat(chunks[..k]), chunks[k]);
      buffer := buffer + chunks[k];
      var more;
      more, buffer := DrainBuffer(codec, buffer);
      events := events + more;
    }
    assert chunks[..|chunks|] == chunks;
  }

  // ----- reading what the gateway writes -----

  /** The frame the gateway writes for one JSON text. */
  function Frame(json: string): string { "data: " + json + "\n\n" }

  function Frames(jsons: seq<string>): string {
    if jsons == [] then "" else Frame(jsons[0]) + Frames(jsons[1..])
  }

  function PrintAll<E>(codec: Codec<E>, events: seq<E>): seq<string> {
    seq(|events|, k requires 0 <= k < |events| => codec.print_(events[k]))
  }

  /** Each text is one plain line that parses to the event beside it. */
  ghost predicate Denote<E>(codec: Codec<E>, jsons: seq<string>, events: seq<E>) {
    && |jsons| == |events|
    && forall k :: 0 <= k < |jsons| ==> IsPlainLine(jsons[k]) && codec.parse(jsons[k]) == Some(events[k])
  }

  lemma {:induction false} OneLine(s: string)
    requires '\n' !in s
    ensures SplitLines(s) == [s]
  {
    if s == [] {
    } else {
      OneLine(s[1..]);
      assert [s[0]] + s[1..] == s;
    }
  }

  /** A written frame is cut at its end and gives back its event. */
  lemma FrameGivesEvent<E>(codec: Codec<E>, json: string, e: E, more: string)
    requires IsPlainLine(json) && codec.parse(json) == Some(e)
    ensures Drain(codec, Frame(json) + more) == ([e] + Drain(codec, more).0, Drain(codec, more).1)
  {
    var line, text := "data: " + json, Frame(json) + more;
    assert text == line + "\n\n" + more;
    LineBreakAt(line, more);
    assert text[..|line|] == line && text[|line| + 2..] == more;
    LineGivesEvent(codec, json, e);
  }

  lemma LineBreakAt(line: string, more: string)
    requires '\n' !in line
    ensures IndexOfBreak(line + "\n\n" + more) == |line|
  {
    var text := line + "\n\n" + more;
    assert forall k :: 0 <= k < |line| ==> text[k] == line[k] && text[k] != '\n';
    assert text[|line|] == '\n' && text[|line| + 1] == '\n';
  }

  lemma LineGivesEvent<E>(codec: Codec<E>, json: string, e: E)
    requires IsPlainLine(json) && codec.parse(json) == Some(e)
    ensures FrameEvents(codec, "data: " + json) == [e]
  {
    var line := "data: " + json;
    OneLine(line);
    assert line[..5] == DATA && line[5..] == " " + json;
    assert (" " + json)[1..] == json;
    assert Trim(" " + json) == Trim(json) == json;
    assert DataLines([line]) == [json] + DataLines([line][1..]);
    assert DataLines([line]) == [json];
  }

  /** The reader gives back exactly the events whose frames were written. */
  lemma {:induction false} FramesRoundTrip<E>(codec: Codec<E>, jsons: seq<string>, events: seq<E>)
    requires Denote(codec, jsons, events)
    ensures Drain(codec, Frames(jsons)) == (events, "")
  {
    if jsons == [] {
    } else {
      FrameGivesEvent(codec, jsons[0], events[0], Frames(jsons[1..]));
      FramesRoundTrip(codec, jsons[1..], events[1..]);
      assert [events[0]] + events[1..] == events;
    }
  }

  /** However the written text is cut into chunks, the reader yields exactly the printed events. */
  lemma ChunkedRoundTrip<E(!new)>(codec: Codec<E>, events: seq<E>, chunks: seq<string>)
    requires Lawful(codec) && Concat(chunks) == Frames(PrintAll(codec, events))
    ensures EventsOf(codec, Concat(chunks)) == events
  {
    FramesRoundTrip(codec, PrintAll(codec, events), events);
  }

  /** A stream that breaks off has given a prefix of the events. */
  lemma CutStreamGivesPrefix<E>(codec: Codec<E>, text: string, cut: nat)
    requires cut <= |text|
    ensures EventsOf(codec, text[..cut]) <= EventsOf(codec, text)
  {
    assert text == text[..cut] + text[cut..];
    DrainConcat(codec, text[..cut], text[cut..]);
  }
}
