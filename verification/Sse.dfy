/**
 Server-sent events (ingestor/sse.py), for the fields handled there. Framing follows
 section 9.2.6 of the WHATWG HTML Living Standard; parsing undoes it.
 */
module Sse {
  import opened Common

  datatype SseEvent = SseEvent(event: string, data: string, id: Option<string>)

  datatype Parser = Parser(event: string, dataLines: seq<string>, id: Option<string>)

  const NEW_PARSER := Parser("message", [], None)

  predicate IsComment(line: string) {
    line != "" && line[0] == ':'
  }

  /** The part of a line before its first colon; all of it if there is none. */
  function FieldName(line: string): string {
    if line == "" || line[0] == ':' then "" else [line[0]] + FieldName(line[1..])
  }

  /** The part after the first colon, less one leading space. */
  function FieldValue(line: string): string {
    var name := FieldName(line);
    if |name| + 1 < |line| && line[|name| + 1] == ' ' then line[|name| + 2..]
    else if |name| < |line| then line[|name| + 1..]
    else ""
  }

  function Join(pieces: seq<string>): string {
    if pieces == [] then ""
    else if |pieces| == 1 then pieces[0]
    else pieces[0] + "\n" + Join(pieces[1..])
  }

  datatype Fed = Fed(parser: Parser, events: seq<SseEvent>)

  function Flushed(p: Parser): Fed {
    Fed(Parser("message", [], p.id), if p.dataLines == [] then [] else [SseEvent(p.event, Join(p.dataLines), p.id)])
  }

  function WithField(p: Parser, name: string, value: string): Parser {
    if name == "data" then p.(dataLines := p.dataLines + [value])
    else if name == "event" then p.(event := value)
    else if name == "id" then p.(id := Some(value))
    else p
  }

  function FeedLine(p: Parser, line: string): Fed {
    if IsComment(line) then Fed(p, [])
    else if line == "" then Flushed(p)
    else Fed(WithField(p, FieldName(line), FieldValue(line)), [])
  }

  function FeedAll(p: Parser, lines: seq<string>): Fed
    decreases |lines|
  {
    if lines == [] then Fed(p, [])
    else
      var first := FeedLine(p, lines[0]);
      var rest := FeedAll(first.parser, lines[1..]);
      Fed(rest.parser, first.events + rest.events)
  }

  // ---- Framing --------------------------------------------------------------

  /** The pieces of a text between its newlines. */
  function Pieces(s: string): (pieces: seq<string>)
    ensures pieces != [] && Join(pieces) == s
    ensures forall piece :: piece in pieces ==> '\n' !in piece
  {
    if s == "" then [""]
    else
      var rest := Pieces(s[1..]);
      if s[0] == '\n' then [""] + rest else [[s[0]] + rest[0]] + rest[1..]
  }

  function Line(name: string, value: string): string {
    name + ": " + value
  }

  function DataLines(pieces: seq<string>): seq<string> {
    if pieces == [] then [] else [Line("data", pieces[0])] + DataLines(pieces[1..])
  }

  /** The lines of one event: its type, its id if it has one, its data, and a blank line. */
  function Render(e: SseEvent): seq<string> {
    [Line("event", e.event)] + (if e.id.Some? then [Line("id", e.id.value)] else []) + DataLines(Pieces(e.data)) + [""]
  }

  function RenderAll(events: seq<SseEvent>): seq<string> {
    if events == [] then [] else Render(events[0]) + RenderAll(events[1..])
  }

  /** An event without an id carries the one before it. */
  function Carried(events: seq<SseEvent>, id: Option<string>): seq<SseEvent> {
    if events == [] then []
    else
      var now := if events[0].id.Some? then events[0].id else id;
      [events[0].(id := now)] + Carried(events[1..], now)
  }

  function WithoutComments(lines: seq<string>): seq<string> {
    if lines == [] then []
    else (if IsComment(lines[0]) then [] else [lines[0]]) + WithoutComments(lines[1..])
  }

  // ---- Parsing undoes framing -----------------------------------------------

  lemma {:induction false} CommentsAreIgnored(p: Parser, lines: seq<string>)
    ensures FeedAll(p, lines) == FeedAll(p, WithoutComments(lines))
    decreases |lines|
  {
    if lines != [] {
      var first := FeedLine(p, lines[0]);
      CommentsAreIgnored(first.parser, lines[1..]);
      var rest := WithoutComments(lines[1..]);
      if IsComment(lines[0]) {
        assert [] + rest == rest;
        assert [] + FeedAll(p, lines[1..]).events == FeedAll(p, lines[1..]).events;
      } else {
        assert ([lines[0]] + rest)[1..] == rest;
      }
    }
  }

  lemma {:induction false} FeedInTwo(p: Parser, a: seq<string>, b: seq<string>)
    ensures var first := FeedAll(p, a); var rest := FeedAll(first.parser, b);
            FeedAll(p, a + b) == Fed(rest.parser, first.events + rest.events)
    decreases |a|
  {
    if a == [] {
      assert a + b == b;
    } else {
      assert (a + b)[1..] == a[1..] + b;
      FeedInTwo(FeedLine(p, a[0]).parser, a[1..], b);
    }
  }

  lemma FeedOne(p: Parser, line: string)
    ensures FeedAll(p, [line]) == FeedLine(p, line)
  {
    assert [line][1..] == [];
  }

  /** A rendered line parses to its field. */
  lemma {:induction false} LineParses(p: Parser, name: string, value: string)
    requires name != "" && ':' !in name
    ensures FeedLine(p, Line(name, value)) == Fed(WithField(p, name, value), [])
  {
    var line, rest := Line(name, value), ": " + value;
    NameOf(name, rest);
    assert name + rest == line && FieldName(line) == name;
    assert rest[0] == ':' && rest[1] == ' ' && rest[2..] == value;
    assert line[|name| + 1] == ' ' && line[|name| + 2..] == value;
    assert line[0] == name[0] && name[0] in name;
  }

  lemma {:induction false} NameOf(name: string, rest: string)
    requires ':' !in name && rest != "" && rest[0] == ':'
    ensures FieldName(name + rest) == name
  {
    if name == "" {
      assert name + rest == rest;
    } else {
      assert (name + rest)[1..] == name[1..] + rest;
      NameOf(name[1..], rest);
    }
  }

  /** One space after the colon is dropped, and only one; a line without a colon is a field without a value. */
  lemma FieldLineParses(p: Parser, name: string, value: string)
    requires name != "" && ':' !in name
    ensures FeedLine(p, name + ":" + value) ==
            Fed(WithField(p, name, if value != "" && value[0] == ' ' then value[1..] else value), [])
    ensures FeedLine(p, name) == Fed(WithField(p, name, ""), [])
  {
    var line := name + ":" + value;
    NameOf(name, ":" + value);
    assert line == name + (":" + value);
    assert line[0] == name[0] && name[0] in name;
    assert line[|name| + 1..] == value;
    NameOfAll(name);
  }

  lemma {:induction false} NameOfAll(name: string)
    requires ':' !in name
    ensures FieldName(name) == name
  {
    if name != "" {
      NameOfAll(name[1..]);
    }
  }

  /** What each field does to the event being read; any other field does nothing. */
  lemma FieldsMean(p: Parser, name: string, value: string)
    requires name != "" && ':' !in name && (value == "" || value[0] != ' ')
    ensures FeedLine(p, name + ":" + value) == FeedLine(p, name + ": " + value)
    ensures name == "data" ==> FeedLine(p, name + ":" + value).parser == Parser(p.event, p.dataLines + [value], p.id)
    ensures name == "event" ==> FeedLine(p, name + ":" + value).parser == Parser(value, p.dataLines, p.id)
    ensures name == "id" ==> FeedLine(p, name + ":" + value).parser == Parser(p.event, p.dataLines, Some(value))
    ensures name != "data" && name != "event" && name != "id" ==> FeedLine(p, name + ":" + value).parser == p
  {
    FieldLineParses(p, name, value);
    LineParses(p, name, value);
  }

  lemma ColonLinesAreIgnored(p: Parser, line: string)
    requires line != "" && line[0] == ':'
    ensures FeedLine(p, line) == Fed(p, [])
  {
  }

  /** A blank line ends an event that has data, and otherwise only forgets its type. */
  lemma BlankEndsEvent(p: Parser)
    ensures FeedLine(p, "").parser == Parser("message", [], p.id)
    ensures FeedLine(p, "").events ==
            if p.dataLines == [] then [] else [SseEvent(p.event, Join(p.dataLines), p.id)]
  {
  }

  lemma FeedCons(p: Parser, line: string, rest: seq<string>)
    ensures var first := FeedLine(p, line); var later := FeedAll(first.parser, rest);
            FeedAll(p, [line] + rest) == Fed(later.parser, first.events + later.events)
  {
    assert ([line] + rest)[1..] == rest;
  }

  lemma DataLineParses(p: Parser, piece: string)
    ensures FeedLine(p, Line("data", piece)) == Fed(p.(dataLines := p.dataLines + [piece]), [])
  {
    LineParses(p, "data", piece);
  }

  lemma DataStep(p: Parser, piece: string, rest: seq<string>)
    ensures FeedAll(p, [Line("data", piece)] + rest) == FeedAll(p.(dataLines := p.dataLines + [piece]), rest)
  {
    DataLineParses(p, piece);
    FeedCons(p, Line("data", piece), rest);
  }

  lemma {:induction false} DataLinesParse(p: Parser, pieces: seq<string>)
    ensures FeedAll(p, DataLines(pieces)) == Fed(p.(dataLines := p.dataLines + pieces), [])
    decreases |pieces|
  {
    if pieces == [] {
      assert p.dataLines + [] == p.dataLines;
    } else {
      DataStep(p, pieces[0], DataLines(pieces[1..]));
      DataLinesParse(p.(dataLines := p.dataLines + [pieces[0]]), pieces[1..]);
      assert p.dataLines + [pieces[0]] + pieces[1..] == p.dataLines + pieces;
    }
  }

  /** Between events a parser remembers nothing but the last id. */
  ghost predicate Idle(p: Parser) {
    p.event == "message" && p.dataLines == []
  }

  lemma HeaderParses(p: Parser, e: SseEvent)
    ensures var lines := [Line("event", e.event)] + (if e.id.Some? then [Line("id", e.id.value)] else []);
            FeedAll(p, lines) == Fed(Parser(e.event, p.dataLines, if e.id.Some? then e.id else p.id), [])
  {
    var q := p.(event := e.event);
    LineParses(p, "event", e.event);
    FeedOne(p, Line("event", e.event));
    if e.id.Some? {
      LineParses(q, "id", e.id.value);
      FeedOne(q, Line("id", e.id.value));
      FeedInTwo(p, [Line("event", e.event)], [Line("id", e.id.value)]);
    } else {
      assert [Line("event", e.event)] + [] == [Line("event", e.event)];
    }
  }

  lemma BodyParses(p: Parser, pieces: seq<string>)
    requires p.dataLines == [] && pieces != []
    ensures FeedAll(p, DataLines(pieces) + [""]) ==
            Fed(Parser("message", [], p.id), [SseEvent(p.event, Join(pieces), p.id)])
  {
    DataLinesParse(p, pieces);
    assert p.dataLines + pieces == pieces;
    FeedOne(p.(dataLines := pieces), "");
    FeedInTwo(p, DataLines(pieces), [""]);
  }

  lemma EventParses(p: Parser, e: SseEvent)
    requires Idle(p)
    ensures var id := if e.id.Some? then e.id else p.id;
            FeedAll(p, Render(e)) == Fed(Parser("message", [], id), [e.(id := id)])
  {
    var id := if e.id.Some? then e.id else p.id;
    var header := [Line("event", e.event)] + (if e.id.Some? then [Line("id", e.id.value)] else []);
    HeaderParses(p, e);
    BodyParses(Parser(e.event, [], id), Pieces(e.data));
    FeedInTwo(p, header, DataLines(Pieces(e.data)) + [""]);
    assert Render(e) == header + (DataLines(Pieces(e.data)) + [""]);
  }

  lemma {:induction false} RenderedParses(p: Parser, events: seq<SseEvent>)
    requires Idle(p)
    ensures FeedAll(p, RenderAll(events)).events == Carried(events, p.id) && Idle(FeedAll(p, RenderAll(events)).parser)
    decreases |events|
  {
    if events != [] {
      EventParses(p, events[0]);
      var q := FeedAll(p, Render(events[0])).parser;
      RenderedParses(q, events[1..]);
      FeedInTwo(p, Render(events[0]), RenderAll(events[1..]));
    }
  }

  /**
   Feeding the lines of any events, with comment lines inserted anywhere, gives back
   exactly those events in order, each with its own or the last earlier id.
   */
  lemma FramingRoundTrip(events: seq<SseEvent>, lines: seq<string>)
    requires WithoutComments(lines) == RenderAll(events)
    ensures FeedAll(NEW_PARSER, lines).events == Carried(events, None)
  {
    CommentsAreIgnored(NEW_PARSER, lines);
    RenderedParses(NEW_PARSER, events);
  }

  // ---- The class ------------------------------------------------------------

  class SseParser {
    var event: string
    var dataLines: seq<string>
    var id: Option<string>

    function Value(): Parser
      reads this
    {
      Parser(event, dataLines, id)
    }

    constructor ()
      ensures Value() == NEW_PARSER
    {
      event, dataLines, id := "message", [], None;
    }

    /** One line in, possibly one complete event out. */
    method Feed(line: string) returns (complete: Option<SseEvent>)
      modifies this
      ensures Fed(Value(), if complete.Some? then [complete.value] else []) == FeedLine(old(Value()), line)
    {
      if IsComment(line) {
        return None;
      }
      if line == "" {
        complete := Flush();
        return;
      }
      var name, value := FieldName(line), FieldValue(line);
      if name == "data" {
        dataLines := dataLines + [value];
      } else if name == "event" {
        event := value;
      } else if name == "id" {
        id := Some(value);
      }
      return None;
    }

    method Flush() returns (complete: Option<SseEvent>)
      modifies this
      ensures Fed(Value(), if complete.Some? then [complete.value] else []) == Flushed(old(Value()))
    {
      if dataLines == [] {
        event := "message";
        return None;
      }
      complete := Some(SseEvent(event, Join(dataLines), id));
      event, dataLines := "message", [];
    }
  }
}

