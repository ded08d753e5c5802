/** The event-stream readers of the benchmark scripts: an incremental line buffer and a line-at-a-time client. */
module StreamReader {
  import opened Json
  import opened Outcomes
  import opened Text

  type Loads = string -> Loaded

  /** What a reader accumulates: `content_chunks`, `reasoning_chunks`, `usage_data`, `finish_reason`. */
  datatype Acc = Acc(content: seq<Json>, reasoning: seq<Json>, usage: Json, finish: Json)

  const START := Acc([], [], Obj(map[]), Null)

  /** `if key in delta and delta[key]: parts.append(delta[key])`, as the list to append. */
  function Part(delta: Json, key: string): Try<seq<Json>> {
    var present :- delta.Contains(key);
    if !present then Ok([])
    else
      var item :- delta.Item(key);
      Ok(if item.Truthy() then [item] else [])
  }

  function ReadChoices(reasoningKey: string, acc: Acc, choices: Json): Try<Acc> {
    if !choices.Truthy() then Ok(acc)
    else
      var choice :- choices.First();
      var delta :- choice.Get("delta", Obj(map[]));
      var content :- Part(delta, "content");
      var reasoning :- Part(delta, reasoningKey);
      var finish :- choice.Get("finish_reason", Null);
      Ok(acc.(content := acc.content + content,
              reasoning := acc.reasoning + reasoning,
              finish := if finish.Truthy() then finish else acc.finish))
  }

  function ReadEvent(reasoningKey: string, acc: Acc, event: Json): Try<Acc> {
    var choices :- event.Get("choices", Arr([]));
    var acc' :- ReadChoices(reasoningKey, acc, choices);
    var present :- event.Contains("usage");
    if present then
      var usage :- event.Item("usage");
      Ok(acc'.(usage := usage))
    else Ok(acc')
  }

  const PREFIX := "data: "
  const DONE := "data: [DONE]"

  predicate IsData(line: string) {
    PREFIX <= line && line != DONE
  }

  /** One line: only data lines other than `[DONE]` count, and undecodable data is skipped. */
  function ReadLine(reasoningKey: string, loads: Loads, acc: Acc, line: string): Try<Acc> {
    if IsData(line) then
      match loads(line[|PREFIX|..])
      case Value(event) => ReadEvent(reasoningKey, acc, event)
      case DecodeError => Ok(acc)
      case OtherError => Raise
    else Ok(acc)
  }

  /** Strip and read lines one after the other, past any `[DONE]`. */
  function ReadLines(reasoningKey: string, loads: Loads, acc: Acc, lines: seq<string>): Try<Acc>
    decreases |lines|
  {
    if lines == [] then Ok(acc)
    else
      var acc' :- ReadLine(reasoningKey, loads, acc, Strip(lines[0]));
      ReadLines(reasoningKey, loads, acc', lines[1..])
  }

  /** The message built after the last chunk. */
  datatype Response = Response(content: string, reasoning: Option<string>, finish: Json, usage: Json)

  function Assemble(acc: Acc): Try<Response> {
    var content :- Join(acc.content);
    var reasoning :- Join(acc.reasoning);
    Ok(Response(content,
                if acc.reasoning == [] then None else Some(reasoning),
                if acc.finish.Truthy() then acc.finish else Str("stop"),
                acc.usage))
  }

  /** Whole-text specification: read the newline-terminated lines of the text, in order. */
  function ReadText(reasoningKey: string, loads: Loads, text: string): Try<Acc> {
    ReadLines(reasoningKey, loads, START, Lines(text))
  }

  function Respond(reasoningKey: string, loads: Loads, text: string): Try<Response> {
    var acc :- ReadText(reasoningKey, loads, text);
    Assemble(acc)
  }

  lemma {:induction false} ReadLinesConcat(reasoningKey: string, loads: Loads, acc: Acc, a: seq<string>, b: seq<string>)
    ensures ReadLines(reasoningKey, loads, acc, a + b)
         == var mid :- ReadLines(reasoningKey, loads, acc, a); ReadLines(reasoningKey, loads, mid, b)
    decreases |a|
  {
    if a == [] {
      assert a + b == b;
    } else {
      assert (a + b)[1..] == a[1..] + b;
      var next := ReadLine(reasoningKey, loads, acc, Strip(a[0]));
      if next.Ok? {
        ReadLinesConcat(reasoningKey, loads, next.value, a[1..], b);
      }
    }
  }

  lemma ReadTextConcat(reasoningKey: string, loads: Loads, a: string, b: string)
    ensures ReadText(reasoningKey, loads, a + b)
         == var mid :- ReadText(reasoningKey, loads, a); ReadLines(reasoningKey, loads, mid, Lines(Tail(a) + b))
  {
    LinesConcat(a, b);
    ReadLinesConcat(reasoningKey, loads, START, Lines(a), Lines(Tail(a) + b));
  }

  /** Cutting one more line off the buffer. */
  lemma ReadOneMore(reasoningKey: string, loads: Loads, seen: string, line: string)
    requires Tail(seen) == "" && '\n' !in line
    ensures Tail(seen + line + "\n") == ""
    ensures ReadText(reasoningKey, loads, seen + line + "\n")
         == var acc :- ReadText(reasoningKey, loads, seen); ReadLine(reasoningKey, loads, acc, Strip(line))
  {
    var last := line + "\n";
    assert "" + last == last && seen + last == seen + line + "\n";
    assert Cuts(last, [line], "") by {
      assert Unlines([line]) == line + "\n" + Unlines([]);
    }
    CutUnique(last, [line], "");
    LinesConcat(seen, last);
    ReadTextConcat(reasoningKey, loads, seen, last);
    var acc := ReadText(reasoningKey, loads, seen);
    if acc.Ok? {
      var next := ReadLine(reasoningKey, loads, acc.value, Strip(line));
      assert [line][1..] == [];
      assert next.Ok? ==> ReadLines(reasoningKey, loads, next.value, []) == next;
    }
  }

  /** `seen` is the part of the text that has been cut into lines and read. */
  ghost predicate ReadSoFar(reasoningKey: string, loads: Loads, seen: string, acc: Acc) {
    Tail(seen) == "" && ReadText(reasoningKey, loads, seen) == Ok(acc)
  }

  lemma RaiseStays(reasoningKey: string, loads: Loads, seen: string, rest: string)
    requires ReadText(reasoningKey, loads, seen).Raise?
    ensures ReadText(reasoningKey, loads, seen + rest).Raise?
  {
    ReadTextConcat(reasoningKey, loads, seen, rest);
  }

  lemma NoMoreLines(reasoningKey: string, loads: Loads, seen: string, rest: string, acc: Acc)
    requires ReadSoFar(reasoningKey, loads, seen, acc) && '\n' !in rest
    ensures ReadText(reasoningKey, loads, seen + rest) == Ok(acc) && Tail(seen + rest) == rest
  {
    assert "" + rest == rest;
    FindPresent(rest, '\n');
    ReadTextConcat(reasoningKey, loads, seen, rest);
    LinesConcat(seen, rest);
  }

  lemma CutLine(seen: string, buffer: string, k: nat)
    requires k < |buffer| && buffer[k] == '\n'
    ensures seen + buffer == seen + buffer[..k] + "\n" + buffer[k + 1..]
  {
    assert buffer == buffer[..k] + "\n" + buffer[k + 1..];
  }

  /** The buffer loop: append a chunk, then cut and read complete lines while there are any. */
  method MakeRequest(chunks: seq<string>, reasoningKey: string, loads: Loads)
    returns (response: Try<Response>, buffer: string)
    ensures response == Respond(reasoningKey, loads, Flatten(chunks))
    ensures ReadText(reasoningKey, loads, Flatten(chunks)).Ok? ==> buffer == Tail(Flatten(chunks))
  {
    var acc := START;
    buffer := "";
    ghost var seen := "";
    assert chunks[..0] == [];
    for i := 0 to |chunks|
      invariant seen + buffer == Flatten(chunks[..i])
      invariant '\n' !in buffer
      invariant ReadSoFar(reasoningKey, loads, seen, acc)
    {
      FlattenTake(chunks, i);
      assert seen + (buffer + chunks[i]) == Flatten(chunks[..i + 1]);
      buffer := buffer + chunks[i];
      while '\n' in buffer
        invariant seen + buffer == Flatten(chunks[..i + 1])
        invariant ReadSoFar(reasoningKey, loads, seen, acc)
        decreases |buffer|
      {
        FindPresent(buffer, '\n');
        var k := Find(buffer, '\n');
        CutLine(seen, buffer, k);
        ReadOneMore(reasoningKey, loads, seen, buffer[..k]);
        seen := seen + buffer[..k] + "\n";
        var line;
        line, buffer := Strip(buffer[..k]), buffer[k + 1..];
        var read := ReadLine(reasoningKey, loads, acc, line);
        if read.Raise? {
          RaiseStays(reasoningKey, loads, seen, buffer);
          RaiseStays(reasoningKey, loads, Flatten(chunks[..i + 1]), Flatten(chunks[i + 1..]));
          FlattenSplit(chunks, i + 1);
          return Raise, buffer;
        }
        acc := read.value;
      }
    }
    assert chunks[..|chunks|] == chunks;
    NoMoreLines(reasoningKey, loads, seen, buffer, acc);
    response := Assemble(acc);
  }

  /** An unterminated last line never reaches the response. */
  lemma TailIgnored(reasoningKey: string, loads: Loads, text: string, tail: string)
    requires Tail(text) == "" && '\n' !in tail
    ensures Respond(reasoningKey, loads, text + tail) == Respond(reasoningKey, loads, text)
  {
    assert "" + tail == tail;
    FindPresent(tail, '\n');
    ReadTextConcat(reasoningKey, loads, text, tail);
  }

  // ----- What the accumulated values mean -----

  /** The decoded events of the lines, in order. */
  function Events(loads: Loads, lines: seq<string>): seq<Json> {
    if lines == [] then []
    else
      var line := Strip(lines[0]);
      (if IsData(line) && loads(line[|PREFIX|..]).Value? then [loads(line[|PREFIX|..]).json] else [])
      + Events(loads, lines[1..])
  }

  /** A delta can be searched for `key`: a dictionary, or a list or string that does not contain it. */
  predicate Searchable(delta: Json, key: string) {
    match delta
    case Obj(_) => true
    case Arr(items) => Str(key) !in items
    case Str(s) => forall i :: 0 <= i <= |s| - |key| ==> !(key <= s[i..])
    case _ => false
  }

  /** The first choice of an event, when there is one. */
  function Choice(event: Json): Option<Json> {
    if event.Obj? && "choices" in event.fields && event.fields["choices"].Arr? && event.fields["choices"].items != []
    then Some(event.fields["choices"].items[0])
    else None
  }

  function Delta(event: Json): Json {
    match Choice(event)
    case Some(choice) => if choice.Obj? && "delta" in choice.fields then choice.fields["delta"] else Obj(map[])
    case None => Obj(map[])
  }

  /** The events that raise no exception. */
  predicate Readable(reasoningKey: string, event: Json) {
    && event.Obj?
    && ("choices" in event.fields && event.fields["choices"].Truthy() ==>
          && Choice(event).Some? && Choice(event).value.Obj?
          && Searchable(Delta(event), "content") && Searchable(Delta(event), reasoningKey))
  }

  /** The truthy value of `key` in a delta, as a list of at most one part. */
  function Parts(delta: Json, key: string): seq<Json> {
    if delta.Obj? && key in delta.fields && delta.fields[key].Truthy() then [delta.fields[key]] else []
  }

  function AllParts(events: seq<Json>, key: string): seq<Json> {
    if events == [] then [] else Parts(Delta(events[0]), key) + AllParts(events[1..], key)
  }

  function FinishOf(event: Json): Option<Json> {
    match Choice(event)
    case Some(choice) =>
      if choice.Obj? && "finish_reason" in choice.fields && choice.fields["finish_reason"].Truthy()
      then Some(choice.fields["finish_reason"]) else None
    case None => None
  }

  function UsageOf(event: Json): Option<Json> {
    if event.Obj? && "usage" in event.fields then Some(event.fields["usage"]) else None
  }

  /** The last value that `get` finds in the events, or `default`. */
  function Last(events: seq<Json>, get: Json -> Option<Json>, default: Json): Json
    decreases |events|
  {
    if events == [] then default
    else Last(events[1..], get, if get(events[0]).Some? then get(events[0]).value else default)
  }

  predicate Loadable(loads: Loads, lines: seq<string>) {
    forall line <- lines :: IsData(Strip(line)) ==> !loads(Strip(line)[|PREFIX|..]).OtherError?
  }

  lemma PartMeaning(delta: Json, key: string)
    ensures Part(delta, key).Ok? <==> Searchable(delta, key)
    ensures Part(delta, key).Ok? ==> Part(delta, key).value == Parts(delta, key)
  {
  }

  lemma ReadEventMeaning(reasoningKey: string, acc: Acc, event: Json)
    ensures ReadEvent(reasoningKey, acc, event).Ok? <==> Readable(reasoningKey, event)
    ensures Readable(reasoningKey, event) ==>
      ReadEvent(reasoningKey, acc, event)
      == Ok(Acc(acc.content + Parts(Delta(event), "content"),
                acc.reasoning + Parts(Delta(event), reasoningKey),
                if UsageOf(event).Some? then UsageOf(event).value else acc.usage,
                if FinishOf(event).Some? then FinishOf(event).value else acc.finish))
  {
    PartMeaning(Delta(event), "content");
    PartMeaning(Delta(event), reasoningKey);
    assert acc.content + [] == acc.content && acc.reasoning + [] == acc.reasoning;
  }

  /** The accumulated values after a list of events. */
  function Accumulated(reasoningKey: string, acc: Acc, events: seq<Json>): Acc {
    Acc(acc.content + AllParts(events, "content"),
        acc.reasoning + AllParts(events, reasoningKey),
        Last(events, UsageOf, acc.usage),
        Last(events, FinishOf, acc.finish))
  }

  lemma PartsStep(parts: seq<Json>, event: Json, rest: seq<Json>, key: string)
    ensures parts + AllParts([event] + rest, key) == parts + Parts(Delta(event), key) + AllParts(rest, key)
  {
    assert ([event] + rest)[1..] == rest;
    assert parts + (Parts(Delta(event), key) + AllParts(rest, key))
        == parts + Parts(Delta(event), key) + AllParts(rest, key);
  }

  lemma AccumulatedStep(reasoningKey: string, acc: Acc, event: Json, rest: seq<Json>)
    requires Readable(reasoningKey, event)
    ensures Accumulated(reasoningKey, acc, [event] + rest)
         == Accumulated(reasoningKey, ReadEvent(reasoningKey, acc, event).value, rest)
  {
    ReadEventMeaning(reasoningKey, acc, event);
    PartsStep(acc.content, event, rest, "content");
    PartsStep(acc.reasoning, event, rest, reasoningKey);
    assert ([event] + rest)[1..] == rest;
  }

  predicate AllReadable(reasoningKey: string, events: seq<Json>) {
    forall event <- events :: Readable(reasoningKey, event)
  }

  /** The reader succeeds exactly when every decoded event is readable, and then it holds all content and
      reasoning parts in order, the last usage and the last finish reason. */
  lemma {:induction false} ReadLinesMeaning(reasoningKey: string, loads: Loads, acc: Acc, lines: seq<string>)
    ensures ReadLines(reasoningKey, loads, acc, lines)
         == if Loadable(loads, lines) && AllReadable(reasoningKey, Events(loads, lines))
            then Ok(Accumulated(reasoningKey, acc, Events(loads, lines))) else Raise
    decreases |lines|
  {
    if lines == [] {
      assert acc.content + [] == acc.content && acc.reasoning + [] == acc.reasoning;
    } else {
      assert lines == [lines[0]] + lines[1..];
      var line := Strip(lines[0]);
      var next := ReadLine(reasoningKey, loads, acc, line);
      if next.Ok? {
        ReadLinesMeaning(reasoningKey, loads, next.value, lines[1..]);
      }
      if IsData(line) && loads(line[|PREFIX|..]).Value? {
        FirstEvent(reasoningKey, acc, loads(line[|PREFIX|..]).json, Events(loads, lines[1..]));
      } else {
        assert [] + Events(loads, lines[1..]) == Events(loads, lines[1..]);
      }
    }
  }

  lemma FirstEvent(reasoningKey: string, acc: Acc, event: Json, rest: seq<Json>)
    ensures AllReadable(reasoningKey, [event] + rest)
       <==> ReadEvent(reasoningKey, acc, event).Ok? && AllReadable(reasoningKey, rest)
    ensures ReadEvent(reasoningKey, acc, event).Ok? ==>
      Accumulated(reasoningKey, acc, [event] + rest)
      == Accumulated(reasoningKey, ReadEvent(reasoningKey, acc, event).value, rest)
  {
    ReadEventMeaning(reasoningKey, acc, event);
    if Readable(reasoningKey, event) {
      AccumulatedStep(reasoningKey, acc, event, rest);
    }
  }

  predicate AllStrings(parts: seq<Json>) {
    forall part <- parts :: part.Str?
  }

  function Texts(parts: seq<Json>): seq<string>
    requires AllStrings(parts)
  {
    seq(|parts|, i requires 0 <= i < |parts| => parts[i].text)
  }

  lemma {:induction false} JoinMeaning(parts: seq<Json>)
    ensures Join(parts).Ok? <==> AllStrings(parts)
    ensures AllStrings(parts) ==> Join(parts).value == Flatten(Texts(parts))
  {
    if parts != [] {
      assert parts == [parts[0]] + parts[1..];
      JoinMeaning(parts[1..]);
      if AllStrings(parts) {
        assert Texts(parts)[1..] == Texts(parts[1..]);
      }
    }
  }

  /** The last truthy finish reason, if any, does not depend on the default. */
  lemma {:induction false} LastFinish(events: seq<Json>, default: Json)
    ensures Last(events, FinishOf, default) == default || Last(events, FinishOf, default).Truthy()
    ensures Last(events, FinishOf, Null) == Null ==> Last(events, FinishOf, default) == default
    ensures Last(events, FinishOf, Null) != Null ==> Last(events, FinishOf, default) == Last(events, FinishOf, Null)
    decreases |events|
  {
    if events != [] {
      LastFinish(events[1..], default);
      LastFinish(events[1..], if FinishOf(events[0]).Some? then FinishOf(events[0]).value else Null);
    }
  }

  /** End to end: there is a response exactly when every line loads, every event is readable and every part is a string;
      it holds all content and all reasoning in order, the last finish reason or "stop", and the last usage. */
  lemma RespondMeaning(reasoningKey: string, loads: Loads, text: string)
    ensures var events := Events(loads, Lines(text));
      var content, reasoning := AllParts(events, "content"), AllParts(events, reasoningKey);
      Respond(reasoningKey, loads, text)
      == if && Loadable(loads, Lines(text)) && AllReadable(reasoningKey, events)
            && AllStrings(content) && AllStrings(reasoning)
         then Ok(Response(Flatten(Texts(content)),
                          if reasoning == [] then None else Some(Flatten(Texts(reasoning))),
                          Last(events, FinishOf, Str("stop")),
                          Last(events, UsageOf, Obj(map[]))))
         else Raise
  {
    var events := Events(loads, Lines(text));
    var content, reasoning := AllParts(events, "content"), AllParts(events, reasoningKey);
    ReadLinesMeaning(reasoningKey, loads, START, Lines(text));
    assert [] + content == content && [] + reasoning == reasoning;
    JoinMeaning(content);
    JoinMeaning(reasoning);
    LastFinish(events, Null);
    LastFinish(events, Str("stop"));
  }

  // ----- An ordinary stream, in plain terms -----

  /** One line of a stream, the event it carries if any, and the texts in that event. */
  datatype Piece = Piece(line: string, event: Option<Json>, content: string, reasoning: string, finish: string)

  /** A string carries itself; nothing, false, zero and what is empty carry no text. */
  predicate HasText(value: Json, text: string) {
    match value
    case Str(s) => text == s
    case Null => text == ""
    case Bool(b) => !b && text == ""
    case Number(x) => x == 0.0 && text == ""
    case Arr(items) => |items| == 0 && text == ""
    case Obj(fields) => |fields| == 0 && text == ""
  }

  predicate FieldHasText(parent: Json, key: string, text: string) {
    parent.Obj? && if key in parent.fields then HasText(parent.fields[key], text) else text == ""
  }

  /** The event has the texts of the piece in its first choice, or no choices and no texts. */
  predicate Ordinary(reasoningKey: string, p: Piece, event: Json) {
    && event.Obj?
    && var choices := if "choices" in event.fields then event.fields["choices"] else Null;
       if choices.Arr? && |choices.items| > 0 then
         var choice := choices.items[0];
         && FieldHasText(choice, "finish_reason", p.finish)
         && var delta := if "delta" in choice.fields then choice.fields["delta"] else Obj(map[]);
            FieldHasText(delta, "content", p.content) && FieldHasText(delta, reasoningKey, p.reasoning)
       else HasText(choices, "") && p.content == p.reasoning == p.finish == ""
  }

  /** The line is a data line with the event, or a line without one: empty, a comment, `[DONE]`, or undecodable data. */
  predicate Framed(reasoningKey: string, loads: Loads, p: Piece) {
    && '\n' !in p.line
    && match p.event
       case Some(event) => Payload(p.line) && loads(p.line[6..]) == Value(event) && Ordinary(reasoningKey, p, event)
       case None =>
         && p.content == p.reasoning == p.finish == ""
         && (p.line == "" || p.line[0] == ':' || p.line == "data: [DONE]"
             || (Payload(p.line) && loads(p.line[6..]) == DecodeError))
  }

  /** `data: ` and a JSON object. */
  predicate Payload(line: string) {
    |line| > 6 && line[..6] == "data: " && line[|line| - 1] == '}'
  }

  function StreamText(pieces: seq<Piece>): string {
    if pieces == [] then "" else pieces[0].line + "\n" + StreamText(pieces[1..])
  }

  function Contents(pieces: seq<Piece>): string {
    if pieces == [] then "" else pieces[0].content + Contents(pieces[1..])
  }

  function Reasonings(pieces: seq<Piece>): string {
    if pieces == [] then "" else pieces[0].reasoning + Reasonings(pieces[1..])
  }

  /** The last finish reason that is not empty. */
  function Finish(pieces: seq<Piece>, before: string): string
    decreases |pieces|
  {
    if pieces == [] then before else Finish(pieces[1..], if pieces[0].finish == "" then before else pieces[0].finish)
  }

  /** The last usage. */
  function Usage(pieces: seq<Piece>, before: Json): Json
    decreases |pieces|
  {
    if pieces == [] then before
    else
      var event := pieces[0].event;
      Usage(pieces[1..],
            if event.Some? && event.value.Obj? && "usage" in event.value.fields then event.value.fields["usage"]
            else before)
  }

  function PieceLines(pieces: seq<Piece>): seq<string> {
    if pieces == [] then [] else [pieces[0].line] + PieceLines(pieces[1..])
  }

  lemma {:induction false} PiecesCut(pieces: seq<Piece>)
    requires forall p <- pieces :: '\n' !in p.line
    ensures StreamText(pieces) == Unlines(PieceLines(pieces)) && NewlineFree(PieceLines(pieces))
  {
    if pieces != [] {
      assert pieces == [pieces[0]] + pieces[1..];
      PiecesCut(pieces[1..]);
      UnlinesCons(pieces[0].line, PieceLines(pieces[1..]));
    }
  }

  function TextPart(text: string): seq<Json> {
    if text == "" then [] else [Str(text)]
  }

  /** What a piece adds to the accumulated values. */
  function Grown(acc: Acc, p: Piece): Acc {
    Acc(acc.content + TextPart(p.content), acc.reasoning + TextPart(p.reasoning),
        if p.event.Some? && UsageOf(p.event.value).Some? then UsageOf(p.event.value).value else acc.usage,
        if p.finish == "" then acc.finish else Str(p.finish))
  }

  lemma PartText(parent: Json, key: string, text: string)
    requires FieldHasText(parent, key, text)
    ensures Part(parent, key) == Ok(TextPart(text))
  {
    if key in parent.fields {
      TruthyText(parent.fields[key], text);
    }
  }

  lemma TruthyText(value: Json, text: string)
    requires HasText(value, text)
    ensures value.Truthy() <==> text != ""
    ensures text != "" ==> value == Str(text)
  {
  }

  lemma OrdinaryEvent(reasoningKey: string, acc: Acc, p: Piece, event: Json)
    requires Ordinary(reasoningKey, p, event) && p.event == Some(event)
    ensures ReadEvent(reasoningKey, acc, event) == Ok(Grown(acc, p))
  {
    var choices := if "choices" in event.fields then event.fields["choices"] else Null;
    if choices.Arr? && |choices.items| > 0 {
      var choice := choices.items[0];
      var delta := if "delta" in choice.fields then choice.fields["delta"] else Obj(map[]);
      PartText(delta, "content", p.content);
      PartText(delta, reasoningKey, p.reasoning);
      TruthyText(if "finish_reason" in choice.fields then choice.fields["finish_reason"] else Null, p.finish);
    } else {
      TruthyText(choices, "");
      assert acc.content + [] == acc.content && acc.reasoning + [] == acc.reasoning;
    }
  }

  lemma PayloadLine(line: string)
    requires Payload(line)
    ensures Strip(line) == line && IsData(line)
  {
    StripTrimmed(line);
    assert DONE[|DONE| - 1] == ']';
  }

  lemma OrdinaryLine(reasoningKey: string, loads: Loads, acc: Acc, p: Piece)
    requires Framed(reasoningKey, loads, p)
    ensures ReadLine(reasoningKey, loads, acc, Strip(p.line)) == Ok(Grown(acc, p))
  {
    if p.event.Some? {
      PayloadLine(p.line);
      OrdinaryEvent(reasoningKey, acc, p, p.event.value);
    } else {
      assert acc.content + [] == acc.content && acc.reasoning + [] == acc.reasoning;
      IdleText(reasoningKey, loads, acc, p.line);
    }
  }

  lemma IdleText(reasoningKey: string, loads: Loads, acc: Acc, line: string)
    requires || line == "" || line[0] == ':' || line == "data: [DONE]"
             || (Payload(line) && loads(line[6..]) == DecodeError)
    ensures ReadLine(reasoningKey, loads, acc, Strip(line)) == Ok(acc)
  {
    if line != "" && line[0] == ':' {
      TrimRightShape(line);
      assert Strip(line) <= line;
      assert PREFIX[0] != ':';
    } else if Payload(line) {
      PayloadLine(line);
    } else {
      StripTrimmed(line);
    }
  }

  function GrownAll(acc: Acc, pieces: seq<Piece>): Acc
    decreases |pieces|
  {
    if pieces == [] then acc else GrownAll(Grown(acc, pieces[0]), pieces[1..])
  }

  lemma {:induction false} OrdinaryLines(reasoningKey: string, loads: Loads, acc: Acc, pieces: seq<Piece>)
    requires forall p <- pieces :: Framed(reasoningKey, loads, p)
    ensures ReadLines(reasoningKey, loads, acc, PieceLines(pieces)) == Ok(GrownAll(acc, pieces))
    decreases |pieces|
  {
    if pieces != [] {
      assert pieces == [pieces[0]] + pieces[1..];
      OrdinaryLine(reasoningKey, loads, acc, pieces[0]);
      assert PieceLines(pieces)[1..] == PieceLines(pieces[1..]);
      OrdinaryLines(reasoningKey, loads, Grown(acc, pieces[0]), pieces[1..]);
    }
  }

  lemma JoinText(parts: seq<Json>, text: string)
    requires Join(parts).Ok?
    ensures Join(parts + TextPart(text)) == Ok(Join(parts).value + text)
  {
    JoinConcat(parts, TextPart(text));
    if text != "" {
      assert [Str(text)][1..] == [];
      assert text + "" == text;
    } else {
      assert Join(parts).value + "" == Join(parts).value;
    }
  }

  /** The joined parts, the last finish reason and the last usage after some more pieces. */
  lemma {:induction false} GrownMeaning(acc: Acc, pieces: seq<Piece>, finish: string)
    requires Join(acc.content).Ok?
    requires Join(acc.reasoning).Ok? && (acc.reasoning == [] <==> Join(acc.reasoning).value == "")
    requires finish != "" && Reported(acc.finish) == Str(finish)
    ensures var end := GrownAll(acc, pieces);
      && Join(end.content) == Ok(Join(acc.content).value + Contents(pieces))
      && Join(end.reasoning) == Ok(Join(acc.reasoning).value + Reasonings(pieces))
      && (end.reasoning == [] <==> Join(end.reasoning).value == "")
      && Reported(end.finish) == Str(Finish(pieces, finish))
      && end.usage == Usage(pieces, acc.usage)
    decreases |pieces|
  {
    if pieces == [] {
      assert Join(acc.content).value + "" == Join(acc.content).value;
      assert Join(acc.reasoning).value + "" == Join(acc.reasoning).value;
    } else {
      var p, next := pieces[0], Grown(acc, pieces[0]);
      JoinText(acc.content, p.content);
      JoinText(acc.reasoning, p.reasoning);
      GrownMeaning(next, pieces[1..], if p.finish == "" then finish else p.finish);
      AssociateText(Join(acc.content).value, p.content, Contents(pieces[1..]));
      AssociateText(Join(acc.reasoning).value, p.reasoning, Reasonings(pieces[1..]));
    }
  }

  lemma AssociateText(a: string, b: string, c: string)
    ensures (a + b) + c == a + (b + c)
  {
  }

  function OrdinaryResponse(pieces: seq<Piece>): Response {
    Response(Contents(pieces), if Reasonings(pieces) == "" then None else Some(Reasonings(pieces)),
             Str(Finish(pieces, "stop")), Usage(pieces, Obj(map[])))
  }

  lemma OrdinaryAccumulated(pieces: seq<Piece>)
    ensures Assemble(GrownAll(START, pieces)) == Ok(OrdinaryResponse(pieces))
  {
    GrownMeaning(START, pieces, "stop");
    assert "" + Contents(pieces) == Contents(pieces) && "" + Reasonings(pieces) == Reasonings(pieces);
  }

  /** A stream whose data lines carry events with texts, and an unterminated rest: the response is the concatenation of
      all contents and of all reasonings, the last finish reason that is not empty or "stop", and the last usage. */
  lemma OrdinaryStream(reasoningKey: string, loads: Loads, pieces: seq<Piece>, rest: string)
    requires '\n' !in rest && forall p <- pieces :: Framed(reasoningKey, loads, p)
    ensures Respond(reasoningKey, loads, StreamText(pieces) + rest)
         == Ok(Response(Contents(pieces), if Reasonings(pieces) == "" then None else Some(Reasonings(pieces)),
                        Str(Finish(pieces, "stop")), Usage(pieces, Obj(map[]))))
  {
    PiecesCut(pieces);
    CutUnique(StreamText(pieces) + rest, PieceLines(pieces), rest);
    OrdinaryLines(reasoningKey, loads, START, pieces);
    OrdinaryAccumulated(pieces);
  }

  /** A response never changes what an earlier part of the stream already delivered: it only extends it. */
  lemma ResponseGrows(reasoningKey: string, loads: Loads, a: string, b: string)
    requires Respond(reasoningKey, loads, a + b).Ok?
    ensures Respond(reasoningKey, loads, a).Ok?
    ensures Respond(reasoningKey, loads, a).value.content <= Respond(reasoningKey, loads, a + b).value.content
    ensures Respond(reasoningKey, loads, a).value.reasoning.Some? ==>
      && Respond(reasoningKey, loads, a + b).value.reasoning.Some?
      && Respond(reasoningKey, loads, a).value.reasoning.value
         <= Respond(reasoningKey, loads, a + b).value.reasoning.value
  {
    ReadTextConcat(reasoningKey, loads, a, b);
    var acc := ReadText(reasoningKey, loads, a).value;
    var more := Lines(Tail(a) + b);
    ReadLinesMeaning(reasoningKey, loads, acc, more);
    JoinConcat(acc.content, AllParts(Events(loads, more), "content"));
    JoinConcat(acc.reasoning, AllParts(Events(loads, more), reasoningKey));
  }

  /** Lines ended by a carriage return and a newline read like lines ended by a newline. */
  lemma {:induction false} CarriageReturnsIgnored(
    reasoningKey: string, loads: Loads, acc: Acc, lines: seq<string>, crlf: seq<string>)
    requires |crlf| == |lines| && forall i :: 0 <= i < |lines| ==> crlf[i] == lines[i] + ['\r']
    ensures ReadLines(reasoningKey, loads, acc, crlf) == ReadLines(reasoningKey, loads, acc, lines)
    decreases |lines|
  {
    if lines != [] {
      StripAppend(lines[0], '\r');
      var next := ReadLine(reasoningKey, loads, acc, Strip(lines[0]));
      if next.Ok? {
        CarriageReturnsIgnored(reasoningKey, loads, next.value, lines[1..], crlf[1..]);
      }
    }
  }

  // ----- The second consumer -----

  /** The client loop: blank lines are skipped, lines are not stripped, `[DONE]` ends the loop. */
  function ReadUntilDone(loads: Loads, acc: Acc, lines: seq<string>): Try<Acc>
    decreases |lines|
  {
    if lines == [] then Ok(acc)
    else if Strip(lines[0]) == "" then ReadUntilDone(loads, acc, lines[1..])
    else if lines[0] == DONE then Ok(acc)
    else
      var acc' :- ReadLine("reasoning", loads, acc, lines[0]);
      ReadUntilDone(loads, acc', lines[1..])
  }

  /** The client reads token counts from the usage, which must then be a dictionary; the buffer reader passes it on. */
  function ClientRespond(loads: Loads, lines: seq<string>): Try<Response> {
    var acc :- ReadUntilDone(loads, START, lines);
    var response :- Assemble(acc);
    var tokens :- acc.usage.Get("prompt_tokens", Number(0.0));
    Ok(response)
  }

  method CompleteStreaming(lines: seq<string>, loads: Loads) returns (response: Try<Response>)
    ensures response == ClientRespond(loads, lines)
  {
    var acc := START;
    for i := 0 to |lines|
      invariant ReadUntilDone(loads, START, lines) == ReadUntilDone(loads, acc, lines[i..])
    {
      var line := lines[i];
      if Strip(line) == "" {
        continue;
      }
      if PREFIX <= line {
        if line == DONE {
          break;
        }
        var read := ReadLine("reasoning", loads, acc, line);
        if read.Raise? {
          return Raise;
        }
        acc := read.value;
      }
    }
    var built := Assemble(acc);
    response := if acc.usage.Obj? then built else Raise;
  }

  /** The lines after the first `[DONE]`. */
  function AfterDone(lines: seq<string>): seq<string> {
    if lines == [] then []
    else if lines[0] == DONE then lines[1..]
    else AfterDone(lines[1..])
  }

  predicate AllTrimmed(lines: seq<string>) {
    forall line <- lines :: Trimmed(line)
  }

  /** On lines without surrounding whitespace the buffer reader is the client followed by what comes after `[DONE]`. */
  lemma {:induction false} ConsumersRelate(loads: Loads, acc: Acc, lines: seq<string>)
    requires AllTrimmed(lines)
    ensures ReadLines("reasoning", loads, acc, lines)
         == var mid :- ReadUntilDone(loads, acc, lines); ReadLines("reasoning", loads, mid, AfterDone(lines))
    decreases |lines|
  {
    if lines != [] {
      var line := lines[0];
      StripTrimmed(line);
      assert AllTrimmed(lines[1..]);
      var next := ReadLine("reasoning", loads, acc, line);
      if line != DONE && next.Ok? {
        ConsumersRelate(loads, next.value, lines[1..]);
      }
    }
  }

  /** The lines before the first `[DONE]`. */
  function BeforeDone(lines: seq<string>): seq<string> {
    if lines == [] || lines[0] == DONE then [] else [lines[0]] + BeforeDone(lines[1..])
  }

  /** Every line loads and every event is readable. */
  predicate Sound(loads: Loads, lines: seq<string>) {
    Loadable(loads, lines) && AllReadable("reasoning", Events(loads, lines))
  }

  /** `more` can be read after `lines`, adds no part, and leaves the last usage and finish reason as they are. */
  predicate AddsNothing(loads: Loads, lines: seq<string>, more: seq<string>, finish: Json) {
    && Sound(loads, more)
    && AllParts(Events(loads, more), "content") == [] && AllParts(Events(loads, more), "reasoning") == []
    && SameLast(Events(loads, lines), Events(loads, more), UsageOf, START.usage)
    && SameLast(Events(loads, lines), Events(loads, more), FinishOf, finish)
  }

  predicate SameLast(events: seq<Json>, more: seq<Json>, get: Json -> Option<Json>, default: Json) {
    Last(more, get, Last(events, get, default)) == Last(events, get, default)
  }

  /** Reading more lines changes nothing exactly when reading fails before them or they add nothing. */
  lemma MoreLines(loads: Loads, lines: seq<string>, more: seq<string>)
    ensures ReadLines("reasoning", loads, START, lines + more) == ReadLines("reasoning", loads, START, lines)
       <==> !Sound(loads, lines) || AddsNothing(loads, lines, more, START.finish)
  {
    ReadLinesConcat("reasoning", loads, START, lines, more);
    ReadLinesMeaning("reasoning", loads, START, lines);
    if Sound(loads, lines) {
      var mid := Accumulated("reasoning", START, Events(loads, lines));
      ReadLinesMeaning("reasoning", loads, mid, more);
      AppendNothing(mid.content, AllParts(Events(loads, more), "content"));
      AppendNothing(mid.reasoning, AllParts(Events(loads, more), "reasoning"));
    }
  }

  lemma AppendNothing<T>(a: seq<T>, b: seq<T>)
    ensures a + b == a <==> b == []
  {
    assert |a + b| == |a| + |b|;
  }

  /** On trimmed lines the client reads as the buffer reader does, up to the first `[DONE]`. */
  lemma {:induction false} ClientReads(loads: Loads, acc: Acc, lines: seq<string>)
    requires AllTrimmed(lines)
    ensures ReadUntilDone(loads, acc, lines) == ReadLines("reasoning", loads, acc, BeforeDone(lines))
    decreases |lines|
  {
    if lines != [] && lines[0] != DONE {
      StripTrimmed(lines[0]);
      assert AllTrimmed(lines[1..]);
      assert ([lines[0]] + BeforeDone(lines[1..]))[1..] == BeforeDone(lines[1..]);
      var next := ReadLine("reasoning", loads, acc, lines[0]);
      if next.Ok? {
        ClientReads(loads, next.value, lines[1..]);
      }
    }
  }

  lemma {:induction false} DoneSplits(lines: seq<string>)
    requires DONE in lines
    ensures lines == BeforeDone(lines) + ([DONE] + AfterDone(lines))
  {
    assert lines == [lines[0]] + lines[1..];
    if lines[0] != DONE {
      DoneSplits(lines[1..]);
    }
  }

  lemma BeforeDoneCons(line: string, rest: seq<string>)
    ensures BeforeDone([line] + rest) == if line == DONE then [] else [line] + BeforeDone(rest)
  {
    assert ([line] + rest)[1..] == rest;
  }

  lemma {:induction false} DoneStops(a: seq<string>, b: seq<string>)
    requires DONE in a
    ensures BeforeDone(a + b) == BeforeDone(a)
  {
    var rest := a[1..];
    assert a == [a[0]] + rest;
    assert a + b == [a[0]] + (rest + b);
    BeforeDoneCons(a[0], rest);
    BeforeDoneCons(a[0], rest + b);
    if a[0] != DONE {
      DoneStops(rest, b);
    }
  }

  lemma {:induction false} WithoutDone(a: seq<string>, b: seq<string>)
    requires forall line <- a :: line != DONE
    ensures BeforeDone(a + b) == a + BeforeDone(b)
  {
    if a == [] {
      assert a + b == b && a + BeforeDone(b) == BeforeDone(b);
    } else {
      var rest := a[1..];
      assert a + b == [a[0]] + (rest + b) && a + BeforeDone(b) == [a[0]] + (rest + BeforeDone(b));
      assert a[0] in a && forall line <- rest :: line in a;
      BeforeDoneCons(a[0], rest + b);
      WithoutDone(rest, b);
    }
  }

  lemma IdleLine(loads: Loads, acc: Acc, line: string, rest: seq<string>)
    requires Trimmed(line) && !IsData(line)
    ensures ReadLines("reasoning", loads, acc, [line] + rest) == ReadLines("reasoning", loads, acc, rest)
  {
    StripTrimmed(line);
    assert ([line] + rest)[1..] == rest;
  }

  /** Leaving out a line without data changes nothing. */
  lemma SkipLine(loads: Loads, before: seq<string>, line: string, after: seq<string>)
    requires Trimmed(line) && !IsData(line)
    ensures ReadLines("reasoning", loads, START, before + ([line] + after))
         == ReadLines("reasoning", loads, START, before + after)
  {
    ReadLinesConcat("reasoning", loads, START, before, [line] + after);
    ReadLinesConcat("reasoning", loads, START, before, after);
    var mid := ReadLines("reasoning", loads, START, before);
    if mid.Ok? {
      IdleLine(loads, mid.value, line, after);
    }
  }

  /** What the client sees of a text when its line splitter cuts at newlines only: the unterminated line as well. */
  function ClientLines(text: string): seq<string> {
    Lines(text) + if Tail(text) == "" then [] else [Tail(text)]
  }

  /** What both consumers read. */
  function Shared(text: string): seq<string> {
    BeforeDone(Lines(text))
  }

  /** What only one of them reads: the buffer reader the lines after `[DONE]`, or else the client the unterminated
      line. */
  function Unshared(text: string): seq<string> {
    if DONE in Lines(text) then AfterDone(Lines(text)) else [Tail(text)]
  }

  /** One consumer reads the shared lines, the other the unshared ones after them. */
  lemma Readings(loads: Loads, text: string)
    requires AllTrimmed(ClientLines(text))
    ensures var fewer, more := ReadLines("reasoning", loads, START, Shared(text)),
                               ReadLines("reasoning", loads, START, Shared(text) + Unshared(text));
      && ReadText("reasoning", loads, text) == (if DONE in Lines(text) then more else fewer)
      && ReadUntilDone(loads, START, ClientLines(text)) == (if DONE in Lines(text) then fewer else more)
  {
    var lines, tail := Lines(text), Tail(text);
    ClientReads(loads, START, ClientLines(text));
    if DONE in lines {
      DoneStops(lines, if tail == "" then [] else [tail]);
      DoneSplits(lines);
      SkipLine(loads, Shared(text), DONE, AfterDone(lines));
    } else {
      WithoutDone(lines, []);
      assert lines + [] == lines;
      WithoutDone(lines, if tail == "" then [] else [tail]);
      LastLine(loads, lines, tail);
    }
  }

  lemma LastLine(loads: Loads, lines: seq<string>, tail: string)
    requires Trimmed(tail)
    ensures ReadLines("reasoning", loads, START, lines + BeforeDone(if tail == "" then [] else [tail]))
         == ReadLines("reasoning", loads, START, lines + [tail])
  {
    assert lines + [] == lines && [tail] + [] == [tail];
    if tail == "" || tail == DONE {
      SkipLine(loads, lines, tail, []);
    } else {
      BeforeDoneCons(tail, []);
    }
  }

  /** On trimmed lines the two consumers accumulate the same exactly when what both read already fails, or when what
      only one of them reads adds nothing. */
  lemma ConsumersAgree(loads: Loads, text: string)
    requires AllTrimmed(ClientLines(text))
    ensures ReadText("reasoning", loads, text) == ReadUntilDone(loads, START, ClientLines(text))
       <==> !Sound(loads, Shared(text)) || AddsNothing(loads, Shared(text), Unshared(text), START.finish)
  {
    Readings(loads, text);
    MoreLines(loads, Shared(text), Unshared(text));
  }

  /** In particular on every newline-terminated stream without data after `[DONE]`. */
  lemma NoDataAddsNothing(loads: Loads, text: string)
    requires AllTrimmed(Lines(text)) && Tail(text) == "" && (forall line <- AfterDone(Lines(text)) :: !IsData(line))
    ensures ReadText("reasoning", loads, text) == ReadUntilDone(loads, START, ClientLines(text))
  {
    var more := Unshared(text);
    AfterDoneSuffix(Lines(text));
    assert ClientLines(text) == Lines(text);
    IdleLines(loads, more);
    ConsumersAgree(loads, text);
  }

  lemma {:induction false} IdleLines(loads: Loads, lines: seq<string>)
    requires AllTrimmed(lines) && forall line <- lines :: !IsData(line)
    ensures Events(loads, lines) == [] && Loadable(loads, lines)
  {
    if lines != [] {
      StripTrimmed(lines[0]);
      assert lines == [lines[0]] + lines[1..];
      IdleLines(loads, lines[1..]);
    }
  }

  lemma {:induction false} AfterDoneSuffix(lines: seq<string>)
    ensures |AfterDone(lines)| <= |lines| && AfterDone(lines) == lines[|lines| - |AfterDone(lines)|..]
  {
    if lines != [] && lines[0] != DONE {
      AfterDoneSuffix(lines[1..]);
    }
  }

  const NULL_USAGE := "{\"usage\": null}"

  lemma DataLine(payload: string)
    requires payload != "" && payload[0] != '[' && !IsSpace(payload[|payload| - 1]) && '\n' !in payload
    ensures var line := PREFIX + payload; '\n' !in line && Trimmed(line) && IsData(line) && line[|PREFIX|..] == payload
  {
    var line := PREFIX + payload;
    assert line[|PREFIX|] == payload[0] && line[|line| - 1] == payload[|payload| - 1];
    assert DONE[|PREFIX|] == '[';
  }

  lemma OneLine(loads: Loads, line: string)
    ensures ReadLines("reasoning", loads, START, [line]) == ReadLine("reasoning", loads, START, Strip(line))
  {
    assert [line][1..] == [];
  }

  /** Each condition is needed, data after `[DONE]`, an unterminated line, and a data line with a leading space. */
  lemma ConsumersDisagree(loads: Loads)
    requires loads(NULL_USAGE) == Value(Obj(map["usage" := Null]))
    ensures var line := PREFIX + NULL_USAGE;
      var changed := Ok(START.(usage := Null));
      && ReadText("reasoning", loads, DONE + "\n" + line + "\n") == changed
      && ReadUntilDone(loads, START, ClientLines(DONE + "\n" + line + "\n")) == Ok(START)
      && ReadText("reasoning", loads, line) == Ok(START)
      && ReadUntilDone(loads, START, ClientLines(line)) == changed
      && ReadText("reasoning", loads, " " + line + "\n") == changed
      && ReadUntilDone(loads, START, ClientLines(" " + line + "\n")) == Ok(START)
  {
    var line := PREFIX + NULL_USAGE;
    DataLine(NULL_USAGE);
    assert ReadLine("reasoning", loads, START, line) == Ok(START.(usage := Null));
    DataAfterDone(loads, line);
    UnterminatedLine(loads, line);
    LeadingSpace(loads, line);
  }

  lemma DataAfterDone(loads: Loads, line: string)
    requires '\n' !in line && Trimmed(line) && IsData(line)
    ensures ReadText("reasoning", loads, DONE + "\n" + line + "\n") == ReadLine("reasoning", loads, START, line)
    ensures ReadUntilDone(loads, START, ClientLines(DONE + "\n" + line + "\n")) == Ok(START)
  {
    TwoLines(DONE, line);
    StripTrimmed(line);
    StripTrimmed(DONE);
    OneLine(loads, line);
    IdleLine(loads, START, DONE, [line]);
    assert [DONE] + [line] == [DONE, line];
  }

  lemma UnterminatedLine(loads: Loads, line: string)
    requires line != "" && '\n' !in line && Trimmed(line) && IsData(line)
    ensures ReadText("reasoning", loads, line) == Ok(START)
    ensures ReadUntilDone(loads, START, ClientLines(line)) == ReadLine("reasoning", loads, START, line)
  {
    CutUnique(line, [], line);
    assert [] + [line] == [line];
    OneClientLine(loads, line);
  }

  lemma OneClientLine(loads: Loads, line: string)
    requires Trimmed(line) && IsData(line)
    ensures ReadUntilDone(loads, START, [line]) == ReadLine("reasoning", loads, START, line)
  {
    ClientReads(loads, START, [line]);
    StripTrimmed(line);
    OneLine(loads, line);
    BeforeDoneCons(line, []);
    assert [line] + [] == [line];
  }

  lemma TwoLines(a: string, b: string)
    requires '\n' !in a && '\n' !in b
    ensures Lines(a + "\n" + b + "\n") == [a, b] && Tail(a + "\n" + b + "\n") == ""
  {
    assert [a, b][1..] == [b] && [b][1..] == [];
    assert Unlines([b]) == b + "\n" + Unlines([]);
    assert Unlines([a, b]) == a + "\n" + Unlines([b]);
    CutUnique(a + "\n" + b + "\n", [a, b], "");
  }

  lemma LeadingSpace(loads: Loads, line: string)
    requires '\n' !in line && Trimmed(line) && IsData(line)
    ensures ReadText("reasoning", loads, " " + line + "\n") == ReadLine("reasoning", loads, START, line)
    ensures ReadUntilDone(loads, START, ClientLines(" " + line + "\n")) == Ok(START)
  {
    var spaced := " " + line;
    assert spaced[1..] == line;
    assert TrimLeft(spaced) == line;
    assert [spaced][1..] == [] && Unlines([spaced]) == spaced + "\n" + Unlines([]);
    CutUnique(spaced + "\n", [spaced], "");
    OneLine(loads, spaced);
    assert spaced[0] != PREFIX[0] && spaced[0] != DONE[0];
    assert ReadUntilDone(loads, START, [spaced]) == ReadUntilDone(loads, START, [spaced][1..]);
  }

  // ----- The two responses -----

  /** The lines read, and all parts are strings: the buffer reader has a response. */
  predicate Answers(loads: Loads, lines: seq<string>) {
    && Sound(loads, lines)
    && AllStrings(AllParts(Events(loads, lines), "content"))
    && AllStrings(AllParts(Events(loads, lines), "reasoning"))
  }

  /** The last usage is a dictionary, so that the client can take the token counts from it. */
  predicate CountsTokens(loads: Loads, lines: seq<string>) {
    Last(Events(loads, lines), UsageOf, START.usage).Obj?
  }

  function Answer(loads: Loads, lines: seq<string>): Try<Response> {
    var acc :- ReadLines("reasoning", loads, START, lines);
    Assemble(acc)
  }

  lemma AnswerMeaning(loads: Loads, lines: seq<string>)
    ensures Answer(loads, lines).Ok? <==> Answers(loads, lines)
    ensures Answers(loads, lines) ==>
      Answer(loads, lines).value.usage == Last(Events(loads, lines), UsageOf, START.usage)
  {
    var events := Events(loads, lines);
    ReadLinesMeaning("reasoning", loads, START, lines);
    assert [] + AllParts(events, "content") == AllParts(events, "content");
    assert [] + AllParts(events, "reasoning") == AllParts(events, "reasoning");
    JoinMeaning(AllParts(events, "content"));
    JoinMeaning(AllParts(events, "reasoning"));
  }

  lemma {:induction false} PartsTruthy(events: seq<Json>, key: string)
    ensures forall part <- AllParts(events, key) :: part.Truthy()
  {
    if events != [] {
      PartsTruthy(events[1..], key);
    }
  }

  /** Every part adds text. */
  lemma JoinMore(parts: seq<Json>, more: seq<Json>)
    requires Join(parts).Ok? && forall part <- more :: part.Truthy()
    ensures Join(parts + more) == Join(parts) <==> more == []
  {
    JoinConcat(parts, more);
    if more == [] {
      assert parts + more == parts;
    } else if Join(parts + more).Ok? {
      assert more[0] in more && |Join(more).value| > 0;
      assert |Join(parts + more).value| == |Join(parts).value| + |Join(more).value|;
    }
  }

  /** The finish reason that is reported. */
  function Reported(finish: Json): Json {
    if finish.Truthy() then finish else Str("stop")
  }

  lemma ReportedFinish(events: seq<Json>, finish: Json)
    ensures Reported(Last(events, FinishOf, finish)) == Last(events, FinishOf, Reported(finish))
  {
    LastFinish(events, finish);
    LastFinish(events, Reported(finish));
  }

  /** More lines never help a reading that fails, and change a response unless they add nothing. */
  lemma AnswerMore(loads: Loads, lines: seq<string>, more: seq<string>)
    ensures Answers(loads, lines + more) ==> Answers(loads, lines)
    ensures Answers(loads, lines) ==>
      (Answer(loads, lines + more) == Answer(loads, lines) <==> AddsNothing(loads, lines, more, Str("stop")))
  {
    AnswerMeaning(loads, lines);
    AnswerMeaning(loads, lines + more);
    ReadLinesConcat("reasoning", loads, START, lines, more);
    ReadLinesMeaning("reasoning", loads, START, lines);
    if Sound(loads, lines) {
      var events := Events(loads, more);
      var mid := Accumulated("reasoning", START, Events(loads, lines));
      ReadLinesMeaning("reasoning", loads, mid, more);
      if Sound(loads, more) {
        AssembleMore(mid, Accumulated("reasoning", mid, events), events);
        ReportedFinish(Events(loads, lines), Null);
      }
    }
  }

  lemma AssembleMore(mid: Acc, end: Acc, events: seq<Json>)
    requires end == Accumulated("reasoning", mid, events)
    ensures Assemble(end).Ok? ==> Assemble(mid).Ok?
    ensures Assemble(mid).Ok? ==>
      (Assemble(end) == Assemble(mid)
       <==> && AllParts(events, "content") == [] && AllParts(events, "reasoning") == []
            && end.usage == mid.usage
            && Last(events, FinishOf, Reported(mid.finish)) == Reported(mid.finish))
  {
    var content, reasoning := AllParts(events, "content"), AllParts(events, "reasoning");
    PartsTruthy(events, "content");
    PartsTruthy(events, "reasoning");
    JoinConcat(mid.content, content);
    JoinConcat(mid.reasoning, reasoning);
    ReportedFinish(events, mid.finish);
    if Assemble(mid).Ok? {
      JoinMore(mid.content, content);
      JoinMore(mid.reasoning, reasoning);
      AppendNothing(mid.content, content);
      AppendNothing(mid.reasoning, reasoning);
    }
  }

  lemma ClientAnswer(loads: Loads, lines: seq<string>, read: seq<string>)
    requires ReadUntilDone(loads, START, lines) == ReadLines("reasoning", loads, START, read)
    ensures ClientRespond(loads, lines)
         == if Answers(loads, read) && CountsTokens(loads, read) then Answer(loads, read) else Raise
  {
    AnswerMeaning(loads, read);
  }

  lemma SameTokens(loads: Loads, lines: seq<string>, more: seq<string>)
    requires Answers(loads, lines) && Answer(loads, lines + more) == Answer(loads, lines)
    ensures Answers(loads, lines + more)
    ensures CountsTokens(loads, lines + more) == CountsTokens(loads, lines)
  {
    AnswerMeaning(loads, lines);
    AnswerMeaning(loads, lines + more);
  }

  /** On trimmed lines the responses are the same exactly when what both read has no response, or its last usage is a
      dictionary and the rest adds nothing, or that usage is no dictionary and the buffer reader fails later. */
  lemma ResponsesAgree(loads: Loads, text: string)
    requires AllTrimmed(ClientLines(text))
    ensures ClientRespond(loads, ClientLines(text)) == Respond("reasoning", loads, text)
       <==> || !Answers(loads, Shared(text))
            || (if CountsTokens(loads, Shared(text)) then AddsNothing(loads, Shared(text), Unshared(text), Str("stop"))
                else DONE in Lines(text) && !Answers(loads, Shared(text) + Unshared(text)))
  {
    var fewer, more := Shared(text), Shared(text) + Unshared(text);
    Readings(loads, text);
    AnswerMore(loads, fewer, Unshared(text));
    AnswerMeaning(loads, fewer);
    AnswerMeaning(loads, more);
    ClientAnswer(loads, ClientLines(text), if DONE in Lines(text) then fewer else more);
    if Answers(loads, fewer) && Answer(loads, more) == Answer(loads, fewer) {
      SameTokens(loads, fewer, Unshared(text));
    }
  }

  /** The client answers such a stream alike, up to its `[DONE]`, when the last usage is a dictionary. */
  lemma OrdinaryClient(loads: Loads, pieces: seq<Piece>, rest: seq<string>)
    requires forall p <- pieces :: Framed("reasoning", loads, p) && Trimmed(p.line) && p.line != "data: [DONE]"
    requires Usage(pieces, Obj(map[])).Obj?
    ensures ClientRespond(loads, PieceLines(pieces) + (["data: [DONE]"] + rest))
         == Ok(Response(Contents(pieces), if Reasonings(pieces) == "" then None else Some(Reasonings(pieces)),
                        Str(Finish(pieces, "stop")), Usage(pieces, Obj(map[]))))
  {
    UntilDone(loads, START, pieces, rest);
    OrdinaryAccumulated(pieces);
    GrownMeaning(START, pieces, "stop");
  }

  lemma {:induction false} UntilDone(loads: Loads, acc: Acc, pieces: seq<Piece>, rest: seq<string>)
    requires forall p <- pieces :: Framed("reasoning", loads, p) && Trimmed(p.line) && p.line != "data: [DONE]"
    ensures ReadUntilDone(loads, acc, PieceLines(pieces) + (["data: [DONE]"] + rest)) == Ok(GrownAll(acc, pieces))
    decreases |pieces|
  {
    if pieces == [] {
      assert PieceLines(pieces) + (["data: [DONE]"] + rest) == ["data: [DONE]"] + rest;
      StripTrimmed(DONE);
    } else {
      var more := PieceLines(pieces[1..]) + (["data: [DONE]"] + rest);
      assert pieces == [pieces[0]] + pieces[1..];
      assert PieceLines(pieces) + (["data: [DONE]"] + rest) == [pieces[0].line] + more;
      assert ([pieces[0].line] + more)[1..] == more;
      StripTrimmed(pieces[0].line);
      OrdinaryLine("reasoning", loads, acc, pieces[0]);
      UntilDone(loads, Grown(acc, pieces[0]), pieces[1..], rest);
    }
  }
}
