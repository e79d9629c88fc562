/**
 * The tail of the worker's `Chat`: the upstream reply is a newline-separated
 * pseudo-event stream; every line that contains "message" must carry a
 * `data: <json>` payload whose `message` is extracted, the fragments are
 * concatenated in line order, and the result is either the raw text (when the
 * concatenation is empty) or a chat-completion envelope.
 *
 * `JSON.parse(segment).message` is not modelled: it is the parameter
 * `extract`, which either yields the text that `join('')` appends for that
 * line or fails with the reason the parser throws.
 */
module Chat {
  import opened Wrappers
  import opened Strings

  const LineBreak := '\n'
  const MessageMarker := "message"
  const DataPrefix := "data: "
  const IdPrefix := "chatcmpl-"

  type Extractor = string -> Result<string, string>

  /** Why reassembly aborted: no segment after "data: ", or a segment the parser rejects. */
  datatype Failure =
    | MissingSegment(line: string)
    | Unparseable(segment: string, reason: string)

  datatype ChatMessage = ChatMessage(role: string, content: string)
  datatype Choice = Choice(index: nat, message: ChatMessage, finishReason: string)
  datatype Usage = Usage(promptTokens: nat, completionTokens: nat, totalTokens: nat)
  datatype Completion = Completion(
    id: string,
    objectKind: string,
    created: nat,
    model: string,
    choices: seq<Choice>,
    usage: Usage)

  /** What `Chat` resolves to: the upstream text itself, or a completion envelope. */
  datatype Reply = RawText(text: string) | Envelope(completion: Completion)

  /** Sequences two steps that may fail: the first failure wins, otherwise the results are concatenated. */
  function Concat<X>(first: Result<seq<X>, Failure>, second: Result<seq<X>, Failure>): Result<seq<X>, Failure> {
    match first
    case Failure(f) => Failure(f)
    case Success(x) =>
      match second
      case Failure(g) => Failure(g)
      case Success(y) => Success(x + y)
  }

  // ---------------------------------------------------------------------------
  // The split / filter / map / join chain

  /** `text.split('\n')`: newline-free lines that, joined with newlines, give the text back. */
  function Lines(text: string): (lines: seq<string>)
    ensures |lines| >= 1
    ensures Join(lines, [LineBreak]) == text
    ensures forall i :: 0 <= i < |lines| ==> LineBreak !in lines[i]
  {
    JoinSplit(text, [LineBreak]);
    SplitPiecesLackSeparator(text, LineBreak);
    Split(text, [LineBreak])
  }

  /** `lines.filter(line => line.includes('message'))`. */
  function MessageLines(lines: seq<string>): (kept: seq<string>)
    ensures forall i :: 0 <= i < |kept| ==> Contains(kept[i], MessageMarker)
    ensures forall line :: line in kept <==> line in lines && Contains(line, MessageMarker)
    ensures |kept| <= |lines|
    decreases |lines|
  {
    if |lines| == 0 then []
    else
      var rest := MessageLines(lines[1..]);
      assert forall line :: line in lines <==> line == lines[0] || line in lines[1..];
      if Contains(lines[0], MessageMarker) then [lines[0]] + rest else rest
  }

  /** `line.split('data: ')[1]`: the text between the first "data: " and the next one, if any. */
  function DataSegment(line: string): (segment: Option<string>)
    ensures segment.None? <==> !Contains(line, DataPrefix)
  {
    var parts := Split(line, DataPrefix);
    SplitHasSecondPiece(line, DataPrefix);
    if |parts| >= 2 then Some(parts[1]) else None
  }

  /** `JSON.parse(line.split('data: ')[1]).message` for one kept line. */
  function ExtractLine(line: string, extract: Extractor): (r: Result<string, Failure>)
    ensures r == Failure(MissingSegment(line)) <==> !Contains(line, DataPrefix)
    ensures r.Success? ==> DataSegment(line).Some? && extract(DataSegment(line).value) == Success(r.value)
    ensures r.Failure? && r.error.MissingSegment? ==> r.error.line == line
    ensures r.Failure? && r.error.Unparseable? ==>
      DataSegment(line) == Some(r.error.segment) && extract(r.error.segment) == Failure(r.error.reason)
  {
    match DataSegment(line)
    case None => Failure(MissingSegment(line))
    case Some(segment) =>
      match extract(segment)
      case Success(message) => Success(message)
      case Failure(reason) => Failure(Unparseable(segment, reason))
  }

  /** A line whose segment the parser accepts contributes exactly the parsed message. */
  lemma ExtractLineParsed(line: string, extract: Extractor, message: string)
    requires DataSegment(line).Some? && extract(DataSegment(line).value) == Success(message)
    ensures ExtractLine(line, extract) == Success(message)
  {
  }

  /** The `map` step: lines are processed in order and the first failure aborts the whole map. */
  function ExtractAll(lines: seq<string>, extract: Extractor): (r: Result<seq<string>, Failure>)
    ensures r.Success? ==> |r.value| == |lines|
    decreases |lines|
  {
    if |lines| == 0 then Success([])
    else
      match ExtractLine(lines[0], extract)
      case Failure(f) => Failure(f)
      case Success(message) => Concat(Success([message]), ExtractAll(lines[1..], extract))
  }

  /** The whole chain `split('\n').filter(..).map(..).join('')`. */
  function Reassemble(text: string, extract: Extractor): (r: Result<string, Failure>)
    ensures !Contains(text, MessageMarker) ==> r == Success("")
  {
    NothingKeptWithoutMarker(text);
    match ExtractAll(MessageLines(Lines(text)), extract)
    case Failure(f) => Failure(f)
    case Success(messages) => Success(Join(messages, ""))
  }

  /** The tail of `Chat`: raw text when nothing was assembled, otherwise the envelope. */
  function ChatReply(text: string, model: string, extract: Extractor, now: nat): (r: Result<Reply, Failure>)
    ensures r.Success? && r.value.RawText? ==> r.value.text == text
    ensures r.Success? && r.value.Envelope? ==>
      && r.value.completion.model == model
      && |r.value.completion.choices| == 1
      && r.value.completion.choices[0].message.content != ""
  {
    match Reassemble(text, extract)
    case Failure(f) => Failure(f)
    case Success(content) =>
      if content == "" then Success(RawText(text))
      else Success(Envelope(Completion(
        IdPrefix + Decimal(now),
        "chat.completion",
        now / 1000,
        model,
        [Choice(0, ChatMessage("assistant", content), "stop")],
        Usage(0, 0, 0))))
  }

  // ---------------------------------------------------------------------------
  // Segments

  /**
   * In general the segment runs from just after the first "data: " of the line
   * (at `i`) up to the next "data: " (at `k`), or to the end of the line when
   * there is none.
   */
  lemma DataSegmentBetween(line: string, i: nat, k: nat)
    requires OccursAt(line, DataPrefix, i)
    requires forall j :: 0 <= j < i ==> !OccursAt(line, DataPrefix, j)
    requires i + |DataPrefix| <= k <= |line|
    requires k == |line| || OccursAt(line, DataPrefix, k)
    requires forall j :: i + |DataPrefix| <= j < k ==> !OccursAt(line, DataPrefix, j)
    ensures DataSegment(line) == Some(line[i + |DataPrefix|..k])
  {
    var n := |DataPrefix|;
    var rest := line[i + n..];
    SplitAtFirst(line, DataPrefix, i);
    if k == |line| {
      forall j | 0 <= j <= |rest| - n ensures !OccursAt(rest, DataPrefix, j) {
        OccursShift(line, DataPrefix, i + n, j);
      }
      assert !Contains(rest, DataPrefix);
      SplitWithoutSeparator(rest, DataPrefix);
      assert Split(line, DataPrefix) == [line[..i]] + [rest];
      assert rest == line[i + n..k];
    } else {
      OccursShift(line, DataPrefix, i + n, k - i - n);
      forall j | 0 <= j < k - i - n ensures !OccursAt(rest, DataPrefix, j) {
        OccursShift(line, DataPrefix, i + n, j);
      }
      SplitAtFirst(rest, DataPrefix, k - i - n);
      assert rest[..k - i - n] == line[i + n..k];
    }
  }

  /** A line "data: " + payload yields the payload, when the payload has no further "data: ". */
  lemma DataSegmentOfPayload(payload: string)
    requires !Contains(payload, DataPrefix)
    ensures DataSegment(DataPrefix + payload) == Some(payload)
  {
    var line := DataPrefix + payload;
    assert line[..|DataPrefix|] == DataPrefix;
    assert line[|DataPrefix|..] == payload;
    SplitWithoutSeparator(payload, DataPrefix);
    assert Split(line, DataPrefix) == [""] + [payload];
  }

  // ---------------------------------------------------------------------------
  // The map step

  /** The map succeeds exactly when every line succeeds, and then yields their messages in order. */
  lemma {:induction false} ExtractAllSucceeds(lines: seq<string>, extract: Extractor, messages: seq<string>)
    ensures ExtractAll(lines, extract) == Success(messages) <==>
      |messages| == |lines| &&
      forall i :: 0 <= i < |lines| ==> ExtractLine(lines[i], extract) == Success(messages[i])
    decreases |lines|
  {
    if |lines| >= 1 && |messages| >= 1 {
      ExtractAllSucceeds(lines[1..], extract, messages[1..]);
      assert messages == [messages[0]] + messages[1..];
      assert forall i :: 1 <= i < |lines| ==> lines[i] == lines[1..][i - 1];
      assert forall i :: 1 <= i < |messages| ==> messages[i] == messages[1..][i - 1];
    }
  }

  /** When the map fails, its failure is that of the first failing line; all earlier lines succeeded. */
  lemma {:induction false} ExtractAllFailsAtFirst(lines: seq<string>, extract: Extractor)
    requires ExtractAll(lines, extract).Failure?
    ensures exists k :: (0 <= k < |lines| &&
      ExtractLine(lines[k], extract) == Failure(ExtractAll(lines, extract).error) &&
      forall j :: 0 <= j < k ==> ExtractLine(lines[j], extract).Success?)
    decreases |lines|
  {
    if ExtractLine(lines[0], extract).Failure? {
      assert ExtractLine(lines[0], extract) == Failure(ExtractAll(lines, extract).error);
    } else {
      ExtractAllFailsAtFirst(lines[1..], extract);
      var k :| 0 <= k < |lines[1..]| &&
        ExtractLine(lines[1..][k], extract) == Failure(ExtractAll(lines[1..], extract).error) &&
        forall j :: 0 <= j < k ==> ExtractLine(lines[1..][j], extract).Success?;
      assert forall j :: 1 <= j < k + 1 ==> lines[j] == lines[1..][j - 1];
      assert ExtractLine(lines[k + 1], extract) == Failure(ExtractAll(lines, extract).error);
    }
  }

  /** The map over two blocks of lines is the map over each, sequenced. */
  lemma {:induction false} ExtractAllAppend(a: seq<string>, b: seq<string>, extract: Extractor)
    ensures ExtractAll(a + b, extract) == Concat(ExtractAll(a, extract), ExtractAll(b, extract))
    decreases |a|
  {
    if |a| == 0 {
      assert a + b == b;
      match ExtractAll(b, extract)
      case Failure(_) =>
      case Success(y) => assert [] + y == y;
    } else {
      assert (a + b)[0] == a[0];
      assert (a + b)[1..] == a[1..] + b;
      ExtractAllAppend(a[1..], b, extract);
      if ExtractLine(a[0], extract).Success? {
        ConcatAssociates(Success([ExtractLine(a[0], extract).value]), ExtractAll(a[1..], extract), ExtractAll(b, extract));
      }
    }
  }

  lemma ConcatAssociates<X>(r: Result<seq<X>, Failure>, s: Result<seq<X>, Failure>, t: Result<seq<X>, Failure>)
    ensures Concat(Concat(r, s), t) == Concat(r, Concat(s, t))
  {
    if r.Success? && s.Success? && t.Success? {
      assert (r.value + s.value) + t.value == r.value + (s.value + t.value);
    }
  }

  lemma {:induction false} MessageLinesAppend(a: seq<string>, b: seq<string>)
    ensures MessageLines(a + b) == MessageLines(a) + MessageLines(b)
    decreases |a|
  {
    if |a| == 0 {
      assert a + b == b;
    } else {
      assert (a + b)[0] == a[0];
      assert (a + b)[1..] == a[1..] + b;
      MessageLinesAppend(a[1..], b);
    }
  }

  /** A single line is kept exactly when it contains "message"; with MessageLinesAppend this fixes the order. */
  lemma MessageLinesOne(line: string)
    ensures MessageLines([line]) == if Contains(line, MessageMarker) then [line] else []
  {
    assert [line][1..] == [];
  }

  /** A text that nowhere contains "message" keeps no line. */
  lemma NothingKeptWithoutMarker(text: string)
    ensures !Contains(text, MessageMarker) ==> MessageLines(Lines(text)) == []
  {
    var lines := Lines(text);
    var kept := MessageLines(lines);
    if kept != [] {
      var line := kept[0];
      assert line in lines;
      var k :| 0 <= k < |lines| && lines[k] == line;
      assert Contains(text, line);
      ContainsTransitive(text, line, MessageMarker);
    }
  }

  // ---------------------------------------------------------------------------
  // Reassembly

  /**
   * Reassembly works line by line: the text before a newline and the text
   * after it are reassembled independently and their results concatenated,
   * the first failure winning.
   */
  lemma ReassembleAtLineBreak(a: string, b: string, extract: Extractor)
    ensures Reassemble(a + [LineBreak] + b, extract) ==
      Concat(Reassemble(a, extract), Reassemble(b, extract))
  {
    SplitAround(a, LineBreak, b);
    assert Lines(a + [LineBreak] + b) == Lines(a) + Lines(b);
    MessageLinesAppend(Lines(a), Lines(b));
    assert MessageLines(Lines(a + [LineBreak] + b)) == MessageLines(Lines(a)) + MessageLines(Lines(b));
    ExtractAllAppend(MessageLines(Lines(a)), MessageLines(Lines(b)), extract);
    match ExtractAll(MessageLines(Lines(a)), extract)
    case Failure(_) =>
    case Success(x) =>
      match ExtractAll(MessageLines(Lines(b)), extract)
      case Failure(_) =>
      case Success(y) => JoinConcat(x, y);
  }

  /** A single line contributes nothing unless it mentions "message"; then it must yield a message. */
  lemma ReassembleOneLine(line: string, extract: Extractor)
    requires LineBreak !in line
    ensures Reassemble(line, extract) ==
      if Contains(line, MessageMarker) then ExtractLine(line, extract) else Success("")
  {
    NotContainsWithoutFirst(line, [LineBreak]);
    SplitWithoutSeparator(line, [LineBreak]);
    assert Lines(line) == [line];
    assert [line][1..] == [];
    if Contains(line, MessageMarker) {
      assert MessageLines([line]) == [line];
      match ExtractLine(line, extract)
      case Failure(_) =>
      case Success(m) =>
        assert ExtractAll([line][1..], extract) == Success([]);
        assert [m] + [] == [m];
        assert ExtractAll([line], extract) == Success([m]);
    } else {
      assert MessageLines([line]) == [];
    }
  }

  /** Reassembly fails exactly when some line that mentions "message" fails. */
  lemma ReassembleFails(text: string, extract: Extractor)
    ensures Reassemble(text, extract).Failure? <==>
      exists i :: 0 <= i < |MessageLines(Lines(text))| &&
        ExtractLine(MessageLines(Lines(text))[i], extract).Failure?
  {
    var kept := MessageLines(Lines(text));
    if ExtractAll(kept, extract).Failure? {
      ExtractAllFailsAtFirst(kept, extract);
    } else {
      ExtractAllSucceeds(kept, extract, ExtractAll(kept, extract).value);
    }
  }

  /**
   * The assembled text is empty (and `Chat` falls back to the raw reply)
   * exactly when every line mentioning "message" yields the empty message;
   * a reply with no such line at all is the special case of no lines.
   */
  lemma ReassembleEmpty(text: string, extract: Extractor)
    ensures Reassemble(text, extract) == Success("") <==>
      forall i :: 0 <= i < |MessageLines(Lines(text))| ==>
        ExtractLine(MessageLines(Lines(text))[i], extract) == Success("")
  {
    var kept := MessageLines(Lines(text));
    var blanks := seq(|kept|, i => "");
    ExtractAllSucceeds(kept, extract, blanks);
    JoinEmpty(blanks);
    if Reassemble(text, extract) == Success("") {
      var messages := ExtractAll(kept, extract).value;
      ExtractAllSucceeds(kept, extract, messages);
      JoinEmpty(messages);
      assert messages == blanks;
    }
  }

  /** A one-line reply "data: " + payload, with a payload that mentions "message", yields what the parser extracts. */
  lemma ReassemblePayloadLine(payload: string, extract: Extractor)
    requires LineBreak !in payload && !Contains(payload, DataPrefix) && Contains(payload, MessageMarker)
    ensures Reassemble(DataPrefix + payload, extract) ==
      match extract(payload)
      case Success(message) => Success(message)
      case Failure(reason) => Failure(Unparseable(payload, reason))
  {
    var line := DataPrefix + payload;
    assert LineBreak !in line;
    ContainsExtended(DataPrefix, payload, MessageMarker);
    DataSegmentOfPayload(payload);
    ReassembleOneLine(line, extract);
  }

  /** Two payload lines reassemble to the concatenation of their two messages. */
  lemma ReassembleTwoPayloads(first: string, second: string, extract: Extractor, m1: string, m2: string)
    requires LineBreak !in first && !Contains(first, DataPrefix) && Contains(first, MessageMarker)
    requires LineBreak !in second && !Contains(second, DataPrefix) && Contains(second, MessageMarker)
    requires extract(first) == Success(m1) && extract(second) == Success(m2)
    ensures Reassemble(DataPrefix + first + [LineBreak] + DataPrefix + second, extract) == Success(m1 + m2)
  {
    ReassemblePayloadLine(first, extract);
    ReassemblePayloadLine(second, extract);
    assert DataPrefix + first + [LineBreak] + DataPrefix + second ==
      (DataPrefix + first) + [LineBreak] + (DataPrefix + second);
    ReassembleAtLineBreak(DataPrefix + first, DataPrefix + second, extract);
  }

  /** The stream "data: {"message":"Hel"}\ndata: {"message":"lo"}" reassembles to "Hello". */
  lemma ReassembleHello(extract: Extractor)
    requires extract("{\"message\":\"Hel\"}") == Success("Hel")
    requires extract("{\"message\":\"lo\"}") == Success("lo")
    ensures Reassemble("data: " + "{\"message\":\"Hel\"}" + "\n" + "data: " + "{\"message\":\"lo\"}", extract)
      == Success("Hello")
  {
    var first, second := "{\"message\":\"Hel\"}", "{\"message\":\"lo\"}";
    assert OccursAt(first, MessageMarker, 2);
    assert OccursAt(second, MessageMarker, 2);
    NotContainsWithoutFirst(first, DataPrefix);
    NotContainsWithoutFirst(second, DataPrefix);
    ReassembleTwoPayloads(first, second, extract, "Hel", "lo");
    assert "Hel" + "lo" == "Hello";
  }

  // ---------------------------------------------------------------------------
  // Response shaping

  /** A failed reassembly makes `Chat` fail with the same failure, with no partial result. */
  lemma ChatReplyFails(text: string, model: string, extract: Extractor, now: nat)
    ensures ChatReply(text, model, extract, now).Failure? <==> Reassemble(text, extract).Failure?
    ensures Reassemble(text, extract).Failure? ==>
      ChatReply(text, model, extract, now).error == Reassemble(text, extract).error
  {
  }

  /** The raw upstream text is returned, verbatim, exactly when the assembled text is empty. */
  lemma ChatReplyRaw(text: string, model: string, extract: Extractor, now: nat)
    ensures (ChatReply(text, model, extract, now).Success? && ChatReply(text, model, extract, now).value.RawText?)
      <==> Reassemble(text, extract) == Success("")
    ensures Reassemble(text, extract) == Success("") ==>
      ChatReply(text, model, extract, now) == Success(RawText(text))
  {
  }

  /**
   * A non-empty assembled text is wrapped in an envelope: one choice at index
   * 0 whose assistant message is the assembled text, finish reason "stop",
   * the requested model, zero usage, and an id that carries the timestamp.
   */
  lemma ChatReplyEnvelope(text: string, model: string, extract: Extractor, now: nat)
    requires Reassemble(text, extract).Success? && Reassemble(text, extract).value != ""
    ensures ChatReply(text, model, extract, now).Success?
    ensures ChatReply(text, model, extract, now).value.Envelope?
    ensures var c := ChatReply(text, model, extract, now).value.completion;
      && c.objectKind == "chat.completion"
      && c.model == model
      && |c.choices| == 1
      && c.choices[0].index == 0
      && c.choices[0].message == ChatMessage("assistant", Reassemble(text, extract).value)
      && c.choices[0].finishReason == "stop"
      && c.usage == Usage(0, 0, 0)
      && c.created == now / 1000
      && StartsWith(c.id, IdPrefix)
      && (forall i :: |IdPrefix| <= i < |c.id| ==> IsDigit(c.id[i]))
      && c.id[|IdPrefix|..] == Decimal(now)
      && DecimalValue(c.id[|IdPrefix|..]) == now
  {
    var id := IdPrefix + Decimal(now);
    assert id[|IdPrefix|..] == Decimal(now);
    assert id[..|IdPrefix|] == IdPrefix;
    DecimalRoundTrip(now);
  }
}
