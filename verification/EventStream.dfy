/** The incremental parser of the event stream format: it does not matter how its
    input is chunked, and it agrees with the character-level reading of sections
    9.2.5 and 9.2.6 of the WHATWG HTML Living Standard. */
module EventStream {
  import opened Options

  /** A call of onEvent or onRetry. */
  datatype Call = Event(name: string, data: string) | Retry(ms: nat)

  // ---- lines ----

  datatype Break = NoBreak | At(index: nat, length: nat)

  /** The first CRLF, LF, or CR that is not the last character. */
  function FindBreak(text: string, from: nat): (b: Break)
    requires from <= |text|
    ensures b.At? ==> from <= b.index && b.length > 0 && b.index + b.length <= |text|
    ensures b.At? ==> text[b.index + b.length - 1] == '\n' || b.index + b.length < |text|
    decreases |text| - from
  {
    if from == |text| then NoBreak
    else if text[from] == '\r' && from + 1 < |text| && text[from + 1] == '\n' then At(from, 2)
    else if text[from] == '\n' then At(from, 1)
    else if text[from] == '\r' && from + 1 < |text| then At(from, 1)
    else FindBreak(text, from + 1)
  }

  /** The index of the first colon at or after from, or the length. */
  function Colon(text: string, from: nat): (k: nat)
    requires from <= |text|
    ensures from <= k <= |text|
    ensures k < |text| ==> text[k] == ':'
    ensures forall i :: from <= i < k ==> text[i] != ':'
    decreases |text| - from
  {
    if from == |text| || text[from] == ':' then from else Colon(text, from + 1)
  }

  predicate Digits(s: string) { forall i :: 0 <= i < |s| ==> '0' <= s[i] <= '9' }

  function Number(s: string): nat
    requires Digits(s)
  {
    if s == [] then 0 else 10 * Number(s[..|s| - 1]) + (s[|s| - 1] as int - '0' as int)
  }

  function Join(data: seq<string>): string {
    if data == [] then "" else if |data| == 1 then data[0] else Join(data[..|data| - 1]) + "\n" + data[|data| - 1]
  }

  /** The parser's state and the calls it has made. */
  datatype State = State(buffer: string, eventName: string, data: seq<string>, calls: seq<Call>)

  const FRESH := State("", "", [], [])

  function Dispatched(s: State): State {
    s.(eventName := "", data := [],
       calls := if |s.data| > 0 then s.calls + [Event(if s.eventName == "" then "message" else s.eventName, Join(s.data))] else s.calls)
  }

  function Field(s: State, field: string, value: string): State {
    if field == "event" then s.(eventName := value)
    else if field == "data" then s.(data := s.data + [value])
    else if field == "retry" && value != "" && Digits(value) then s.(calls := s.calls + [Retry(Number(value))])
    else s
  }

  function Stripped(value: string): string { if value != "" && value[0] == ' ' then value[1..] else value }

  /** line(text). */
  function TakenLine(s: State, text: string): State {
    if text == "" then Dispatched(s)
    else if text[0] == ':' then s
    else
      var k := Colon(text, 0);
      if k == |text| then Field(s, text, "") else Field(s, text[..k], Stripped(text[k + 1..]))
  }

  /** The loop of push: every whole line in the buffer. */
  function Drain(s: State): State
    decreases |s.buffer|
  {
    var b := FindBreak(s.buffer, 0);
    if b.NoBreak? then s
    else Drain(TakenLine(s.(buffer := s.buffer[b.index + b.length..]), s.buffer[..b.index]))
  }

  function Pushed(s: State, chunk: string): State { Drain(s.(buffer := s.buffer + chunk)) }

  /** createSSEParser's closure. */
  class SSEParser {
    var buffer: string
    var eventName: string
    var data: seq<string>
    var calls: seq<Call>

    function Value(): State
      reads this
    {
      State(buffer, eventName, data, calls)
    }

    constructor ()
      ensures Value() == FRESH
    {
      buffer, eventName, data, calls := "", "", [], [];
    }

    method Dispatch()
      modifies this
      ensures Value() == Dispatched(old(Value()))
    {
      if |data| > 0 {
        calls := calls + [Event(if eventName == "" then "message" else eventName, Join(data))];
      }
      eventName := "";
      data := [];
    }

    method Line(text: string)
      modifies this
      ensures Value() == TakenLine(old(Value()), text)
    {
      if text == "" {
        Dispatch();
        return;
      }
      if text[0] == ':' { return; }
      var colon := Colon(text, 0);
      var field := if colon == |text| then text else text[..colon];
      var value := if colon == |text| then "" else text[colon + 1..];
      if value != "" && value[0] == ' ' {
        value := value[1..];
      }
      if field == "event" {
        eventName := value;
      } else if field == "data" {
        data := data + [value];
      } else if field == "retry" && value != "" && Digits(value) {
        calls := calls + [Retry(Number(value))];
      }
    }

    method TakeNext(b: Break)
      requires b == FindBreak(buffer, 0) && b.At?
      modifies this
      ensures Value() == Next(old(Value()))
    {
      ghost var s := Value();
      var text := buffer[..b.index];
      buffer := buffer[b.index + b.length..];
      assert Value() == s.(buffer := s.buffer[b.index + b.length..]);
      Line(text);
    }

    method Push(chunk: string)
      modifies this
      ensures Value() == Pushed(old(Value()), chunk)
    {
      buffer := buffer + chunk;
      ghost var start := Value();
      var b := FindBreak(buffer, 0);
      while b.At?
        invariant b == FindBreak(buffer, 0) && Drain(Value()) == Drain(start)
        decreases |buffer|
      {
        DrainsNext(Value());
        NextShrinks(Value());
        TakeNext(b);
        b := FindBreak(buffer, 0);
      }
    }
  }

  lemma LineKeepsBuffer(s: State, text: string)
    ensures TakenLine(s, text).buffer == s.buffer
  {}

  // ---- chunking ----

  /** A break found stays where it is when more text arrives. */
  lemma {:induction false} BreakStays(text: string, more: string, from: nat)
    requires from <= |text| && FindBreak(text, from).At?
    ensures FindBreak(text + more, from) == FindBreak(text, from)
    decreases |text| - from
  {
    if !(text[from] == '\n' || (text[from] == '\r' && from + 1 < |text|)) {
      BreakStays(text, more, from + 1);
    }
  }

  /** Reading lines does not look at the text still to come. */
  lemma LineApart(s: State, text: string, rest: string)
    ensures TakenLine(s.(buffer := rest), text) == TakenLine(s, text).(buffer := rest)
  {}

  /** The parser after the first whole line of its buffer. */
  function Next(s: State): State
    requires FindBreak(s.buffer, 0).At?
  {
    var b := FindBreak(s.buffer, 0);
    TakenLine(s.(buffer := s.buffer[b.index + b.length..]), s.buffer[..b.index])
  }

  lemma NextShrinks(s: State)
    requires FindBreak(s.buffer, 0).At?
    ensures |Next(s).buffer| < |s.buffer|
    ensures Next(s).buffer == s.buffer[FindBreak(s.buffer, 0).index + FindBreak(s.buffer, 0).length..]
  {
    var b := FindBreak(s.buffer, 0);
    LineKeepsBuffer(s.(buffer := s.buffer[b.index + b.length..]), s.buffer[..b.index]);
  }

  lemma DrainsNext(s: State)
    requires FindBreak(s.buffer, 0).At?
    ensures Drain(s) == Drain(Next(s))
  {}

  lemma NextIs(s: State, b: Break, text: string, rest: string)
    requires b == FindBreak(s.buffer, 0) && b.At? && text == s.buffer[..b.index] && rest == s.buffer[b.index + b.length..]
    ensures Next(s) == TakenLine(s, text).(buffer := rest)
  {
    assert Next(s) == TakenLine(s.(buffer := rest), text);
    LineApart(s, text, rest);
  }

  /** The first line is the same with more text behind it. */
  lemma NextOfMore(s: State, more: string)
    requires FindBreak(s.buffer, 0).At?
    ensures FindBreak(s.buffer + more, 0).At?
    ensures Next(s.(buffer := s.buffer + more)) == Next(s).(buffer := Next(s).buffer + more)
  {
    var b := FindBreak(s.buffer, 0);
    var text, rest := s.buffer[..b.index], s.buffer[b.index + b.length..];
    BreakStays(s.buffer, more, 0);
    SlicesOfMore(s.buffer, more, b.index, b.index + b.length);
    NextIs(s, b, text, rest);
    NextIs(s.(buffer := s.buffer + more), b, text, rest + more);
    LineApart(s, text, s.buffer + more);
  }

  lemma SlicesOfMore(text: string, more: string, i: nat, j: nat)
    requires i <= j <= |text|
    ensures (text + more)[..i] == text[..i] && (text + more)[j..] == text[j..] + more
  {}

  lemma NextThenMore(s: State, more: string)
    requires FindBreak(s.buffer, 0).At?
    ensures Pushed(s, more) == Pushed(Next(s), more) && |Next(s).buffer| < |s.buffer| && Drain(s) == Drain(Next(s))
  {
    NextShrinks(s);
    DrainsNext(s);
    NextOfMore(s, more);
    DrainsNext(s.(buffer := s.buffer + more));
  }

  /** Draining early changes nothing. */
  lemma {:induction false} DrainThenMore(s: State, more: string)
    ensures Pushed(Drain(s), more) == Pushed(s, more)
    decreases |s.buffer|
  {
    if FindBreak(s.buffer, 0).At? {
      NextThenMore(s, more);
      DrainThenMore(Next(s), more);
    }
  }

  /** Two chunks do what their concatenation does. */
  lemma TwoChunks(s: State, a: string, b: string)
    ensures Pushed(Pushed(s, a), b) == Pushed(s, a + b)
  {
    DrainThenMore(s.(buffer := s.buffer + a), b);
    assert (s.buffer + a) + b == s.buffer + (a + b);
  }

  function PushAll(s: State, chunks: seq<string>): State {
    if chunks == [] then s else Pushed(PushAll(s, chunks[..|chunks| - 1]), chunks[|chunks| - 1])
  }

  function Concat(chunks: seq<string>): string {
    if chunks == [] then "" else Concat(chunks[..|chunks| - 1]) + chunks[|chunks| - 1]
  }

  /** However a text is split into chunks, the parser makes the same calls and
      ends in the same state as on the whole text at once. */
  lemma {:induction false} ChunkingDoesNotMatter(chunks: seq<string>)
    ensures PushAll(FRESH, chunks) == Pushed(FRESH, Concat(chunks))
  {
    if chunks != [] {
      ChunkingDoesNotMatter(chunks[..|chunks| - 1]);
      TwoChunks(FRESH, Concat(chunks[..|chunks| - 1]), chunks[|chunks| - 1]);
    }
  }

  // ---- the standard, character by character ----

  /** Where in a line the reader is. */
  datatype Mode = LineStart | Comment | InField | AfterColon | InValue

  datatype Reader = Reader(mode: Mode, field: string, value: string, afterCR: bool, eventType: string, dataBuffer: string, calls: seq<Call>)

  const READER := Reader(LineStart, "", "", false, "", "", [])

  /** Section 9.2.6: dispatch the event. */
  function Fire(r: Reader): Reader {
    if r.dataBuffer == "" then r.(eventType := "")
    else r.(eventType := "", dataBuffer := "",
            calls := r.calls + [Event(if r.eventType != "" then r.eventType else "message", r.dataBuffer[..|r.dataBuffer| - 1])])
  }

  function AsciiDigit(c: char): Option<nat> {
    match c
    case '0' => Some(0)
    case '1' => Some(1)
    case '2' => Some(2)
    case '3' => Some(3)
    case '4' => Some(4)
    case '5' => Some(5)
    case '6' => Some(6)
    case '7' => Some(7)
    case '8' => Some(8)
    case '9' => Some(9)
    case _ => None
  }

  /** Reads an integer in base ten from left to right, n so far, if the rest is
      only ASCII digits. */
  function BaseTen(text: string, n: nat): Option<nat>
    decreases |text|
  {
    if text == "" then Some(n)
    else if AsciiDigit(text[0]).None? then None
    else BaseTen(text[1..], 10 * n + AsciiDigit(text[0]).value)
  }

  /** Section 9.2.6: process the field. */
  function Processed(r: Reader): Reader {
    if r.field == "event" then r.(eventType := r.value)
    else if r.field == "data" then r.(dataBuffer := r.dataBuffer + r.value + "\n")
    else if r.field == "retry" && r.value != "" && BaseTen(r.value, 0).Some? then r.(calls := r.calls + [Retry(BaseTen(r.value, 0).value)])
    else r
  }

  function EndLine(r: Reader): Reader {
    var t := if r.mode == LineStart then Fire(r) else if r.mode == Comment then r else Processed(r);
    t.(mode := LineStart, field := "", value := "")
  }

  /** Section 9.2.5: one character of a line. */
  function Within(r: Reader, c: char): Reader {
    match r.mode
    case LineStart => if c == ':' then r.(mode := Comment) else r.(mode := InField, field := [c])
    case Comment => r
    case InField => if c == ':' then r.(mode := AfterColon) else r.(field := r.field + [c])
    case AfterColon => if c == ' ' then r.(mode := InValue) else r.(mode := InValue, value := [c])
    case InValue => r.(value := r.value + [c])
  }

  function Read(r: Reader, c: char): Reader {
    if c == '\n' && r.afterCR then r.(afterCR := false)
    else if c == '\n' then EndLine(r)
    else if c == '\r' then EndLine(r).(afterCR := true)
    else Within(r.(afterCR := false), c)
  }

  function ReadAll(r: Reader, text: string): Reader
    decreases |text|
  {
    if text == "" then r else ReadAll(Read(r, text[0]), text[1..])
  }

  // ---- agreement ----

  function DataBuffer(data: seq<string>): string {
    if data == [] then "" else DataBuffer(data[..|data| - 1]) + data[|data| - 1] + "\n"
  }

  /** The reader in the middle of a line, with what the parser has taken. */
  function Midway(s: State, line: string): Reader {
    var r := Reader(LineStart, "", "", false, s.eventName, DataBuffer(s.data), s.calls);
    if line == "" then r
    else if line[0] == ':' then r.(mode := Comment)
    else
      var k := Colon(line, 0);
      if k == |line| then r.(mode := InField, field := line)
      else if k + 1 == |line| then r.(mode := AfterColon, field := line[..k])
      else r.(mode := InValue, field := line[..k], value := Stripped(line[k + 1..]))
  }

  predicate Plain(text: string) { forall i :: 0 <= i < |text| ==> text[i] != '\n' && text[i] != '\r' }

  lemma {:induction false} ColonGrows(line: string, c: char, from: nat)
    requires from <= |line|
    ensures Colon(line + [c], from) == if Colon(line, from) < |line| then Colon(line, from) else if c == ':' then |line| else |line| + 1
    decreases |line| - from
  {
    if from < |line| && line[from] != ':' {
      ColonGrows(line, c, from + 1);
    }
  }

  lemma MidwayGrows(s: State, line: string, c: char)
    requires c != '\n' && c != '\r'
    ensures Within(Midway(s, line), c) == Midway(s, line + [c])
  {
    ColonGrows(line, c, 0);
    if line != "" && line[0] != ':' {
      var k := Colon(line, 0);
      if k < |line| {
        assert (line + [c])[..k] == line[..k];
        assert (line + [c])[k + 1..] == line[k + 1..] + [c];
      } else {
        assert (line + [c])[..|line|] == line;
      }
    }
  }

  lemma {:induction false} JoinedBuffer(data: seq<string>)
    requires data != []
    ensures DataBuffer(data) == Join(data) + "\n"
  {
    if |data| > 1 {
      JoinedBuffer(data[..|data| - 1]);
      assert (Join(data[..|data| - 1]) + "\n") + data[|data| - 1] + "\n" == Join(data) + "\n";
    } else {
      assert data[..0] == [] && "" + data[0] + "\n" == data[0] + "\n";
    }
  }

  /** A blank line dispatches for both. */
  lemma FireAgrees(s: State)
    ensures EndLine(Midway(s, "")) == Midway(Dispatched(s), "")
  {
    if s.data != [] {
      JoinedBuffer(s.data);
      assert (Join(s.data) + "\n")[..|Join(s.data) + "\n"| - 1] == Join(s.data);
    }
  }

  lemma DigitAgrees(c: char)
    ensures AsciiDigit(c) == if '0' <= c <= '9' then Some(c as int - '0' as int) else None
  {}

  lemma {:induction false} BaseTenSnoc(text: string, n: nat, c: char)
    ensures BaseTen(text + [c], n) ==
            if BaseTen(text, n).None? || AsciiDigit(c).None? then None else Some(10 * BaseTen(text, n).value + AsciiDigit(c).value)
    decreases |text|
  {
    if text == "" {
      assert (text + [c])[1..] == "";
    } else {
      assert (text + [c])[1..] == text[1..] + [c];
      if AsciiDigit(text[0]).Some? {
        BaseTenSnoc(text[1..], 10 * n + AsciiDigit(text[0]).value, c);
      }
    }
  }

  /** The parser's test and number are the base-ten reading. */
  lemma {:induction false} NumberAgrees(text: string)
    ensures BaseTen(text, 0) == if Digits(text) then Some(Number(text)) else None
    decreases |text|
  {
    if text != "" {
      var front, c := text[..|text| - 1], text[|text| - 1];
      assert text == front + [c];
      NumberAgrees(front);
      BaseTenSnoc(front, 0, c);
      DigitAgrees(c);
      assert Digits(text) <==> Digits(front) && '0' <= c <= '9';
    }
  }

  const DIGITS := "0123456789"

  /** A number as it is written in base ten. */
  function Decimal(n: nat): (s: string)
    ensures s != ""
  {
    if n < 10 then [DIGITS[n]] else Decimal(n / 10) + [DIGITS[n % 10]]
  }

  /** The number read is the number written. */
  lemma {:induction false} ReadsTheDecimal(n: nat)
    ensures Digits(Decimal(n)) && Number(Decimal(n)) == n
  {
    if n >= 10 {
      ReadsTheDecimal(n / 10);
      assert Decimal(n)[..|Decimal(n)| - 1] == Decimal(n / 10);
    }
  }

  /** A field does the same to both. */
  lemma FieldAgrees(s: State, r: Reader, field: string, value: string)
    requires r.mode != LineStart && r.mode != Comment && r.field == field && r.value == value && !r.afterCR
    requires r.eventType == s.eventName && r.dataBuffer == DataBuffer(s.data) && r.calls == s.calls
    ensures EndLine(r) == Midway(Field(s, field, value), "")
  {
    assert (s.data + [value])[..|s.data|] == s.data;
    NumberAgrees(value);
  }

  /** Ending a line does to the reader what line() does to the parser. */
  lemma LineAgrees(s: State, line: string)
    ensures EndLine(Midway(s, line)) == Midway(TakenLine(s, line), "")
  {
    if line == "" {
      FireAgrees(s);
    } else if line[0] != ':' {
      var k := Colon(line, 0);
      FieldAgrees(s, Midway(s, line), if k == |line| then line else line[..k], if k == |line| then "" else Stripped(line[k + 1..]));
    }
  }

  lemma {:induction false} PlainSkips(text: string, from: nat, k: nat)
    requires from <= k <= |text| && forall i :: from <= i < k ==> text[i] != '\n' && text[i] != '\r'
    ensures FindBreak(text, from) == FindBreak(text, k)
    decreases k - from
  {
    if from < k {
      PlainSkips(text, from + 1, k);
    }
  }

  lemma {:induction false} NoBreakShape(text: string, from: nat)
    requires from <= |text| && FindBreak(text, from).NoBreak?
    ensures forall i :: from <= i < |text| ==> text[i] != '\n' && (text[i] == '\r' ==> i == |text| - 1)
    decreases |text| - from
  {
    if from < |text| {
      NoBreakShape(text, from + 1);
    }
  }

  lemma {:induction false} DrainedShape(s: State)
    ensures FindBreak(Drain(s).buffer, 0).NoBreak?
    decreases |s.buffer|
  {
    if FindBreak(s.buffer, 0).At? {
      NextThenMore(s, "");
      DrainedShape(Next(s));
    }
  }

  predicate EndsInCR(text: string) { text != "" && text[|text| - 1] == '\r' }

  /** Where the standard's reader is when the parser is at s: a carriage return
      the parser holds back has ended its line for the reader. */
  function Standing(s: State): Reader {
    if EndsInCR(s.buffer) then EndLine(Midway(s, s.buffer[..|s.buffer| - 1])).(afterCR := true)
    else Midway(s, s.buffer)
  }

  /** A plain line, its end, and what follows: the parser takes the line. */
  lemma TakesLine(s: State, line: string, end: string, rest: string)
    requires Plain(line) && s.buffer == line + end + rest
    requires end == "\n" || end == "\r\n" || (end == "\r" && rest != "" && rest[0] != '\n')
    ensures Drain(s) == Drain(TakenLine(s, line).(buffer := rest))
  {
    PlainSkips(s.buffer, 0, |line|);
    assert FindBreak(s.buffer, 0) == At(|line|, |end|);
    assert s.buffer[..|line|] == line && s.buffer[|line| + |end|..] == rest;
    LineApart(s, line, rest);
  }

  lemma HoldsPlain(s: State)
    requires Plain(s.buffer) || (EndsInCR(s.buffer) && Plain(s.buffer[..|s.buffer| - 1]))
    ensures Drain(s) == s
  {
    var n := if EndsInCR(s.buffer) then |s.buffer| - 1 else |s.buffer|;
    PlainSkips(s.buffer, 0, n);
  }

  lemma StepPlain(s: State, c: char)
    requires Plain(s.buffer)
    ensures Read(Standing(s), c) == Standing(Pushed(s, [c]))
  {
    var t := s.(buffer := s.buffer + [c]);
    if c == '\n' {
      assert t.buffer == s.buffer + "\n" + "";
      TakesLine(t, s.buffer, "\n", "");
      HoldsPlain(TakenLine(t, s.buffer).(buffer := ""));
      LineAgrees(s, s.buffer);
      LineApart(s, s.buffer, t.buffer);
    } else {
      assert t.buffer[..|s.buffer|] == s.buffer;
      HoldsPlain(t);
      if c != '\r' {
        MidwayGrows(s, s.buffer, c);
      }
    }
  }

  lemma StepAfterCR(s: State, c: char)
    requires EndsInCR(s.buffer) && Plain(s.buffer[..|s.buffer| - 1])
    ensures Read(Standing(s), c) == Standing(Pushed(s, [c]))
  {
    var line, t := s.buffer[..|s.buffer| - 1], s.(buffer := s.buffer + [c]);
    var after := TakenLine(t, line).(buffer := if c == '\n' then "" else [c]);
    LineAgrees(s, line);
    LineApart(s, line, t.buffer);
    if c == '\n' {
      assert t.buffer == line + "\r\n" + "";
      TakesLine(t, line, "\r\n", "");
    } else {
      assert t.buffer == line + "\r" + [c];
      TakesLine(t, line, "\r", [c]);
    }
    assert c == '\r' ==> after.buffer[..0] == "";
    HoldsPlain(after);
    if c != '\n' && c != '\r' {
      MidwayGrows(after, "", c);
    }
  }

  lemma {:induction false} ReadSnoc(r: Reader, text: string, c: char)
    ensures ReadAll(r, text + [c]) == Read(ReadAll(r, text), c)
    decreases |text|
  {
    if text == "" {
      assert (text + [c])[1..] == "";
    } else {
      assert (text + [c])[1..] == text[1..] + [c];
      ReadSnoc(Read(r, text[0]), text[1..], c);
    }
  }

  /** After any text the parser stands where the standard's reader does. */
  lemma {:induction false} FollowsTheStandard(text: string)
    ensures ReadAll(READER, text) == Standing(Pushed(FRESH, text))
    decreases |text|
  {
    if text != "" {
      var front, c := text[..|text| - 1], text[|text| - 1];
      assert text == front + [c];
      FollowsTheStandard(front);
      ReadSnoc(READER, front, c);
      TwoChunks(FRESH, front, [c]);
      DrainedShape(FRESH.(buffer := "" + front));
      StepStands(Pushed(FRESH, front), c);
    }
  }

  lemma StepStands(s: State, c: char)
    requires FindBreak(s.buffer, 0).NoBreak?
    ensures Read(Standing(s), c) == Standing(Pushed(s, [c]))
  {
    NoBreakShape(s.buffer, 0);
    if EndsInCR(s.buffer) {
      StepAfterCR(s, c);
    } else {
      StepPlain(s, c);
    }
  }

  lemma NextKeepsEnd(s: State)
    requires FindBreak(s.buffer, 0).At?
    ensures EndsInCR(Next(s).buffer) <==> EndsInCR(s.buffer)
  {
    NextShrinks(s);
  }

  lemma {:induction false} DrainKeepsEnd(s: State)
    ensures EndsInCR(Drain(s).buffer) <==> EndsInCR(s.buffer)
    decreases |s.buffer|
  {
    if FindBreak(s.buffer, 0).At? {
      NextThenMore(s, "");
      NextKeepsEnd(s);
      DrainKeepsEnd(Next(s));
    }
  }

  /** The calls made for a text, however chunked, are the standard's when it does
      not end in a lone carriage return; when it does, they lack only what the
      line the return ends would add. */
  lemma CallsAreTheStandards(chunks: seq<string>)
    ensures var s, text := PushAll(FRESH, chunks), Concat(chunks);
      && (EndsInCR(s.buffer) <==> EndsInCR(text))
      && ReadAll(READER, text).calls == if EndsInCR(text) then TakenLine(s, s.buffer[..|s.buffer| - 1]).calls else s.calls
  {
    var text := Concat(chunks);
    ChunkingDoesNotMatter(chunks);
    FollowsTheStandard(text);
    DrainKeepsEnd(FRESH.(buffer := "" + text));
    StandingCalls(Pushed(FRESH, text));
  }

  lemma StandingCalls(s: State)
    ensures Standing(s).calls == if EndsInCR(s.buffer) then TakenLine(s, s.buffer[..|s.buffer| - 1]).calls else s.calls
  {
    if EndsInCR(s.buffer) {
      LineAgrees(s, s.buffer[..|s.buffer| - 1]);
    }
  }

  // ---- what the server sends is what is heard ----

  /** An event of the server: its name and its JSON text. */
  datatype Sent = Sent(name: string, payload: string) {

    /** Names and JSON texts are written on one line each. */
    predicate OneLine() { name != "" && Plain(name) && Plain(payload) }

    /** writeSSEEvent. */
    function Wire(): string { "event: " + name + "\n" + "data: " + payload + "\n\n" }
  }

  function Wires(events: seq<Sent>): string {
    if events == [] then "" else events[0].Wire() + Wires(events[1..])
  }

  /** handleEvents: the delay to reconnect after, then the events. */
  function Stream(events: seq<Sent>): string { "retry: 3000\n\n" + Wires(events) }

  function Heard(events: seq<Sent>): seq<Call> {
    seq(|events|, i requires 0 <= i < |events| => Event(events[i].name, events[i].payload))
  }

  lemma {:induction false} ColonIs(text: string, from: nat, k: nat)
    requires from <= k < |text| && text[k] == ':' && forall i :: from <= i < k ==> text[i] != ':'
    ensures Colon(text, from) == k
    decreases k - from
  {
    if from < k {
      ColonIs(text, from + 1, k);
    }
  }

  lemma Again(a: string, b: string, c: string)
    ensures a + b + c == a + (b + c)
  {}

  lemma PlainJoin(a: string, b: string)
    requires Plain(a) && Plain(b)
    ensures Plain(a + b)
  {}

  predicate FieldName(field: string) { field != "" && Plain(field) && forall i :: 0 <= i < |field| ==> field[i] != ':' }

  /** A line that names a field, a colon, a space and the value. */
  lemma FieldLine(s: State, field: string, value: string)
    requires FieldName(field)
    ensures TakenLine(s, field + (": " + value)) == Field(s, field, value)
  {
    var line := field + (": " + value);
    assert line[|field|] == ':';
    ColonIs(line, 0, |field|);
    assert line[..|field|] == field && line[|field| + 1..] == (": " + value)[1..] == " " + value;
    assert (" " + value)[1..] == value;
  }

  /** The parser takes a field written with a space after its colon. */
  lemma TakesField(s: State, field: string, value: string, rest: string)
    requires FieldName(field) && Plain(value) && s.buffer == field + ": " + value + "\n" + rest
    ensures Drain(s) == Drain(Field(s, field, value).(buffer := rest))
  {
    Again(field, ": ", value);
    PlainJoin(": ", value);
    PlainJoin(field, ": " + value);
    TakesLine(s, field + (": " + value), "\n", rest);
    FieldLine(s, field, value);
  }

  lemma TakesBlank(s: State, rest: string)
    requires s.buffer == "\n" + rest
    ensures Drain(s) == Drain(Dispatched(s).(buffer := rest))
  {
    assert s.buffer == "" + "\n" + rest;
    TakesLine(s, "", "\n", rest);
  }

  lemma WireIs(e: Sent, rest: string)
    ensures e.Wire() + rest == "event" + ": " + e.name + "\n" + ("data" + ": " + e.payload + "\n" + ("\n" + rest))
  {
    assert "event: " == "event" + ": " && "data: " == "data" + ": " && "\n\n" == "\n" + "\n";
    var name, data := "event: " + e.name + "\n", "data: " + e.payload;
    Again(name, "data: ", e.payload);
    Again(name, data, "\n\n");
    Again(name, data + "\n\n", rest);
    Again(data, "\n", "\n");
    Again(data + "\n", "\n", rest);
  }

  lemma TakesName(s: State, name: string, rest: string)
    requires Plain(name) && s.buffer == "event" + ": " + name + "\n" + rest
    ensures Drain(s) == Drain(s.(eventName := name, buffer := rest))
  {
    TakesField(s, "event", name, rest);
  }

  lemma TakesData(s: State, payload: string, rest: string)
    requires Plain(payload) && s.data == [] && s.buffer == "data" + ": " + payload + "\n" + rest
    ensures Drain(s) == Drain(s.(data := [payload], buffer := rest))
  {
    TakesField(s, "data", payload, rest);
    assert s.data + [payload] == [payload];
  }

  lemma TakesRetry(s: State, n: nat, rest: string)
    requires s.buffer == "retry" + ": " + Decimal(n) + "\n" + rest
    ensures Drain(s) == Drain(s.(calls := s.calls + [Retry(n)], buffer := rest))
  {
    ReadsTheDecimal(n);
    assert Plain(Decimal(n));
    TakesField(s, "retry", Decimal(n), rest);
  }

  /** Between events, an event on the wire is heard as it was sent. */
  lemma EventIsHeard(s: State, e: Sent, rest: string)
    requires e.OneLine() && s.eventName == "" && s.data == [] && s.buffer == e.Wire() + rest
    ensures Drain(s) == Drain(s.(buffer := rest, calls := s.calls + [Event(e.name, e.payload)]))
  {
    var afterData := "\n" + rest;
    var afterName := "data" + ": " + e.payload + "\n" + afterData;
    WireIs(e, rest);
    TakesName(s, e.name, afterName);
    TakesData(s.(eventName := e.name, buffer := afterName), e.payload, afterData);
    TakesBlank(s.(eventName := e.name, data := [e.payload], buffer := afterData), rest);
  }

  lemma {:induction false} EventsAreHeard(s: State, events: seq<Sent>)
    requires (forall e :: e in events ==> e.OneLine()) && s.eventName == "" && s.data == [] && s.buffer == Wires(events)
    ensures Drain(s) == s.(buffer := "", calls := s.calls + Heard(events))
    decreases |events|
  {
    if events == [] {
      assert s.calls + Heard(events) == s.calls;
    } else {
      var e, rest := events[0], events[1..];
      EventIsHeard(s, e, Wires(rest));
      EventsAreHeard(s.(buffer := Wires(rest), calls := s.calls + [Event(e.name, e.payload)]), rest);
      assert s.calls + [Event(e.name, e.payload)] + Heard(rest) == s.calls + Heard(events);
    }
  }

  lemma RetryIsHeard(n: nat, rest: string)
    ensures Drain(FRESH.(buffer := "retry" + ": " + Decimal(n) + "\n" + ("\n" + rest))) == Drain(State(rest, "", [], [Retry(n)]))
  {
    TakesRetry(FRESH.(buffer := "retry" + ": " + Decimal(n) + "\n" + ("\n" + rest)), n, "\n" + rest);
    assert [] + [Retry(n)] == [Retry(n)];
    TakesBlank(State("\n" + rest, "", [], [Retry(n)]), rest);
  }

  lemma ThreeThousand()
    ensures Decimal(3000) == "3000"
  {
    assert Decimal(3) == "3";
    assert Decimal(30) == "30";
    assert Decimal(300) == "300";
  }

  lemma DelayIs(rest: string)
    ensures "retry: 3000\n\n" + rest == "retry" + ": " + Decimal(3000) + "\n" + ("\n" + rest)
  {
    ThreeThousand();
    assert "retry: 3000\n\n" == "retry" + ": " + "3000" + "\n" + "\n";
    Again("retry" + ": " + "3000" + "\n", "\n", rest);
  }

  /** Whatever the chunks a stream of the server arrives in, the client hears the
      delay and then each event, as they were sent and in order. */
  lemma SentIsHeard(events: seq<Sent>, chunks: seq<string>)
    requires (forall e :: e in events ==> e.OneLine()) && Concat(chunks) == Stream(events)
    ensures PushAll(FRESH, chunks) == State("", "", [], [Retry(3000)] + Heard(events))
  {
    ChunkingDoesNotMatter(chunks);
    assert "" + Stream(events) == Stream(events);
    DelayIs(Wires(events));
    RetryIsHeard(3000, Wires(events));
    EventsAreHeard(State(Wires(events), "", [], [Retry(3000)]), events);
  }
}
