/** Requests to a sandbox's agent, and its answers, line by line. */
module AgentChannel {
  import opened Strings
  import opened WhiteSpace

  /** What a line can say. */
  datatype AgentEvent =
    | Ready
    | Ok(id: Option<int>)
    | Error(id: Option<int>, message: string)
    | Other(name: string)

  type Parse = string -> Option<AgentEvent>

  /** What the channel does to the world, in order; a request is settled by `Resolved` or `Rejected`. */
  datatype Effect =
    | Sent(op: string, id: int)
    | Refused
    | Took(line: string)
    | Resolved(id: int)
    | Rejected(id: int, reason: string)
    | Passed(event: AgentEvent)
    | Warned
    | BecameReady
    | ToldClosed

  datatype State = State(
    pending: map<int, string>, timers: set<int>, nextId: int, buffer: string, closed: bool, effects: seq<Effect>)

  const INITIAL := State(map[], {}, 1, "", false, [])

  /** Everything that can happen to a channel; a timer can go off only while it is set. */
  datatype Step =
    | Ask(op: string)
    | TimedOut(id: int)
    | Chunk(data: string)
    | Close(reason: string)

  const TIMED_OUT := "sandbox agent timed out on "

  function Asked(s: State, op: string): State {
    if s.closed then s.(effects := s.effects + [Refused])
    else s.(pending := s.pending[s.nextId := op], timers := s.timers + {s.nextId}, nextId := s.nextId + 1,
            effects := s.effects + [Sent(op, s.nextId)])
  }

  function Expired(s: State, id: int): State
    requires id in s.pending
  {
    s.(pending := s.pending - {id}, timers := s.timers - {id},
       effects := s.effects + [Rejected(id, TIMED_OUT + s.pending[id])])
  }

  /** What an event settles, if it is the answer to a request that waits. */
  function Answers(e: AgentEvent, pending: map<int, string>): Option<int> {
    if (e.Ok? || e.Error?) && e.id.Some? && e.id.value in pending then e.id else None
  }

  function Dispatched(s: State, e: AgentEvent): State {
    if e.Ready? then s.(effects := s.effects + [BecameReady])
    else
      match Answers(e, s.pending)
      case Some(id) =>
        s.(pending := s.pending - {id}, timers := s.timers - {id},
           effects := s.effects + [if e.Ok? then Resolved(id) else Rejected(id, e.message)])
      case None => s.(effects := s.effects + [if e.Error? then Warned else Passed(e)])
  }

  function HeardLine(s: State, line: string, parse: Parse): State {
    var took := s.(effects := s.effects + [Took(line)]);
    if Blank(line, JsSpace) then took
    else
      match parse(line)
      case None => took.(effects := took.effects + [Warned])
      case Some(e) => Dispatched(took, e)
  }

  function HeardLines(s: State, lines: seq<string>, parse: Parse): State
    decreases |lines|
  {
    if lines == [] then s else HeardLine(HeardLines(s, lines[..|lines| - 1], parse), lines[|lines| - 1], parse)
  }

  function Front<T>(parts: seq<T>): seq<T>
    requires parts != []
  {
    parts[..|parts| - 1]
  }

  function Last<T>(parts: seq<T>): T
    requires parts != []
  {
    parts[|parts| - 1]
  }

  /** All whole lines are heard, and what follows the last of them is kept. */
  function Heard(s: State, data: string, parse: Parse): State {
    var parts := Split(s.buffer + data, '\n');
    HeardLines(s, Front(parts), parse).(buffer := Last(parts))
  }

  /** The requests that wait, in the order they were asked, rejected. */
  function Rejections(pending: map<int, string>, upTo: int, reason: string): seq<Effect>
    decreases upTo
  {
    if upTo <= 1 then [] else
      Rejections(pending, upTo - 1, reason) + if upTo - 1 in pending then [Rejected(upTo - 1, reason)] else []
  }

  function Closed(s: State, reason: string): State {
    if s.closed then s
    else s.(pending := map[], timers := s.timers - s.pending.Keys, closed := true,
            effects := s.effects + Rejections(s.pending, s.nextId, reason) + [ToldClosed])
  }

  function After(s: State, step: Step, parse: Parse): State {
    match step
    case Ask(op) => Asked(s, op)
    case TimedOut(id) => if id in s.timers && id in s.pending then Expired(s, id) else s
    case Chunk(data) => Heard(s, data, parse)
    case Close(reason) => Closed(s, reason)
  }

  function Run(steps: seq<Step>, parse: Parse): State
    decreases |steps|
  {
    if steps == [] then INITIAL else After(Run(Front(steps), parse), Last(steps), parse)
  }

  // ----- every request settles once

  predicate Settles(e: Effect, id: int) {
    (e.Resolved? || e.Rejected?) && e.id == id
  }

  function Settlements(effects: seq<Effect>, id: int): nat
    decreases |effects|
  {
    if effects == [] then 0 else Settlements(Front(effects), id) + if Settles(Last(effects), id) then 1 else 0
  }

  function SentIds(effects: seq<Effect>): seq<int>
    decreases |effects|
  {
    if effects == [] then [] else SentIds(Front(effects)) + if Last(effects).Sent? then [Last(effects).id] else []
  }

  function FromOne(n: int): seq<int>
    decreases n
  {
    if n <= 0 then [] else FromOne(n - 1) + [n]
  }

  ghost predicate Issued(s: State, id: int) { 1 <= id < s.nextId }

  /** Each request that was sent has been settled once, or waits with its timer set; after the end none waits. */
  ghost predicate Accounted(s: State) {
    && s.nextId >= 1 && s.timers == s.pending.Keys && (s.closed ==> s.pending == map[])
    && (forall id :: id in s.pending ==> Issued(s, id))
    && SentIds(s.effects) == FromOne(s.nextId - 1)
    && forall id :: Settlements(s.effects, id) == if Issued(s, id) && id !in s.pending then 1 else 0
  }

  /** An effect that neither sends nor settles changes no account. */
  lemma NothingSettled(s: State, e: Effect)
    requires Accounted(s) && !e.Sent? && !e.Resolved? && !e.Rejected?
    ensures Accounted(s.(effects := s.effects + [e]))
  {
    forall id ensures Settlements(s.effects + [e], id) == Settlements(s.effects, id) {}
    assert SentIds(s.effects) + [] == SentIds(s.effects);
  }

  lemma OneSettled(s: State, id: int, e: Effect)
    requires Accounted(s) && id in s.pending && Settles(e, id)
    ensures Accounted(s.(pending := s.pending - {id}, timers := s.timers - {id}, effects := s.effects + [e]))
  {
    var t := s.(pending := s.pending - {id}, timers := s.timers - {id}, effects := s.effects + [e]);
    forall other ensures Settlements(t.effects, other) == if Issued(t, other) && other !in t.pending then 1 else 0 {
    }
    assert SentIds(s.effects) + [] == SentIds(s.effects);
  }

  lemma AskedAccounted(s: State, op: string)
    requires Accounted(s)
    ensures Accounted(Asked(s, op))
  {
    if s.closed {
      NothingSettled(s, Refused);
    } else {
      var t := Asked(s, op);
      forall id ensures Settlements(t.effects, id) == if Issued(t, id) && id !in t.pending then 1 else 0 {}
    }
  }

  lemma HeardLineAccounted(s: State, line: string, parse: Parse)
    requires Accounted(s)
    ensures Accounted(HeardLine(s, line, parse))
  {
    hide Accounted, Blank;
    var took := s.(effects := s.effects + [Took(line)]);
    NothingSettled(s, Took(line));
    if !Blank(line, JsSpace) {
      match parse(line)
      case None => NothingSettled(took, Warned);
      case Some(e) => DispatchedAccounted(took, e);
    }
  }

  lemma DispatchedAccounted(s: State, e: AgentEvent)
    requires Accounted(s)
    ensures Accounted(Dispatched(s, e))
  {
    hide Accounted;
    if e.Ready? {
      NothingSettled(s, BecameReady);
    } else {
      match Answers(e, s.pending)
      case Some(id) => OneSettled(s, id, if e.Ok? then Resolved(id) else Rejected(id, e.message));
      case None => NothingSettled(s, if e.Error? then Warned else Passed(e));
    }
  }

  lemma {:induction false} HeardLinesAccounted(s: State, lines: seq<string>, parse: Parse)
    requires Accounted(s)
    ensures Accounted(HeardLines(s, lines, parse))
    decreases |lines|
  {
    hide Accounted;
    if lines != [] {
      HeardLinesAccounted(s, Front(lines), parse);
      HeardLineAccounted(HeardLines(s, Front(lines), parse), Last(lines), parse);
    }
  }

  lemma {:induction false} RejectionsSettle(effects: seq<Effect>, pending: map<int, string>, upTo: int,
    reason: string, id: int)
    ensures Settlements(effects + Rejections(pending, upTo, reason), id)
      == Settlements(effects, id) + if 1 <= id < upTo && id in pending then 1 else 0
    ensures SentIds(effects + Rejections(pending, upTo, reason)) == SentIds(effects)
    decreases upTo
  {
    if upTo <= 1 {
      assert effects + [] == effects;
    } else {
      RejectionsSettle(effects, pending, upTo - 1, reason, id);
      var r, e := Rejections(pending, upTo - 1, reason), Rejected(upTo - 1, reason);
      if upTo - 1 in pending {
        hide Settlements, SentIds;
        assert effects + Rejections(pending, upTo, reason) == effects + r + [e];
        assert SentIds(effects + r) + [] == SentIds(effects + r);
      } else {
        assert r + [] == r;
      }
    }
  }

  lemma ClosedAccounted(s: State, reason: string)
    requires Accounted(s)
    ensures Accounted(Closed(s, reason))
  {
    if !s.closed {
      var t := s.(pending := map[], timers := {}, closed := true,
                  effects := s.effects + Rejections(s.pending, s.nextId, reason));
      forall id ensures Settlements(t.effects, id) == if Issued(t, id) && id !in t.pending then 1 else 0 {
        RejectionsSettle(s.effects, s.pending, s.nextId, reason, id);
      }
      RejectionsSettle(s.effects, s.pending, s.nextId, reason, 0);
      NothingSettled(t, ToldClosed);
    }
  }

  /** In any run of requests, answers, timeouts and the end, in any order, every request settles once. */
  lemma {:induction false} EachSettlesOnce(steps: seq<Step>, parse: Parse)
    ensures Accounted(Run(steps, parse))
    decreases |steps|
  {
    if steps == [] {
      assert Accounted(INITIAL);
    } else {
      EachSettlesOnce(Front(steps), parse);
      StepAccounted(Run(Front(steps), parse), Last(steps), parse);
    }
  }

  /** Once the channel has ended, every request that was ever sent is settled, and stays so. */
  lemma {:induction false} NoneLeftWaiting(steps: seq<Step>, parse: Parse)
    requires exists k :: 0 <= k < |steps| && steps[k].Close?
    ensures var s := Run(steps, parse);
      s.closed && forall id :: Issued(s, id) ==> Settlements(s.effects, id) == 1
  {
    EachSettlesOnce(steps, parse);
    StaysClosed(steps, parse);
  }

  lemma {:induction false} StaysClosed(steps: seq<Step>, parse: Parse)
    requires exists k :: 0 <= k < |steps| && steps[k].Close?
    ensures Run(steps, parse).closed
    decreases |steps|
  {
    var s := Run(Front(steps), parse);
    if !Last(steps).Close? {
      StaysClosed(Front(steps), parse);
      if Last(steps).Chunk? { HearingKeepsClosed(s, Front(Split(s.buffer + Last(steps).data, '\n')), parse); }
    }
  }

  lemma {:induction false} HearingKeepsClosed(s: State, lines: seq<string>, parse: Parse)
    ensures HeardLines(s, lines, parse).closed == s.closed
    decreases |lines|
  {
    if lines != [] {
      HearingKeepsClosed(s, Front(lines), parse);
      hide Blank;
    }
  }

  lemma ExpiredAccounted(s: State, id: int)
    requires Accounted(s) && id in s.pending
    ensures Accounted(Expired(s, id))
  {
    hide Accounted;
    OneSettled(s, id, Rejected(id, TIMED_OUT + s.pending[id]));
  }

  lemma HeardAccounted(s: State, data: string, parse: Parse)
    requires Accounted(s)
    ensures Accounted(Heard(s, data, parse))
  {
    var parts := Split(s.buffer + data, '\n');
    HeardLinesAccounted(s, Front(parts), parse);
    hide HeardLines, Settlements, SentIds, FromOne;
  }

  lemma StepAccounted(s: State, step: Step, parse: Parse)
    requires Accounted(s)
    ensures Accounted(After(s, step, parse))
  {
    hide Accounted, Asked, Expired, Heard, Closed;
    match step
    case Ask(op) => AskedAccounted(s, op);
    case TimedOut(id) => if id in s.timers && id in s.pending { ExpiredAccounted(s, id); }
    case Chunk(data) => HeardAccounted(s, data, parse);
    case Close(reason) => ClosedAccounted(s, reason);
  }

  // ----- how output is cut does not matter

  function LinesTaken(effects: seq<Effect>): seq<string>
    decreases |effects|
  {
    if effects == [] then [] else LinesTaken(Front(effects)) + if Last(effects).Took? then [Last(effects).line] else []
  }

  /** All that the agent printed in a run. */
  function Printed(steps: seq<Step>): string
    decreases |steps|
  {
    if steps == [] then "" else Printed(Front(steps)) + if Last(steps).Chunk? then Last(steps).data else ""
  }

  /** What was taken so far, and what is kept, are the lines of what was printed. */
  ghost predicate TookLinesOf(s: State, printed: string) {
    LinesTaken(s.effects) + [s.buffer] == Split(printed, '\n')
  }

  lemma OneMore(effects: seq<Effect>, e: Effect)
    ensures LinesTaken(effects + [e]) == LinesTaken(effects) + if e.Took? then [e.line] else []
  {
    assert Front(effects + [e]) == effects;
  }

  lemma NoLine(effects: seq<Effect>, e: Effect)
    requires !e.Took?
    ensures LinesTaken(effects + [e]) == LinesTaken(effects)
  {
    OneMore(effects, e);
    assert LinesTaken(effects) + [] == LinesTaken(effects);
  }

  lemma HeardLineTakes(s: State, line: string, parse: Parse)
    ensures LinesTaken(HeardLine(s, line, parse).effects) == LinesTaken(s.effects) + [line]
    ensures HeardLine(s, line, parse).buffer == s.buffer
  {
    OneMore(s.effects, Took(line));
    var took := s.effects + [Took(line)];
    hide LinesTaken, Blank;
    forall e | e != Took(line) && !e.Took? ensures LinesTaken(took + [e]) == LinesTaken(took) { NoLine(took, e); }
  }

  lemma {:induction false} HeardLinesTake(s: State, lines: seq<string>, parse: Parse)
    ensures LinesTaken(HeardLines(s, lines, parse).effects) == LinesTaken(s.effects) + lines
    decreases |lines|
  {
    hide LinesTaken, HeardLine;
    if lines == [] {
      assert LinesTaken(s.effects) + [] == LinesTaken(s.effects);
    } else {
      HeardLinesTake(s, Front(lines), parse);
      HeardLineTakes(HeardLines(s, Front(lines), parse), Last(lines), parse);
      assert Front(lines) + [Last(lines)] == lines;
    }
  }

  lemma {:induction false} RejectionsTakeNothing(effects: seq<Effect>, pending: map<int, string>, upTo: int,
    reason: string)
    ensures LinesTaken(effects + Rejections(pending, upTo, reason)) == LinesTaken(effects)
    decreases upTo
  {
    if upTo <= 1 {
      assert effects + [] == effects;
    } else {
      RejectionsTakeNothing(effects, pending, upTo - 1, reason);
      var r, e := Rejections(pending, upTo - 1, reason), Rejected(upTo - 1, reason);
      if upTo - 1 in pending {
        NoLine(effects + r, e);
        hide LinesTaken;
        assert effects + Rejections(pending, upTo, reason) == effects + r + [e];
      } else {
        assert r + [] == r;
      }
    }
  }

  lemma StepTakes(s: State, step: Step, parse: Parse, printed: string)
    requires TookLinesOf(s, printed)
    ensures TookLinesOf(After(s, step, parse), printed + if step.Chunk? then step.data else "")
  {
    assert printed + "" == printed;
    match step
    case Ask(op) => NoLine(s.effects, if s.closed then Refused else Sent(op, s.nextId));
    case TimedOut(id) => if id in s.pending { NoLine(s.effects, Rejected(id, TIMED_OUT + s.pending[id])); }
    case Chunk(data) => ChunkTakes(s, data, parse, printed);
    case Close(reason) =>
      var r := s.effects + Rejections(s.pending, s.nextId, reason);
      RejectionsTakeNothing(s.effects, s.pending, s.nextId, reason);
      NoLine(r, ToldClosed);
  }

  lemma ChunkTakes(s: State, data: string, parse: Parse, printed: string)
    requires TookLinesOf(s, printed)
    ensures TookLinesOf(Heard(s, data, parse), printed + data)
  {
    hide Split, LinesTaken;
    var parts, before := Split(s.buffer + data, '\n'), LinesTaken(s.effects);
    HeardLinesTake(s, Front(parts), parse);
    SplitMore(printed, data, '\n');
    assert (before + [s.buffer])[..|before|] == before;
    assert before + (Front(parts) + [Last(parts)]) == before + Front(parts) + [Last(parts)];
    assert Front(parts) + [Last(parts)] == parts;
  }

  /** However requests, timeouts and the end fall between chunks, the lines heard are those of all that was printed. */
  lemma {:induction false} LinesAsPrinted(steps: seq<Step>, parse: Parse)
    ensures TookLinesOf(Run(steps, parse), Printed(steps))
    decreases |steps|
  {
    if steps == [] {
      assert Split("", '\n') == [""];
    } else {
      LinesAsPrinted(Front(steps), parse);
      StepTakes(Run(Front(steps), parse), Last(steps), parse, Printed(Front(steps)));
      assert Printed(Front(steps)) + "" == Printed(Front(steps));
    }
  }

  lemma {:induction false} HeardLinesConcat(s: State, a: seq<string>, b: seq<string>, parse: Parse)
    ensures HeardLines(s, a + b, parse) == HeardLines(HeardLines(s, a, parse), b, parse)
    decreases |b|
  {
    if b == [] {
      assert a + b == a;
    } else {
      HeardLinesConcat(s, a, Front(b), parse);
      assert Front(a + b) == a + Front(b) && Last(a + b) == Last(b);
    }
  }

  lemma {:induction false} BufferApart(s: State, lines: seq<string>, buffer: string, parse: Parse)
    ensures HeardLines(s.(buffer := buffer), lines, parse) == HeardLines(s, lines, parse).(buffer := buffer)
    decreases |lines|
  {
    if lines != [] {
      BufferApart(s, Front(lines), buffer, parse);
      hide Blank;
    }
  }

  /** One chunk or two make no difference, to anything. */
  lemma CutsDoNotMatter(s: State, a: string, b: string, parse: Parse)
    ensures After(After(s, Chunk(a), parse), Chunk(b), parse) == After(s, Chunk(a + b), parse)
  {
    hide Split, HeardLines;
    var parts := Split(s.buffer + a, '\n');
    var more := Split(Last(parts) + b, '\n');
    SplitMore(s.buffer + a, b, '\n');
    assert s.buffer + a + b == s.buffer + (a + b);
    var first := HeardLines(s, Front(parts), parse);
    BufferApart(first, Front(more), Last(parts), parse);
    HeardLinesConcat(s, Front(parts), Front(more), parse);
    assert Front(Front(parts) + more) == Front(parts) + Front(more);
  }

  /** The first whole line is heard before the rest. */
  lemma FirstLine(s: State, line: string, after: string, parse: Parse)
    requires s.buffer == "" && '\n' !in line
    ensures Heard(s, line + ['\n'] + after, parse) == Heard(HeardLine(s, line, parse), after, parse)
    ensures HeardLine(s, line, parse).buffer == ""
  {
    hide Split, IndexOf, HeardLine, HeardLines, Heard, LinesTaken;
    HeardLineTakes(s, line, parse);
    SplitFirst(line, after, '\n');
    LineThenLines(s, line, Front(Split(after, '\n')), parse);
    HeardFrom(s, line + ['\n'] + after, parse);
    HeardFrom(HeardLine(s, line, parse), after, parse);
    assert Front([line] + Split(after, '\n')) == [line] + Front(Split(after, '\n'));
  }

  lemma {:induction false} HeardFrom(s: State, text: string, parse: Parse)
    requires s.buffer == ""
    ensures var parts := Split(text, '\n');
      Heard(s, text, parse) == HeardLines(s, Front(parts), parse).(buffer := Last(parts))
  {
    assert "" + text == text;
  }

  lemma LineThenLines(s: State, line: string, more: seq<string>, parse: Parse)
    ensures HeardLines(s, [line] + more, parse) == HeardLines(HeardLine(s, line, parse), more, parse)
  {
    hide HeardLine;
    HeardLinesConcat(s, [line], more, parse);
    assert Front([line]) == [];
    assert HeardLines(s, [line], parse) == HeardLine(s, line, parse);
  }

  /** What is kept and what comes are heard as one. */
  lemma HeardWhole(s: State, chunk: string, parse: Parse)
    ensures Heard(s.(buffer := ""), s.buffer + chunk, parse) == Heard(s, chunk, parse)
  {
    hide Split, HeardLines;
    assert "" + (s.buffer + chunk) == s.buffer + chunk;
    BufferApart(s, Front(Split(s.buffer + chunk, '\n')), "", parse);
  }

  lemma LineApart(s: State, line: string, parse: Parse)
    ensures HeardLine(s.(buffer := ""), line, parse) == HeardLine(s, line, parse).(buffer := "")
  {
    hide Blank;
  }

  lemma HeardNone(s: State, parse: Parse)
    requires '\n' !in s.buffer
    ensures Heard(s.(buffer := ""), s.buffer, parse) == s
  {
    assert "" + s.buffer == s.buffer;
    assert Front([s.buffer]) == [];
  }

  // ----- what a success means

  /** A request succeeds only on the line that says so. */
  ghost predicate SaidSo(effects: seq<Effect>, parse: Parse) {
    forall k :: 0 <= k < |effects| && effects[k].Resolved? ==>
      k > 0 && effects[k - 1].Took? && parse(effects[k - 1].line) == Some(Ok(Some(effects[k].id)))
  }

  lemma NoSuccess(effects: seq<Effect>, more: seq<Effect>, parse: Parse)
    requires SaidSo(effects, parse) && forall e :: e in more ==> !e.Resolved?
    ensures SaidSo(effects + more, parse)
  {
    var all := effects + more;
    assert forall k :: |effects| <= k < |all| ==> all[k] == more[k - |effects|] && all[k] in more;
  }

  lemma Success(effects: seq<Effect>, line: string, id: int, parse: Parse)
    requires SaidSo(effects, parse) && parse(line) == Some(Ok(Some(id)))
    ensures SaidSo(effects + [Took(line)] + [Resolved(id)], parse)
  {}

  lemma HeardLineSaidSo(s: State, line: string, parse: Parse)
    requires SaidSo(s.effects, parse)
    ensures SaidSo(HeardLine(s, line, parse).effects, parse)
  {
    hide SaidSo, Blank;
    var took := s.(effects := s.effects + [Took(line)]);
    NoSuccess(s.effects, [Took(line)], parse);
    var e := parse(line);
    if !Blank(line, JsSpace) && e.Some? && e.value.Ok? && Answers(e.value, s.pending).Some? {
      Success(s.effects, line, e.value.id.value, parse);
    } else {
      forall x: Effect | !x.Resolved? ensures SaidSo(took.effects + [x], parse) { NoSuccess(took.effects, [x], parse); }
    }
  }

  lemma {:induction false} HeardLinesSaidSo(s: State, lines: seq<string>, parse: Parse)
    requires SaidSo(s.effects, parse)
    ensures SaidSo(HeardLines(s, lines, parse).effects, parse)
    decreases |lines|
  {
    hide SaidSo;
    if lines != [] {
      HeardLinesSaidSo(s, Front(lines), parse);
      HeardLineSaidSo(HeardLines(s, Front(lines), parse), Last(lines), parse);
    }
  }

  lemma {:induction false} RejectionsResolveNothing(pending: map<int, string>, upTo: int, reason: string)
    ensures forall e :: e in Rejections(pending, upTo, reason) ==> e.Rejected?
    decreases upTo
  {
    if upTo > 1 { RejectionsResolveNothing(pending, upTo - 1, reason); }
  }

  lemma {:induction false} SuccessWasSaid(steps: seq<Step>, parse: Parse)
    ensures SaidSo(Run(steps, parse).effects, parse)
    decreases |steps|
  {
    if steps != [] {
      SuccessWasSaid(Front(steps), parse);
      StepSaidSo(Run(Front(steps), parse), Last(steps), parse);
      hide After;
    }
  }

  lemma StepSaidSo(s: State, step: Step, parse: Parse)
    requires SaidSo(s.effects, parse)
    ensures SaidSo(After(s, step, parse).effects, parse)
  {
    match step
    case Ask(op) => NoSuccess(s.effects, [if s.closed then Refused else Sent(op, s.nextId)], parse);
    case TimedOut(id) => if id in s.pending { NoSuccess(s.effects, [Rejected(id, TIMED_OUT + s.pending[id])], parse); }
    case Chunk(data) => HeardLinesSaidSo(s, Front(Split(s.buffer + data, '\n')), parse);
    case Close(reason) =>
      var r := Rejections(s.pending, s.nextId, reason);
      RejectionsResolveNothing(s.pending, s.nextId, reason);
      NoSuccess(s.effects, r, parse);
      NoSuccess(s.effects + r, [ToldClosed], parse);
  }

  // ----- what a line does, and what a rejection tells

  /** It was sent and is not settled, by what was done so far. */
  ghost predicate Waits(effects: seq<Effect>, id: int) {
    && (exists k :: 0 <= k < |effects| && effects[k].Sent? && effects[k].id == id)
    && (forall k :: 0 <= k < |effects| ==> !Settles(effects[k], id))
  }

  /** What a line brings, after all that was done before it. */
  ghost predicate RightAnswer(before: seq<Effect>, said: Option<AgentEvent>, e: Effect) {
    match said
    case None => e == Warned
    case Some(Ready) => e == BecameReady
    case Some(Ok(Some(id))) => e == if Waits(before, id) then Resolved(id) else Passed(Ok(Some(id)))
    case Some(Error(Some(id), message)) => e == if Waits(before, id) then Rejected(id, message) else Warned
    case Some(Error(None, _)) => e == Warned
    case Some(other) => e == Passed(other)
  }

  ghost predicate AfterLine(effects: seq<Effect>, k: int)
    requires 0 <= k < |effects|
  {
    k > 0 && effects[k - 1].Took? && !Blank(effects[k - 1].line, JsSpace)
  }

  /** A rejection tells what the agent said, or which operation timed out, or why the channel ended. */
  ghost predicate ReasonGiven(effects: seq<Effect>, k: int, parse: Parse, steps: seq<Step>)
    requires 0 <= k < |effects| && effects[k].Rejected?
  {
    var id, reason := effects[k].id, effects[k].reason;
    || (AfterLine(effects, k) && parse(effects[k - 1].line) == Some(Error(Some(id), reason)))
    || (TimedOut(id) in steps && exists op :: Sent(op, id) in effects[..k] && reason == TIMED_OUT + op)
    || Close(reason) in steps
  }

  ghost predicate RightAt(effects: seq<Effect>, k: int, parse: Parse, steps: seq<Step>)
    requires 0 <= k < |effects|
  {
    match effects[k]
    case Took(line) =>
      Blank(line, JsSpace) || (k + 1 < |effects| && RightAnswer(effects[..k], parse(line), effects[k + 1]))
    case Rejected(_, _) => ReasonGiven(effects, k, parse, steps)
    case Sent(_, _) => true
    case Refused => true
    case ToldClosed => exists reason :: Close(reason) in steps
    case _ => AfterLine(effects, k)
  }

  ghost predicate AllRight(effects: seq<Effect>, parse: Parse, steps: seq<Step>) {
    forall k :: 0 <= k < |effects| ==> RightAt(effects, k, parse, steps)
  }

  lemma {:induction false} NoneSettles(effects: seq<Effect>, id: int)
    ensures Settlements(effects, id) == 0 <==> forall k :: 0 <= k < |effects| ==> !Settles(effects[k], id)
    decreases |effects|
  {
    if effects != [] {
      NoneSettles(Front(effects), id);
      assert forall k :: 0 <= k < |effects| - 1 ==> Front(effects)[k] == effects[k];
    }
  }

  lemma {:induction false} SentAre(effects: seq<Effect>, n: int, id: int)
    requires n >= 0 && SentIds(effects) == FromOne(n)
    ensures (exists k :: 0 <= k < |effects| && effects[k].Sent? && effects[k].id == id) <==> 1 <= id <= n
    decreases |effects|
  {
    FromOneIs(n);
    if effects != [] {
      var before, e := Front(effects), Last(effects);
      assert forall k :: 0 <= k < |before| ==> before[k] == effects[k];
      if e.Sent? {
        assert SentIds(before) == FromOne(n)[..n - 1] && e.id == FromOne(n)[n - 1];
        SentAre(before, n - 1, id);
        if 1 <= id < n {
          var k :| 0 <= k < |before| && before[k].Sent? && before[k].id == id;
          assert effects[k].Sent? && effects[k].id == id;
        }
      } else {
        assert SentIds(effects) == SentIds(before);
        SentAre(before, n, id);
        if 1 <= id <= n {
          var k :| 0 <= k < |before| && before[k].Sent? && before[k].id == id;
          assert effects[k].Sent? && effects[k].id == id;
        }
      }
    }
  }

  lemma {:induction false} FromOneIs(n: int)
    requires n >= 0
    ensures |FromOne(n)| == n && (n > 0 ==> FromOne(n)[n - 1] == n && FromOne(n)[..n - 1] == FromOne(n - 1))
    decreases n
  {
    if n > 0 { FromOneIs(n - 1); }
  }

  lemma AccountedWaits(s: State, id: int)
    requires Accounted(s)
    ensures id in s.pending <==> Waits(s.effects, id)
  {
    SentAre(s.effects, s.nextId - 1, id);
    NoneSettles(s.effects, id);
    hide SentIds, FromOne;
  }

  ghost predicate PendingSent(s: State) {
    forall id :: id in s.pending ==> Sent(s.pending[id], id) in s.effects
  }

  lemma MoreRight(effects: seq<Effect>, e: Effect, parse: Parse, steps: seq<Step>)
    requires AllRight(effects, parse, steps) && RightAt(effects + [e], |effects|, parse, steps)
    ensures AllRight(effects + [e], parse, steps)
  {
    forall k | 0 <= k < |effects| ensures RightAt(effects + [e], k, parse, steps) {
      StaysRight(effects, [e], k, parse, steps);
    }
    hide RightAt;
  }

  lemma StaysRight(effects: seq<Effect>, more: seq<Effect>, k: int, parse: Parse, steps: seq<Step>)
    requires 0 <= k < |effects| && RightAt(effects, k, parse, steps)
    ensures RightAt(effects + more, k, parse, steps)
  {
    assert (effects + more)[..k] == effects[..k];
    assert forall i :: 0 <= i < |effects| ==> (effects + more)[i] == effects[i];
    hide Blank, RightAnswer;
  }

  lemma {:induction false} MoreSteps(effects: seq<Effect>, parse: Parse, steps: seq<Step>, step: Step)
    requires AllRight(effects, parse, steps)
    ensures AllRight(effects, parse, steps + [step])
  {
    hide Blank, RightAnswer;
    forall k | 0 <= k < |effects| ensures RightAt(effects, k, parse, steps + [step]) {
      assert RightAt(effects, k, parse, steps);
      assert forall x :: x in steps ==> x in steps + [step];
    }
  }

  lemma LineRight(effects: seq<Effect>, line: string, e: Effect, parse: Parse, steps: seq<Step>)
    requires AllRight(effects, parse, steps) && !Blank(line, JsSpace) && RightAnswer(effects, parse(line), e)
    ensures AllRight(effects + [Took(line)] + [e], parse, steps)
  {
    var all := effects + [Took(line)] + [e];
    var n := |effects|;
    assert all == effects + [Took(line), e];
    forall k | 0 <= k < n ensures RightAt(all, k, parse, steps) {
      StaysRight(effects, [Took(line), e], k, parse, steps);
    }
    hide Blank;
    assert all[..n] == effects;
    assert RightAt(all, n, parse, steps);
    AnswerRight(all, n, parse, steps);
    hide RightAt;
  }

  lemma AnswerRight(all: seq<Effect>, n: nat, parse: Parse, steps: seq<Step>)
    requires n + 1 < |all| && all[n].Took? && !Blank(all[n].line, JsSpace)
    requires RightAnswer(all[..n], parse(all[n].line), all[n + 1])
    ensures RightAt(all, n + 1, parse, steps)
  {
    hide Blank, Waits;
  }

  lemma HeardLineRight(s: State, line: string, parse: Parse, steps: seq<Step>)
    requires Accounted(s) && PendingSent(s) && AllRight(s.effects, parse, steps)
    ensures var t := HeardLine(s, line, parse); PendingSent(t) && AllRight(t.effects, parse, steps)
  {
    var took := s.(effects := s.effects + [Took(line)]);
    if Blank(line, JsSpace) {
      MoreRight(s.effects, Took(line), parse, steps);
      hide AllRight, Blank, Waits;
    } else {
      var t := HeardLine(s, line, parse);
      var e := Last(t.effects);
      forall id ensures id in s.pending <==> Waits(s.effects, id) { AccountedWaits(s, id); }
      hide AllRight, Blank, Waits;
      assert t.effects == took.effects + [e] && RightAnswer(s.effects, parse(line), e);
      LineRight(s.effects, line, e, parse, steps);
    }
  }

  lemma {:induction false} HeardLinesRight(s: State, lines: seq<string>, parse: Parse, steps: seq<Step>)
    requires Accounted(s) && PendingSent(s) && AllRight(s.effects, parse, steps)
    ensures var t := HeardLines(s, lines, parse); PendingSent(t) && AllRight(t.effects, parse, steps)
    decreases |lines|
  {
    hide Accounted, PendingSent, AllRight;
    if lines != [] {
      HeardLinesAccounted(s, Front(lines), parse);
      HeardLinesRight(s, Front(lines), parse, steps);
      HeardLineRight(HeardLines(s, Front(lines), parse), Last(lines), parse, steps);
    }
  }

  /** The rejections are right when the channel is ended by a step of the run. */
  lemma {:induction false} RejectionsRight(effects: seq<Effect>, pending: map<int, string>, upTo: int, reason: string,
    parse: Parse, steps: seq<Step>)
    requires AllRight(effects, parse, steps) && Close(reason) in steps
    ensures AllRight(effects + Rejections(pending, upTo, reason), parse, steps)
    decreases upTo
  {
    if upTo <= 1 {
      assert effects + [] == effects;
    } else {
      RejectionsRight(effects, pending, upTo - 1, reason, parse, steps);
      var r, e := Rejections(pending, upTo - 1, reason), Rejected(upTo - 1, reason);
      if upTo - 1 in pending {
        assert effects + Rejections(pending, upTo, reason) == effects + r + [e];
        assert (effects + r + [e])[|effects + r|] == e;
        hide AllRight, Blank;
        MoreRight(effects + r, e, parse, steps);
      } else {
        assert r + [] == r;
      }
    }
  }

  lemma StepRight(s: State, step: Step, parse: Parse, steps: seq<Step>)
    requires Accounted(s) && PendingSent(s) && AllRight(s.effects, parse, steps) && step in steps
    ensures var t := After(s, step, parse); PendingSent(t) && AllRight(t.effects, parse, steps)
  {
    hide AllRight, Accounted, Blank, Waits;
    match step
    case Ask(op) =>
      var e := if s.closed then Refused else Sent(op, s.nextId);
      assert (s.effects + [e])[|s.effects|] == e;
      MoreRight(s.effects, e, parse, steps);
    case TimedOut(id) =>
      if id in s.pending {
        var e := Rejected(id, TIMED_OUT + s.pending[id]);
        assert (s.effects + [e])[|s.effects|] == e && (s.effects + [e])[..|s.effects|] == s.effects;
        MoreRight(s.effects, e, parse, steps);
      }
    case Chunk(data) => HeardLinesRight(s, Front(Split(s.buffer + data, '\n')), parse, steps);
    case Close(reason) =>
      RejectionsRight(s.effects, s.pending, s.nextId, reason, parse, steps);
      var all := s.effects + Rejections(s.pending, s.nextId, reason);
      assert (all + [ToldClosed])[|all|] == ToldClosed;
      MoreRight(all, ToldClosed, parse, steps);
  }

  /**
   * In any run, what each line says is done at once, as it was meant: a request that waits is resolved by its `ok`
   * and rejected by its `error`, with that message, and nothing else is; and every rejection gives its reason.
   */
  lemma {:induction false} LinesAreAnswered(steps: seq<Step>, parse: Parse)
    ensures AllRight(Run(steps, parse).effects, parse, steps) && PendingSent(Run(steps, parse))
    decreases |steps|
  {
    if steps != [] {
      var before := Run(Front(steps), parse);
      EachSettlesOnce(Front(steps), parse);
      LinesAreAnswered(Front(steps), parse);
      assert steps == Front(steps) + [Last(steps)];
      hide After, AllRight, PendingSent, Accounted;
      MoreSteps(before.effects, parse, Front(steps), Last(steps));
      StepRight(before, Last(steps), parse, steps);
    }
  }

  // ----- what each of the other steps does

  lemma {:induction false} SentOnce(effects: seq<Effect>, n: int, j: int, k: int)
    requires n >= 0 && SentIds(effects) == FromOne(n) && 0 <= j < |effects| && 0 <= k < |effects|
    requires effects[j].Sent? && effects[k].Sent? && effects[j].id == effects[k].id
    ensures j == k
    decreases |effects|
  {
    FromOneIs(n);
    var before, e := Front(effects), Last(effects);
    assert forall i :: 0 <= i < |before| ==> before[i] == effects[i];
    if e.Sent? {
      assert SentIds(before) == FromOne(n)[..n - 1] && e.id == FromOne(n)[n - 1];
      SentAre(before, n - 1, n);
      if j < |before| && k < |before| { SentOnce(before, n - 1, j, k); }
    } else {
      assert SentIds(effects) == SentIds(before);
      SentOnce(before, n, j, k);
    }
  }

  /** A request is sent under the next number, or refused once the channel has ended. */
  lemma AskTells(steps: seq<Step>, parse: Parse, op: string)
    ensures var s := Run(steps, parse);
      After(s, Ask(op), parse).effects == s.effects +
        [if exists k :: 0 <= k < |steps| && steps[k].Close? then Refused else Sent(op, |SentIds(s.effects)| + 1)]
  {
    hide *;
    EachSettlesOnce(steps, parse);
    ClosedMeans(steps, parse);
    AskedFrom(Run(steps, parse), op, parse);
  }

  lemma AskedFrom(s: State, op: string, parse: Parse)
    requires Accounted(s)
    ensures After(s, Ask(op), parse).effects ==
      s.effects + [if s.closed then Refused else Sent(op, |SentIds(s.effects)| + 1)]
  {
    FromOneIs(s.nextId - 1);
    hide Settlements, SentIds, FromOne;
  }

  lemma {:induction false} ClosedMeans(steps: seq<Step>, parse: Parse)
    ensures Run(steps, parse).closed <==> exists k :: 0 <= k < |steps| && steps[k].Close?
    decreases |steps|
  {
    if exists k :: 0 <= k < |steps| && steps[k].Close? {
      StaysClosed(steps, parse);
    } else if steps != [] {
      ClosedMeans(Front(steps), parse);
      assert forall k :: 0 <= k < |steps| - 1 ==> Front(steps)[k] == steps[k];
      assert !Last(steps).Close?;
      var s := Run(Front(steps), parse);
      if Last(steps).Chunk? { HearingKeepsClosed(s, Front(Split(s.buffer + Last(steps).data, '\n')), parse); }
    }
  }

  /** A timer that goes off rejects its request if that waits, and tells which operation it was. */
  lemma TimeoutTells(steps: seq<Step>, parse: Parse, op: string, id: int)
    ensures var s := Run(steps, parse);
      if !Waits(s.effects, id) then After(s, TimedOut(id), parse) == s
      else Sent(op, id) in s.effects ==>
        After(s, TimedOut(id), parse).effects == s.effects + [Rejected(id, TIMED_OUT + op)]
  {
    hide *;
    EachSettlesOnce(steps, parse);
    LinesAreAnswered(steps, parse);
    ExpiredFrom(Run(steps, parse), op, id, parse);
  }

  lemma ExpiredFrom(s: State, op: string, id: int, parse: Parse)
    requires Accounted(s) && PendingSent(s)
    ensures if !Waits(s.effects, id) then After(s, TimedOut(id), parse) == s
      else Sent(op, id) in s.effects ==>
        After(s, TimedOut(id), parse).effects == s.effects + [Rejected(id, TIMED_OUT + op)]
  {
    AccountedWaits(s, id);
    if Sent(op, id) in s.effects && id in s.pending {
      var j :| 0 <= j < |s.effects| && s.effects[j] == Sent(op, id);
      var k :| 0 <= k < |s.effects| && s.effects[k] == Sent(s.pending[id], id);
      SentOnce(s.effects, s.nextId - 1, j, k);
    }
    hide SentIds, FromOne, Waits, Settlements;
  }

  /** These requests, in the order they were asked, rejected for this reason. */
  ghost predicate RejectsJust(rs: seq<Effect>, waiting: iset<int>, reason: string) {
    && (forall k :: 0 <= k < |rs| ==> rs[k].Rejected? && rs[k].id in waiting && rs[k].reason == reason)
    && (forall j, k :: 0 <= j < k < |rs| ==> rs[j].id < rs[k].id)
    && (forall id :: id in waiting ==> Rejected(id, reason) in rs)
  }

  lemma {:induction false} RejectionsAre(pending: map<int, string>, upTo: int, reason: string)
    ensures RejectsJust(Rejections(pending, upTo, reason), (iset id | id in pending && 1 <= id < upTo), reason)
    decreases upTo
  {
    if upTo > 1 { RejectionsAre(pending, upTo - 1, reason); }
  }

  /** The end rejects all that wait, in the order they were asked, with its reason; a second end does nothing. */
  lemma CloseTells(steps: seq<Step>, parse: Parse, reason: string)
    ensures var s := Run(steps, parse); var t := After(s, Close(reason), parse);
      if exists k :: 0 <= k < |steps| && steps[k].Close? then t == s
      else exists rs ::
        t.effects == s.effects + rs + [ToldClosed] && RejectsJust(rs, (iset id | Waits(s.effects, id)), reason)
  {
    hide *;
    EachSettlesOnce(steps, parse);
    ClosedMeans(steps, parse);
    EndedFrom(Run(steps, parse), reason, parse);
  }

  lemma EndedFrom(s: State, reason: string, parse: Parse)
    requires Accounted(s)
    ensures var t := After(s, Close(reason), parse);
      if s.closed then t == s
      else exists rs ::
        t.effects == s.effects + rs + [ToldClosed] && RejectsJust(rs, (iset id | Waits(s.effects, id)), reason)
  {
    RejectionsAre(s.pending, s.nextId, reason);
    forall id ensures id in s.pending <==> Waits(s.effects, id) { AccountedWaits(s, id); }
    hide Waits, Settlements, SentIds, Rejections;
    assert (iset id | id in s.pending && 1 <= id < s.nextId) == iset id | Waits(s.effects, id);
    var rs := Rejections(s.pending, s.nextId, reason);
    if !s.closed { assert After(s, Close(reason), parse).effects == s.effects + rs + [ToldClosed]; }
  }

  // ----- the channel itself

  class AgentChannel {
    const parse: Parse
    var pending: map<int, string>
    var timers: set<int>
    var nextId: int
    var buffer: string
    var closed: bool
    ghost var effects: seq<Effect>

    constructor (parse: Parse)
      ensures Now() == INITIAL && this.parse == parse
    {
      this.parse := parse;
      pending, timers, nextId, buffer, closed, effects := map[], {}, 1, "", false, [];
    }

    ghost function Now(): State
      reads this
    {
      State(pending, timers, nextId, buffer, closed, effects)
    }

    method Request(op: string)
      modifies this
      ensures Now() == After(old(Now()), Ask(op), parse)
    {
      if closed {
        effects := effects + [Refused];
        return;
      }
      var id := nextId;
      nextId := nextId + 1;
      timers := timers + {id};
      pending := pending[id := op];
      effects := effects + [Sent(op, id)];
    }

    /** A request's timer goes off. */
    method Timeout(id: int)
      requires id in timers && id in pending
      modifies this
      ensures Now() == After(old(Now()), TimedOut(id), parse)
    {
      ghost var op := pending[id];
      timers := timers - {id};
      pending := pending - {id};
      effects := effects + [Rejected(id, TIMED_OUT + op)];
    }

    method Dispatch(event: AgentEvent)
      modifies this
      ensures Now() == Dispatched(old(Now()), event)
    {
      if event.Ready? {
        effects := effects + [BecameReady];
      } else if (event.Ok? || event.Error?) && event.id.Some? && event.id.value in pending {
        var id := event.id.value;
        pending := pending - {id};
        timers := timers - {id};
        effects := effects + [if event.Ok? then Resolved(id) else Rejected(id, event.message)];
      } else if event.Error? {
        effects := effects + [Warned];
      } else {
        effects := effects + [Passed(event)];
      }
    }

    method OnData(chunk: string)
      requires '\n' !in buffer
      modifies this
      ensures Now() == After(old(Now()), Chunk(chunk), parse) && '\n' !in buffer
    {
      hide Heard, HeardLine, HeardLines, LinesTaken, Split, Blank, IndexOf, Front, Last;
      ghost var whole := Heard(Now(), chunk, parse);
      if '\n' !in chunk {
        HeardWhole(Now(), chunk, parse);
        buffer := buffer + chunk;
        HeardNone(Now(), parse);
        return;
      }
      buffer := buffer + chunk;
      var newline := IndexOf(buffer, '\n');
      HeardWhole(old(Now()), chunk, parse);
      while newline != |buffer|
        invariant newline == IndexOf(buffer, '\n')
        invariant Heard(Now().(buffer := ""), buffer, parse) == whole
        decreases |buffer|
      {
        var line, rest := buffer[..newline], buffer[newline + 1..];
        CutAt(buffer, newline);
        FirstLine(Now().(buffer := ""), line, rest, parse);
        buffer := rest;
        ghost var before := Now();
        HearLine(line);
        HeardLineTakes(before, line, parse);
        LineApart(before, line, parse);
        newline := IndexOf(buffer, '\n');
      }
      HeardNone(Now(), parse);
    }

    /** The loop's body, once a line is cut off. */
    method HearLine(line: string)
      modifies this
      ensures Now() == HeardLine(old(Now()), line, parse)
    {
      effects := effects + [Took(line)];
      if !Blank(line, JsSpace) {
        match parse(line)
        case None => effects := effects + [Warned];
        case Some(event) => Dispatch(event);
      }
    }

    method Close(reason: string)
      requires nextId >= 1 && forall id :: id in pending ==> Issued(Now(), id)
      modifies this
      ensures Now() == After(old(Now()), Step.Close(reason), parse)
    {
      if closed { return; }
      closed := true;
      for id := 1 to nextId
        invariant pending == old(pending) && nextId == old(nextId) && closed && buffer == old(buffer)
        invariant timers == old(timers) - set i | 1 <= i < id && i in pending
        invariant effects == old(effects) + Rejections(pending, id, reason)
      {
        if id in pending {
          timers := timers - {id};
          effects := effects + [Rejected(id, reason)];
        }
      }
      pending := map[];
      effects := effects + [ToldClosed];
    }
  }
}
