/** Messages framed by headers (Language Server Protocol 3.17, "Base Protocol"), written and read in chunks. */
module LspFrames {
  import opened Strings
  import opened Bytes
  import opened WhiteSpace

  const MAX_LSP_MESSAGE: nat := 8 * 1024 * 1024

  const CR: Byte := 13
  const LF: Byte := 10
  const BREAK: seq<Byte> := [CR, LF, CR, LF]
  const NAME := "content-length:"

  type Buffer = seq<Byte>

  /** Where the first blank line starts, or -1. */
  function HeaderEnd(s: Buffer): (i: int)
    ensures i == -1 || (0 <= i && i + 4 <= |s| && s[i..i + 4] == BREAK)
  {
    if |s| < 4 then -1
    else if s[..4] == BREAK then 0
    else
      var i := HeaderEnd(s[1..]);
      assert i >= 0 ==> s[1..][i..i + 4] == s[i + 1..i + 5];
      if i == -1 then -1 else i + 1
  }

  // ----- the header that says how long, wherever it is in the headers

  function SkipSpaces(s: string): string {
    if s != [] && JsSpace(s[0]) then SkipSpaces(s[1..]) else s
  }

  /** `content-length:\s*(\d+)` right here, in any case. */
  function LengthHere(s: string): Option<nat> {
    if |NAME| <= |s| && Lower(s[..|NAME|]) == NAME then
      var digits := DigitRun(SkipSpaces(s[|NAME|..]));
      if digits == [] then None else Some(Value(digits))
    else None
  }

  /** The first such place, from the left. */
  function ContentLength(s: string): Option<nat> {
    if LengthHere(s).Some? || s == [] then LengthHere(s) else ContentLength(s[1..])
  }

  /** The length the headers give, when it is one a message may have. */
  function MessageLength(headers: Buffer): Option<nat> {
    var n := ContentLength(Decode(headers));
    if n.Some? && n.value <= MAX_LSP_MESSAGE then n else None
  }

  /** The name in any case, white space, and then these digits, and no more. */
  ghost predicate GivesLength(s: string, name: string, space: string, digits: string, rest: string) {
    && s == name + (space + (digits + rest)) && Lower(name) == "content-length:"
    && (forall c :: c in space ==> JsSpace(c))
    && digits != "" && Digits(digits) && (rest == "" || !IsDigit(rest[0]))
  }

  lemma {:induction false} SkipsSpace(space: string, t: string)
    requires (forall c :: c in space ==> JsSpace(c)) && (t == "" || !JsSpace(t[0]))
    ensures SkipSpaces(space + t) == t
    decreases |space|
  {
    hide JsSpace;
    if space == "" {
      assert space + t == t;
    } else {
      assert (space + t)[1..] == space[1..] + t && (space + t)[0] == space[0];
      SkipsSpace(space[1..], t);
    }
  }

  lemma {:induction false} SkipsJust(s: string) returns (space: string)
    ensures s == space + SkipSpaces(s) && forall c :: c in space ==> JsSpace(c)
    decreases |s|
  {
    hide JsSpace;
    if s != [] && JsSpace(s[0]) {
      var more := SkipsJust(s[1..]);
      space := [s[0]] + more;
      assert s == [s[0]] + s[1..];
    } else {
      space := "";
    }
  }

  lemma {:induction false} RunIsFront(s: string) returns (rest: string)
    ensures s == DigitRun(s) + rest && (rest == "" || !IsDigit(rest[0]))
    decreases |s|
  {
    if s != [] && IsDigit(s[0]) {
      rest := RunIsFront(s[1..]);
      assert s == [s[0]] + s[1..];
    } else {
      rest := s;
    }
  }

  /** Right here is just `content-length:`, in any case, white space or none, and all the digits of the number. */
  lemma LengthHereIs(s: string, n: nat)
    ensures LengthHere(s) == Some(n) <==>
      exists name, space, digits, rest :: GivesLength(s, name, space, digits, rest) && Value(digits) == n
  {
    forall name, space, digits, rest | GivesLength(s, name, space, digits, rest)
      ensures LengthHere(s) == Some(Value(digits))
    {
      GivenIsRead(s, name, space, digits, rest);
    }
    if LengthHere(s).Some? { var name, space, digits, rest := ReadIsGiven(s); }
    hide LengthHere, GivesLength;
  }

  lemma GivenIsRead(s: string, name: string, space: string, digits: string, rest: string)
    requires GivesLength(s, name, space, digits, rest)
    ensures LengthHere(s) == Some(Value(digits))
  {
    assert |Lower(name)| == |name|;
    assert s[..|NAME|] == name && s[|NAME|..] == space + (digits + rest);
    assert digits[0] in digits && !JsSpace(digits[0]) && (digits + rest)[0] == digits[0];
    SkipsSpace(space, digits + rest);
    RunOfDigits(digits, rest);
    hide Lower, JsSpace, SkipSpaces, DigitRun, Value;
  }

  lemma ReadIsGiven(s: string) returns (name: string, space: string, digits: string, rest: string)
    requires LengthHere(s).Some?
    ensures GivesLength(s, name, space, digits, rest) && LengthHere(s) == Some(Value(digits))
  {
    name := s[..|NAME|];
    space := SkipsJust(s[|NAME|..]);
    digits := DigitRun(SkipSpaces(s[|NAME|..]));
    rest := RunIsFront(SkipSpaces(s[|NAME|..]));
    assert s == name + s[|NAME|..];
    hide Lower, JsSpace, SkipSpaces, DigitRun, Value;
  }

  /** Of several places the first counts. */
  lemma {:induction false} FirstLengthCounts(s: string, i: nat)
    requires i <= |s| && (i < |s| ==> LengthHere(s[i..]).Some?) && forall j :: 0 <= j < i ==> LengthHere(s[j..]).None?
    ensures ContentLength(s) == if i < |s| then LengthHere(s[i..]) else None
    decreases i
  {
    hide LengthHere;
    assert s[0..] == s;
    if i > 0 {
      assert forall j :: 0 <= j < i - 1 ==> s[1..][j..] == s[j + 1..];
      assert s[1..][i - 1..] == s[i..];
      FirstLengthCounts(s[1..], i - 1);
    } else if s == "" {
      assert LengthHere("").None? by { assert |NAME| > 0; NothingGiven(); }
    }
  }

  lemma NothingGiven()
    ensures LengthHere("").None?
  {}

  // ----- reading

  /** What was delivered, and what is kept for later. */
  datatype Outcome = Outcome(messages: seq<Buffer>, kept: Buffer)

  /** One look at what has come: wait for more, skip what is not a frame, or take a message. */
  datatype Step = Wait | Skip(rest: Buffer) | Take(message: Buffer, rest: Buffer)

  function Look(s: Buffer): (step: Step)
    ensures !step.Wait? ==> |step.rest| < |s|
  {
    var end := HeaderEnd(s);
    if end == -1 then Wait else
      var n := MessageLength(s[..end]);
      var start := end + 4;
      if n == None then Skip(s[start..])
      else if |s| < start + n.value then Wait
      else Take(s[start..start + n.value], s[start + n.value..])
  }

  /** Reading everything that has come, in one go. */
  function Read(s: Buffer): Outcome
    decreases |s|
  {
    match Look(s)
    case Wait => Outcome([], s)
    case Skip(rest) => Read(rest)
    case Take(message, rest) => Outcome([message] + Read(rest).messages, Read(rest).kept)
  }

  class Frames {
    var buffer: Buffer
    /** The messages handed to the caller so far. */
    var delivered: seq<Buffer>

    constructor ()
      ensures buffer == [] && delivered == []
    {
      buffer, delivered := [], [];
    }

    method Push(chunk: Buffer)
      modifies this
      ensures delivered == old(delivered) + Read(old(buffer) + chunk).messages
      ensures buffer == Read(old(buffer) + chunk).kept
    {
      buffer := buffer + chunk;
      ghost var all := Read(buffer);
      while true
        invariant delivered + Read(buffer).messages == old(delivered) + all.messages
        invariant Read(buffer).kept == all.kept
        decreases |buffer|
      {
        ReadStep(buffer);
        hide *;
        var headerEnd := HeaderEnd(buffer);
        if headerEnd == -1 { return; }
        var length := MessageLength(buffer[..headerEnd]);
        var start := headerEnd + 4;
        if length == None {
          // These headers give no length one may have, so nothing follows them.
          buffer := buffer[start..];
          continue;
        }
        if |buffer| < start + length.value { return; }
        var message := buffer[start..start + length.value];
        buffer := buffer[start + length.value..];
        Associate(delivered, message, Read(buffer).messages);
        delivered := delivered + [message];
      }
    }
  }

  lemma Associate(a: seq<Buffer>, m: Buffer, b: seq<Buffer>)
    ensures a + [m] + b == a + ([m] + b)
  {}

  /** One turn of the reading loop. */
  lemma ReadStep(s: Buffer)
    ensures var end := HeaderEnd(s);
      if end == -1 then Read(s) == Outcome([], s) else
        var n := MessageLength(s[..end]);
        if n == None then Read(s) == Read(s[end + 4..])
        else if |s| < end + 4 + n.value then Read(s) == Outcome([], s)
        else var rest := Read(s[end + 4 + n.value..]);
          Read(s) == Outcome([s[end + 4..end + 4 + n.value]] + rest.messages, rest.kept)
  {
    LookUnfolds(s);
    hide HeaderEnd, MessageLength, Read, Look;
    LookIs(s, Look(s));
  }

  lemma LookUnfolds(s: Buffer)
    ensures var end := HeaderEnd(s);
      Look(s) == if end == -1 then Wait else
        var n := MessageLength(s[..end]);
        if n == None then Skip(s[end + 4..])
        else if |s| < end + 4 + n.value then Wait
        else Take(s[end + 4..end + 4 + n.value], s[end + 4 + n.value..])
  {
    hide HeaderEnd, MessageLength;
  }

  lemma LookIs(s: Buffer, step: Step)
    requires Look(s) == step
    ensures Read(s) == match step
      case Wait => Outcome([], s)
      case Skip(rest) => Read(rest)
      case Take(message, rest) => Outcome([message] + Read(rest).messages, Read(rest).kept)
  {
    hide Look;
  }

  lemma {:induction false} HeaderEndConcat(a: Buffer, b: Buffer)
    requires HeaderEnd(a) != -1
    ensures HeaderEnd(a + b) == HeaderEnd(a)
    decreases |a|
  {
    assert (a + b)[..4] == a[..4];
    if a[..4] != BREAK {
      assert (a + b)[1..] == a[1..] + b;
      HeaderEndConcat(a[1..], b);
    }
  }

  lemma LookMore(a: Buffer, b: Buffer)
    requires Look(a) != Wait
    ensures Look(a + b) == match Look(a)
      case Skip(rest) => Skip(rest + b)
      case Take(message, rest) => Take(message, rest + b)
  {
    hide HeaderEnd, MessageLength;
    var end := HeaderEnd(a);
    HeaderEndConcat(a, b);
    assert (a + b)[..end] == a[..end];
    var n := MessageLength(a[..end]);
    var start := end + 4;
    if n == None {
      assert (a + b)[start..] == a[start..] + b;
    } else {
      assert (a + b)[start..start + n.value] == a[start..start + n.value];
      assert (a + b)[start + n.value..] == a[start + n.value..] + b;
    }
  }

  /** More bytes change nothing about what was already read. */
  lemma {:induction false} ReadMore(a: Buffer, b: Buffer)
    ensures var r := Read(a); var more := Read(r.kept + b);
      Read(a + b) == Outcome(r.messages + more.messages, more.kept)
    decreases |a|
  {
    hide Look;
    LookIs(a, Look(a));
    if Look(a) != Wait {
      LookMore(a, b);
      LookIs(a + b, Look(a + b));
      ReadMore(Look(a).rest, b);
    }
  }

  function Concat(chunks: seq<Buffer>): Buffer
    decreases |chunks|
  {
    if chunks == [] then [] else chunks[0] + Concat(chunks[1..])
  }

  /** Pushing chunks one by one. */
  function Feed(o: Outcome, chunks: seq<Buffer>): Outcome
    decreases |chunks|
  {
    if chunks == [] then o else
      var r := Read(o.kept + chunks[0]);
      Feed(Outcome(o.messages + r.messages, r.kept), chunks[1..])
  }

  lemma {:induction false} FeedIsRead(s: Buffer, chunks: seq<Buffer>)
    ensures Feed(Read(s), chunks) == Read(s + Concat(chunks))
    decreases |chunks|
  {
    hide Read;
    if chunks == [] {
      assert s + [] == s;
    } else {
      ReadMore(s, chunks[0]);
      FeedIsRead(s + chunks[0], chunks[1..]);
      assert s + Concat(chunks) == s + chunks[0] + Concat(chunks[1..]);
    }
  }

  /**
   * For any bytes, stray lines included, what is delivered and what is kept depend only on
   * the bytes, not on how they were cut.
   */
  lemma CutsDoNotMatter(a: seq<Buffer>, b: seq<Buffer>)
    requires Concat(a) == Concat(b)
    ensures Feed(Outcome([], []), a) == Feed(Outcome([], []), b)
  {
    FeedIsRead([], a);
    FeedIsRead([], b);
  }

  // ----- writing

  function HeaderOf(n: nat): string {
    "Content-Length: " + Decimal(n)
  }

  lemma HeaderIsAscii(n: nat)
    ensures Ascii(HeaderOf(n)) && '\r' !in HeaderOf(n) && ':' !in HeaderOf(n)[15..]
  {
    assert HeaderOf(n)[15..] == " " + Decimal(n);
  }

  function Frame(message: Buffer): Buffer {
    HeaderIsAscii(|message|);
    Encode(HeaderOf(|message|)) + BREAK + message
  }

  function FrameAll(messages: seq<Buffer>): Buffer
    decreases |messages|
  {
    if messages == [] then [] else Frame(messages[0]) + FrameAll(messages[1..])
  }

  lemma {:induction false} FirstBreak(h: Buffer, more: Buffer)
    requires CR !in h
    ensures HeaderEnd(h + BREAK + more) == |h|
    decreases |h|
  {
    var s := h + BREAK + more;
    if h == [] {
      assert s[..4] == BREAK;
    } else {
      assert s[0] == h[0] && s[..4][0] != BREAK[0];
      assert s[1..] == h[1..] + BREAK + more;
      FirstBreak(h[1..], more);
    }
  }

  lemma {:induction false} AllDigits(d: string)
    requires Digits(d)
    ensures DigitRun(d) == d
  {
    if d != [] { AllDigits(d[1..]); }
  }

  lemma LengthOfHeader(n: nat)
    ensures LengthHere(HeaderOf(n)) == Some(n)
  {
    var h := HeaderOf(n);
    assert h[..|NAME|] == "Content-Length:";
    assert Lower("Content-Length:") == NAME;
    assert h[|NAME|..] == " " + Decimal(n);
    assert SkipSpaces(" " + Decimal(n)) == Decimal(n) by {
      assert (" " + Decimal(n))[1..] == Decimal(n);
      assert IsDigit(Decimal(n)[0]) by { assert Decimal(n)[0] in Decimal(n); }
    }
    AllDigits(Decimal(n));
    ValueOfDecimal(n);
  }

  lemma {:induction false} SkipMore(s: string, more: string)
    requires more != "" && !JsSpace(more[0]) && !IsDigit(more[0])
    ensures DigitRun(SkipSpaces(s + more)) == DigitRun(SkipSpaces(s))
    decreases |s|
  {
    if s == "" {
      assert s + more == more;
    } else if JsSpace(s[0]) {
      assert (s + more)[1..] == s[1..] + more;
      SkipMore(s[1..], more);
    } else {
      DigitsMore(s, more);
    }
  }

  lemma {:induction false} DigitsMore(s: string, more: string)
    requires more != "" && !IsDigit(more[0])
    ensures DigitRun(s + more) == DigitRun(s)
    decreases |s|
  {
    if s == "" {
      assert s + more == more;
    } else {
      assert (s + more)[1..] == s[1..] + more;
      DigitsMore(s[1..], more);
    }
  }

  /** A length header does not begin in some text and end in the header that follows. */
  lemma NotAcross(stray: string, n: nat)
    requires stray != ""
    ensures LengthHere(stray + HeaderOf(n)) == LengthHere(stray)
  {
    var header := HeaderOf(n);
    var s := stray + header;
    assert header[..15] == "Content-Length:";
    hide Lower, Decimal;
    if |NAME| <= |stray| {
      assert s[..|NAME|] == stray[..|NAME|] && s[|NAME|..] == stray[|NAME|..] + header;
      SkipMore(stray[|NAME|..], header);
    } else if |NAME| <= |s| {
      assert s[14] == header[..15][14 - |stray|] != ':';
      LowerAt(s[..|NAME|], 14);
    }
  }

  lemma LowerAt(s: string, i: nat)
    requires i < |s| && s[i] != ':'
    ensures Lower(s)[i] != ':'
  {}

  /** The header after some text gives the length, unless that text gives one itself. */
  lemma {:induction false} StrayText(stray: string, n: nat)
    ensures ContentLength(stray + HeaderOf(n)) == if ContentLength(stray).None? then Some(n) else ContentLength(stray)
    decreases |stray|
  {
    var s := stray + HeaderOf(n);
    if stray == [] {
      assert s == HeaderOf(n);
      LengthOfHeader(n);
    } else {
      NotAcross(stray, n);
      assert s[1..] == stray[1..] + HeaderOf(n);
      StrayText(stray[1..], n);
    }
  }

  /** Where the headers end that come after some bytes without a blank line. */
  lemma {:induction false} BreakAfter(stray: Buffer, header: Buffer, more: Buffer)
    requires HeaderEnd(stray) == -1 && CR !in header && LF !in header && |header| >= 3
    ensures HeaderEnd(stray + header + BREAK + more) == |stray| + |header|
    decreases |stray|
  {
    var s := stray + header + BREAK + more;
    if stray == [] {
      assert s == header + BREAK + more;
      FirstBreak(header, more);
    } else {
      assert s[1..] == stray[1..] + header + BREAK + more;
      BreakAfter(stray[1..], header, more);
      assert s[..4] != BREAK by {
        if |stray| >= 4 {
          assert s[..4] == stray[..4];
        } else {
          assert s[..4][|stray|] == header[0] && header[0] in header;
        }
      }
    }
  }

  /** The one look at some bytes without a blank line, and then a frame. */
  lemma LookPast(stray: Buffer, message: Buffer, more: Buffer)
    requires HeaderEnd(stray) == -1
    ensures var n := |message|;
      var found := ContentLength(Decode(stray));
      var length := if found.None? then n else found.value;
      Look(stray + Frame(message) + more)
        == if length > MAX_LSP_MESSAGE then Skip(message + more)
           else if |message + more| < length then Wait
           else Take((message + more)[..length], (message + more)[length..])
  {
    hide *;
    var n := |message|;
    HeaderIsAscii(n);
    HeaderBytes(n);
    var header, rest := Encode(HeaderOf(n)), message + more;
    FrameIs(stray, message, more);
    BreakAfter(stray, header, rest);
    DecodeConcat(stray, header);
    DecodeEncode(HeaderOf(n));
    StrayText(Decode(stray), n);
    LookAt(stray + header, rest);
  }

  lemma HeaderBytes(n: nat)
    ensures Ascii(HeaderOf(n))
    ensures var header := Encode(HeaderOf(n)); CR !in header && LF !in header && |header| >= 3
  {
    HeaderIsAscii(n);
    var header := Encode(HeaderOf(n));
    hide HeaderOf;
    assert |HeaderOf(n)| >= 3 by { HeaderIsLong(n); }
    forall i | 0 <= i < |header| ensures header[i] != CR && header[i] != LF { assert HeaderOf(n)[i] in HeaderOf(n); }
  }

  lemma HeaderIsLong(n: nat)
    ensures |HeaderOf(n)| >= 3
  {}

  lemma FrameIs(stray: Buffer, message: Buffer, more: Buffer)
    ensures Ascii(HeaderOf(|message|))
    ensures stray + Frame(message) + more == stray + Encode(HeaderOf(|message|)) + BREAK + (message + more)
  {
    HeaderIsAscii(|message|);
    hide Encode, HeaderOf;
  }

  /** The one look, told from the headers and what follows them. */
  lemma LookAt(h: Buffer, rest: Buffer)
    requires HeaderEnd(h + BREAK + rest) == |h|
    ensures Look(h + BREAK + rest) == match ContentLength(Decode(h))
      case None => Skip(rest)
      case Some(n) =>
        if n > MAX_LSP_MESSAGE then Skip(rest) else if |rest| < n then Wait else Take(rest[..n], rest[n..])
  {
    hide *;
    var s := h + BREAK + rest;
    LookUnfolds(s);
    PartsOf(h, rest);
    LengthIs(h);
    var n := MessageLength(h);
    if n != None && n.value <= |rest| {
      assert s[|h| + 4..|h| + 4 + n.value] == rest[..n.value] && s[|h| + 4 + n.value..] == rest[n.value..];
    }
  }

  lemma LengthIs(h: Buffer)
    ensures MessageLength(h) == match ContentLength(Decode(h))
      case None => None
      case Some(n) => if n > MAX_LSP_MESSAGE then None else Some(n)
  {
    hide ContentLength, Decode;
  }

  lemma PartsOf(h: Buffer, rest: Buffer)
    ensures var s := h + BREAK + rest;
      s[..|h|] == h && s[|h| + 4..] == rest && forall k :: 0 <= k <= |rest| ==> s[|h| + 4..|h| + 4 + k] == rest[..k]
    ensures forall k :: 0 <= k <= |rest| ==> (h + BREAK + rest)[|h| + 4 + k..] == rest[k..]
  {}

  /** What is delivered is shorter than what it is read from. */
  lemma {:induction false} DeliveredIsShorter(s: Buffer, m: Buffer)
    requires m in Read(s).messages
    ensures |m| < |s|
    decreases |s|
  {
    hide Look;
    LookIs(s, Look(s));
    match Look(s)
    case Wait =>
    case Skip(rest) => DeliveredIsShorter(rest, m);
    case Take(message, rest) =>
      TakenIsShorter(s);
      if m != message { DeliveredIsShorter(rest, m); }
  }

  lemma TakenIsShorter(s: Buffer)
    requires Look(s).Take?
    ensures |Look(s).message| < |s|
  {
    hide HeaderEnd, MessageLength;
  }

  /**
   * Stray bytes before a frame, with no blank line in them, do not keep its message from being read
   * when they give no length, or by chance the right one; when they give another one they do. One over
   * the limit makes the message be passed over as headers are: reading goes on with its own bytes, and
   * if nothing follows it is never delivered.
   */
  lemma FrameAfterStray(stray: Buffer, message: Buffer, more: Buffer)
    requires HeaderEnd(stray) == -1 && |message| <= MAX_LSP_MESSAGE
    ensures var found := ContentLength(Decode(stray));
      var read := Read(stray + Frame(message) + more);
      var wanted := Outcome([message] + Read(more).messages, Read(more).kept);
      && (found.None? ==> read == wanted)
      && (found.Some? && found.value <= MAX_LSP_MESSAGE ==> (read == wanted <==> found.value == |message|))
      && (found.Some? && found.value > MAX_LSP_MESSAGE ==> read == Read(message + more))
      && (found.Some? && found.value > MAX_LSP_MESSAGE && more == [] ==> message !in read.messages)
  {
    var s, rest := stray + Frame(message) + more, message + more;
    LookPast(stray, message, more);
    LookIs(s, Look(s));
    assert rest[..|message|] == message && rest[|message|..] == more;
    hide Read, Look, Frame, ContentLength, Decode;
    var length := match ContentLength(Decode(stray)) case None => |message| case Some(k) => k;
    if length <= MAX_LSP_MESSAGE && length <= |rest| && length != |message| {
      assert Read(s).messages[0] == rest[..length];
    }
    if length > MAX_LSP_MESSAGE && more == [] {
      assert rest == message;
      if message in Read(message).messages { DeliveredIsShorter(message, message); }
    }
  }

  lemma NothingRead()
    ensures Read([]) == Outcome([], [])
  {}

  lemma {:induction false} ReadFrames(messages: seq<Buffer>)
    requires forall m :: m in messages ==> |m| <= MAX_LSP_MESSAGE
    ensures Read(FrameAll(messages)) == Outcome(messages, [])
    decreases |messages|
  {
    hide Frame, Read;
    NothingRead();
    if messages != [] {
      ReadFrames(messages[1..]);
      FrameAfterStray([], messages[0], FrameAll(messages[1..]));
      assert [] + Frame(messages[0]) + FrameAll(messages[1..]) == FrameAll(messages);
      assert messages == [messages[0]] + messages[1..];
    }
  }

  /** Messages framed one after another and cut anywhere come out as they went in, and nothing is left. */
  lemma FramesRoundTrip(messages: seq<Buffer>, chunks: seq<Buffer>)
    requires forall m :: m in messages ==> |m| <= MAX_LSP_MESSAGE
    requires Concat(chunks) == FrameAll(messages)
    ensures Feed(Outcome([], []), chunks) == Outcome(messages, [])
  {
    FeedIsRead([], chunks);
    ReadFrames(messages);
    assert [] + Concat(chunks) == FrameAll(messages);
  }
}
