/**
 The RESP2 grammar as a partial parser over a byte string, and the printer it inverts.

 `ParseAt` says what the bytes that have arrived so far mean: a finished value and the position
 after it, a token that is still incomplete (and where that token starts), or a reply that raises.
 Both readers of the client are proved against it.
 */
module Resp {
  import opened Helpers
  import opened Bytes

  /** What a reply is to the caller: simple and bulk strings are both byte strings, both nulls are None. */
  datatype Value = Err(text: bytes) | Str(data: bytes) | Num(n: int) | Nil | List(items: seq<Value>)

  /** A reply as the server prints it. */
  datatype Wire =
    | WireError(text: bytes)
    | WireSimple(text: bytes)
    | WireInt(n: int)
    | WireNullBulk
    | WireNullArray
    | WireBulk(data: bytes)
    | WireArray(items: seq<Wire>)

  /** The exceptions that a reply itself can raise. */
  datatype Fault = ConnectionFault | InvalidResponse | ValueFault

  datatype Parse<+T> = Done(value: T, next: nat) | More(at: nat) | Bad(fault: Fault)

  /**
   How a line ends. The blocking reader takes the first CRLF. The asyncio reader takes the first LF
   and raises when no CR stands before it.
   */
  datatype Mode = Lenient | Strict

  datatype Line = Found(stop: nat) | Stalled | Broken

  /** The first CRLF at or after i. */
  function FindCrlf(s: bytes, i: nat): (found: Option<nat>)
    requires i <= |s|
    ensures found.Some? ==>
        i <= found.value && found.value + 2 <= |s| && s[found.value] == CR && s[found.value + 1] == LF
    ensures found.Some? ==> forall k :: i <= k < found.value ==> !(s[k] == CR && s[k + 1] == LF)
    ensures found.None? ==> forall k :: i <= k < |s| - 1 ==> !(s[k] == CR && s[k + 1] == LF)
    decreases |s| - i
  {
    if i + 1 >= |s| then None
    else if s[i] == CR && s[i + 1] == LF then Some(i)
    else FindCrlf(s, i + 1)
  }

  /** The first LF at or after i. */
  function FindLf(s: bytes, i: nat): (found: Option<nat>)
    requires i <= |s|
    ensures found.Some? ==> i <= found.value < |s| && s[found.value] == LF
    ensures found.Some? ==> forall k :: i <= k < found.value ==> s[k] != LF
    ensures found.None? ==> forall k :: i <= k < |s| ==> s[k] != LF
    decreases |s| - i
  {
    if i == |s| then None
    else if s[i] == LF then Some(i)
    else FindLf(s, i + 1)
  }

  /** Where the text of the line that starts at i stops; its CRLF follows. */
  function FindLine(m: Mode, s: bytes, i: nat): (line: Line)
    requires i <= |s|
    ensures line.Found? ==> i <= line.stop && line.stop + 2 <= |s|
  {
    match m
    case Lenient =>
      (match FindCrlf(s, i)
       case None => Stalled
       case Some(k) => Found(k))
    case Strict =>
      (match FindLf(s, i)
       case None => Stalled
       case Some(k) => if k > i && s[k - 1] == CR then Found(k - 1) else Broken)
  }

  const CONNECTION_CODES := ["WRONGPASS", "LOADING", "NOAUTH"]
  const CONNECTION_MESSAGES := [
    "max number of clients reached", "invalid password",
    "AUTH <password> called without any password configured for the default user. "
    + "Are you sure your configuration is correct?",
    "Client sent AUTH, but no password is set"
  ]

  /** True for the error lines that parse_error turns into a ConnectionError. */
  predicate RaisesConnectionError(text: bytes) {
    var code := FirstWord(text);
    || (exists c :: c in CONNECTION_CODES && code == Ascii(c))
    || (code == Ascii("ERR") && exists c :: c in CONNECTION_MESSAGES && text[|code|..] == [32] + Ascii(c))
  }

  function FirstWord(text: bytes): (word: bytes)
    ensures word <= text
  {
    if text == [] || text[0] == 32 then [] else [text[0]] + FirstWord(text[1..])
  }

  /** What the text of a header line announces. */
  datatype Head = Whole(value: Value) | Payload(length: nat) | Items(count: nat) | Reject(fault: Fault)

  function Classify(m: Mode, line: bytes): Head {
    if line == [] then
      Reject(if m.Lenient? then ConnectionFault else InvalidResponse)
    else
      var tag, text := line[0], line[1..];
      if tag == 45 then // -
        if RaisesConnectionError(text) then Reject(ConnectionFault) else Whole(Err(text))
      else if tag == 43 then // +
        Whole(Str(text))
      else if tag == 58 then // :
        (match ParseInt(text)
         case None => Reject(ValueFault)
         case Some(n) => Whole(Num(n)))
      else if (tag == 36 || tag == 42) && text == Ascii("-1") then // $-1 and *-1
        Whole(Nil)
      else if tag == 36 then // $
        (match ParseInt(text)
         case None => Reject(ValueFault)
         case Some(n) => if n < 0 then Reject(ValueFault) else Payload(n))
      else if tag == 42 then // *
        (match ParseInt(text)
         case None => Reject(ValueFault)
         case Some(n) => Items(if n < 0 then 0 else n))
      else
        Reject(InvalidResponse)
  }

  /** The reply that starts at position i of the bytes received so far. */
  function ParseAt(m: Mode, s: bytes, i: nat): (p: Parse<Value>)
    requires i <= |s|
    ensures p.Done? ==> i < p.next <= |s|
    ensures p.More? ==> i <= p.at <= |s|
    decreases |s| - i, 0
  {
    match FindLine(m, s, i)
    case Stalled => More(i)
    case Broken => Bad(ConnectionFault)
    case Found(stop) =>
      AfterHead(m, s, Classify(m, s[i..stop]), stop + 2)
  }

  /** The reply whose header line ended before position next. */
  function AfterHead(m: Mode, s: bytes, head: Head, next: nat): (p: Parse<Value>)
    requires next <= |s|
    ensures p.Done? ==> next <= p.next <= |s|
    ensures p.More? ==> next <= p.at <= |s|
    decreases |s| - next, if head.Items? then head.count + 1 else 0
  {
    match head
    case Reject(fault) => Bad(fault)
    case Whole(value) => Done(value, next)
    case Payload(n) =>
      if next + n + 2 <= |s| then Done(Str(s[next..next + n]), next + n + 2) else More(next)
    case Items(n) =>
      match ParseItems(m, s, next, n)
      case Done(items, last) => Done(List(items), last)
      case More(at) => More(at)
      case Bad(fault) => Bad(fault)
  }

  /** The n replies that follow each other from position i. */
  function ParseItems(m: Mode, s: bytes, i: nat, n: nat): (p: Parse<seq<Value>>)
    requires i <= |s|
    ensures p.Done? ==> i <= p.next <= |s| && |p.value| == n
    ensures p.More? ==> i <= p.at <= |s|
    decreases |s| - i, n
  {
    if n == 0 then
      Done([], i)
    else
      match ParseItems(m, s, i, n - 1)
      case More(at) => More(at)
      case Bad(fault) => Bad(fault)
      case Done(items, j) =>
        match ParseAt(m, s, j)
        case More(at) => More(at)
        case Bad(fault) => Bad(fault)
        case Done(item, k) => Done(items + [item], k)
  }

  /** The branches on the first byte of a line. */
  method Dispatch(m: Mode, raw: bytes) returns (head: Head)
    ensures head == Classify(m, raw)
  {
    if raw == [] {
      return Reject(if m.Lenient? then ConnectionFault else InvalidResponse);
    }
    var tag, text := raw[0], raw[1..];
    if tag == 45 {
      if RaisesConnectionError(text) {
        return Reject(ConnectionFault);
      }
      return Whole(Err(text));
    } else if tag == 43 {
      return Whole(Str(text));
    } else if tag == 58 {
      var n := ParseInt(text);
      return if n.None? then Reject(ValueFault) else Whole(Num(n.value));
    } else if tag == 36 && text == Ascii("-1") {
      return Whole(Nil);
    } else if tag == 36 {
      var n := ParseInt(text);
      return if n.None? || n.value < 0 then Reject(ValueFault) else Payload(n.value);
    } else if tag == 42 && text == Ascii("-1") {
      return Whole(Nil);
    } else if tag == 42 {
      var n := ParseInt(text);
      return if n.None? then Reject(ValueFault) else Items(if n.value < 0 then 0 else n.value);
    }
    return Reject(InvalidResponse);
  }

  lemma {:induction false} NoItems(m: Mode, s: bytes, i: nat)
    requires i <= |s|
    ensures ParseItems(m, s, i, 0) == Done([], i)
  {
  }

  lemma {:induction false} OneMoreItem(m: Mode, s: bytes, i: nat, k: nat)
    requires i <= |s| && ParseItems(m, s, i, k).Done?
    ensures var done := ParseItems(m, s, i, k);
      ParseItems(m, s, i, k + 1) ==
        match ParseAt(m, s, done.next)
        case More(at) => More(at)
        case Bad(fault) => Bad(fault)
        case Done(item, j) => Done(done.value + [item], j)
  {
  }

  lemma {:induction false} ArrayVerdict(m: Mode, s: bytes, i: nat, n: nat)
    requires i <= |s| && FindLine(m, s, i).Found?
    requires Classify(m, s[i..FindLine(m, s, i).stop]) == Items(n)
    ensures ParseAt(m, s, i) ==
      match ParseItems(m, s, FindLine(m, s, i).stop + 2, n)
      case Done(items, last) => Done(List(items), last)
      case More(at) => More(at)
      case Bad(fault) => Bad(fault)
  {
  }

  // ---------------------------------------------------------------- more bytes arrive

  lemma {:induction false} LineExtends(m: Mode, s: bytes, t: bytes, i: nat)
    requires s <= t && i <= |s| && !FindLine(m, s, i).Stalled?
    ensures FindLine(m, t, i) == FindLine(m, s, i)
  {
  }

  /** Later bytes never change a verdict: a finished reply, or one that raises, stays what it was. */
  lemma {:induction false} ParseExtends(m: Mode, s: bytes, t: bytes, i: nat)
    requires s <= t && i <= |s| && !ParseAt(m, s, i).More?
    ensures ParseAt(m, t, i) == ParseAt(m, s, i)
    decreases |s| - i, 0
  {
    hide Classify, FindLine, AfterHead;
    LineExtends(m, s, t, i);
    var line := FindLine(m, s, i);
    if line.Found? {
      assert s[i..line.stop] == t[i..line.stop];
      AfterHeadExtends(m, s, t, Classify(m, s[i..line.stop]), line.stop + 2);
    }
  }

  lemma {:induction false} AfterHeadExtends(m: Mode, s: bytes, t: bytes, head: Head, next: nat)
    requires s <= t && next <= |s| && !AfterHead(m, s, head, next).More?
    ensures AfterHead(m, t, head, next) == AfterHead(m, s, head, next)
    decreases |s| - next, if head.Items? then head.count + 1 else 0
  {
    hide ParseItems;
    match head
    case Items(n) => ItemsExtend(m, s, t, next, n);
    case Payload(n) => assert s[next..next + n] == t[next..next + n];
    case _ =>
  }

  lemma {:induction false} ItemsExtend(m: Mode, s: bytes, t: bytes, i: nat, n: nat)
    requires s <= t && i <= |s| && !ParseItems(m, s, i, n).More?
    ensures ParseItems(m, t, i, n) == ParseItems(m, s, i, n)
    decreases |s| - i, n
  {
    if n > 0 {
      ItemsExtend(m, s, t, i, n - 1);
      var p := ParseItems(m, s, i, n - 1);
      if p.Done? {
        ParseExtends(m, s, t, p.next);
      }
    }
  }

  /** The strict reader accepts no reply that the lenient one reads differently. */
  lemma {:induction false} StrictIsLenient(s: bytes, i: nat)
    requires i <= |s| && ParseAt(Strict, s, i).Done?
    ensures ParseAt(Lenient, s, i) == ParseAt(Strict, s, i)
    decreases |s| - i, 0
  {
    hide ParseItems, RaisesConnectionError, ParseInt;
    var line := FindLine(Strict, s, i);
    assert s[line.stop] == CR && s[line.stop + 1] == LF;
    var found := FindCrlf(s, i);
    assert found.Some? && found.value == line.stop;
    StrictAfterHead(s, Classify(Strict, s[i..line.stop]), line.stop + 2);
  }

  lemma {:induction false} StrictAfterHead(s: bytes, head: Head, next: nat)
    requires next <= |s| && AfterHead(Strict, s, head, next).Done?
    ensures AfterHead(Lenient, s, head, next) == AfterHead(Strict, s, head, next)
    decreases |s| - next, if head.Items? then head.count + 1 else 0
  {
    hide ParseItems;
    match head
    case Items(n) => StrictItemsAreLenient(s, next, n);
    case _ =>
  }

  lemma {:induction false} StrictItemsAreLenient(s: bytes, i: nat, n: nat)
    requires i <= |s| && ParseItems(Strict, s, i, n).Done?
    ensures ParseItems(Lenient, s, i, n) == ParseItems(Strict, s, i, n)
    decreases |s| - i, n
  {
    if n > 0 {
      StrictItemsAreLenient(s, i, n - 1);
      StrictIsLenient(s, ParseItems(Strict, s, i, n - 1).next);
    }
  }

  /** An array is finished only if every shorter run of its items is. */
  lemma {:induction false} ItemsPrefix(m: Mode, s: bytes, i: nat, k: nat, n: nat)
    requires i <= |s| && k <= n && !ParseItems(m, s, i, k).Done?
    ensures ParseItems(m, s, i, n) == ParseItems(m, s, i, k)
    decreases n
  {
    if k < n {
      ItemsPrefix(m, s, i, k, n - 1);
    }
  }

  // ---------------------------------------------------------------- dropping bytes in front

  function Shifted<T>(p: Parse<T>, offset: nat): Parse<T> {
    match p
    case Done(value, next) => Done(value, next + offset)
    case More(at) => More(at + offset)
    case Bad(fault) => Bad(fault)
  }

  lemma {:induction false} LineShift(m: Mode, pre: bytes, s: bytes, i: nat)
    requires i <= |s|
    ensures FindLine(m, pre + s, |pre| + i) ==
            match FindLine(m, s, i) { case Found(stop) => Found(|pre| + stop) case other => other }
  {
    var t, d := pre + s, |pre|;
    assert forall k :: d <= k < |t| ==> t[k] == s[k - d];
    if m.Lenient? {
      var a, b := FindCrlf(s, i), FindCrlf(t, d + i);
      if a.Some? {
        assert t[d + a.value] == CR && t[d + a.value + 1] == LF;
        assert b.Some? && b.value <= d + a.value;
      }
      if b.Some? {
        assert s[b.value - d] == CR && s[b.value - d + 1] == LF;
        assert a.Some? && a.value <= b.value - d;
      }
    } else {
      var a, b := FindLf(s, i), FindLf(t, d + i);
      if a.Some? {
        assert t[d + a.value] == LF;
        assert b.Some? && b.value <= d + a.value;
      }
      if b.Some? {
        assert s[b.value - d] == LF;
        assert a.Some? && a.value <= b.value - d;
      }
    }
  }

  /** A reply means the same wherever it stands. */
  lemma {:induction false} ParseShift(m: Mode, pre: bytes, s: bytes, i: nat)
    requires i <= |s|
    ensures ParseAt(m, pre + s, |pre| + i) == Shifted(ParseAt(m, s, i), |pre|)
    decreases |s| - i, 0
  {
    hide Classify, FindLine, AfterHead;
    LineShift(m, pre, s, i);
    var line := FindLine(m, s, i);
    if line.Found? {
      assert (pre + s)[|pre| + i..|pre| + line.stop] == s[i..line.stop];
      AfterHeadShift(m, pre, s, Classify(m, s[i..line.stop]), line.stop + 2);
    }
  }

  lemma {:induction false} AfterHeadShift(m: Mode, pre: bytes, s: bytes, head: Head, next: nat)
    requires next <= |s|
    ensures AfterHead(m, pre + s, head, |pre| + next) == Shifted(AfterHead(m, s, head, next), |pre|)
    decreases |s| - next, if head.Items? then head.count + 1 else 0
  {
    hide ParseItems;
    match head
    case Items(n) => ItemsShift(m, pre, s, next, n);
    case Payload(n) =>
      assert next + n + 2 <= |s| ==> (pre + s)[|pre| + next..|pre| + next + n] == s[next..next + n];
    case _ =>
  }

  lemma {:induction false} ItemsShift(m: Mode, pre: bytes, s: bytes, i: nat, n: nat)
    requires i <= |s|
    ensures ParseItems(m, pre + s, |pre| + i, n) == Shifted(ParseItems(m, s, i, n), |pre|)
    decreases |s| - i, n
  {
    hide ParseAt;
    if n > 0 {
      ItemsShift(m, pre, s, i, n - 1);
      var p := ParseItems(m, s, i, n - 1);
      if p.Done? {
        ParseShift(m, pre, s, p.next);
      }
    }
  }

  // ---------------------------------------------------------------- the printer

  function Header(tag: byte, text: bytes): bytes {
    [tag] + text + CRLF
  }

  function Encode(w: Wire): bytes {
    match w
    case WireError(text) => Header(45, text)
    case WireSimple(text) => Header(43, text)
    case WireInt(n) => Header(58, Decimal(n))
    case WireNullBulk => Header(36, Ascii("-1"))
    case WireNullArray => Header(42, Ascii("-1"))
    case WireBulk(data) => Header(36, Decimal(|data|)) + data + CRLF
    case WireArray(items) => Header(42, Decimal(|items|)) + EncodeAll(items)
  }

  function EncodeAll(items: seq<Wire>): bytes {
    if items == [] then [] else EncodeAll(items[..|items| - 1]) + Encode(items[|items| - 1])
  }

  /** The replies the client returns rather than raises, printed as the protocol requires. */
  predicate Returnable(w: Wire) {
    match w
    case WireError(text) => OneLine(text) && !RaisesConnectionError(text)
    case WireSimple(text) => OneLine(text)
    case WireArray(items) => forall i :: 0 <= i < |items| ==> Returnable(items[i])
    case _ => true
  }

  function Meaning(w: Wire): Value {
    match w
    case WireError(text) => Err(text)
    case WireSimple(text) => Str(text)
    case WireInt(n) => Num(n)
    case WireNullBulk => Nil
    case WireNullArray => Nil
    case WireBulk(data) => Str(data)
    case WireArray(items) => List(Meanings(items))
  }

  function Meanings(items: seq<Wire>): (values: seq<Value>)
    ensures |values| == |items|
  {
    if items == [] then [] else Meanings(items[..|items| - 1]) + [Meaning(items[|items| - 1])]
  }

  lemma {:induction false} HeaderLine(m: Mode, tag: byte, text: bytes, post: bytes)
    requires OneLine(text) && tag != CR && tag != LF
    ensures FindLine(m, Header(tag, text) + post, 0) == Found(1 + |text|)
    ensures (Header(tag, text) + post)[0..1 + |text|] == [tag] + text
  {
    var s, stop := Header(tag, text) + post, 1 + |text|;
    assert s[0..stop] == [tag] + text;
    assert s[stop] == CR && s[stop + 1] == LF;
    forall k | 0 <= k < stop ensures s[k] != CR && s[k] != LF {
      assert s[k] == ([tag] + text)[k];
    }
    assert FindCrlf(s, 0) == Some(stop);
    assert FindLf(s, 0) == Some(stop + 1);
  }

  lemma {:induction false} CountHead(m: Mode, n: nat)
    ensures Classify(m, [36] + Decimal(n)) == Payload(n)
    ensures Classify(m, [42] + Decimal(n)) == Items(n)
    ensures OneLine(Decimal(n))
  {
    DecimalRoundTrip(n);
    DecimalOfNat(n);
    assert ([36] + Decimal(n))[1..] == Decimal(n) == ([42] + Decimal(n))[1..];
  }

  /** The errors that mean that the connection cannot be used. */
  predicate ConnectionError(code: bytes, message: Option<bytes>) {
    || code in {Ascii("WRONGPASS"), Ascii("LOADING"), Ascii("NOAUTH")}
    || (code == Ascii("ERR") && message.Some? && exists c :: c in CONNECTION_MESSAGES && message.value == Ascii(c))
  }

  lemma {:induction false} FirstWordIs(code: bytes, rest: bytes)
    requires 32 !in code && (rest != [] ==> rest[0] == 32)
    ensures FirstWord(code + rest) == code
  {
    if code == [] {
      assert code + rest == rest;
    } else {
      assert (code + rest)[0] == code[0] && (code + rest)[1..] == code[1..] + rest;
      FirstWordIs(code[1..], rest);
    }
  }

  /** An error line is returned as an error value, unless its code, or its whole text after ERR, is one of those. */
  lemma {:induction false} ErrorLineExactly(m: Mode, code: bytes, message: Option<bytes>, post: bytes)
    requires 32 !in code
    requires var text := code + if message.Some? then [32] + message.value else []; OneLine(text)
    ensures var text := code + if message.Some? then [32] + message.value else [];
      ParseAt(m, Header(45, text) + post, 0) ==
        if ConnectionError(code, message) then Bad(ConnectionFault) else Done(Err(text), |Header(45, text)|)
  {
    hide RaisesConnectionError, ConnectionError, FindLine;
    var text := code + if message.Some? then [32] + message.value else [];
    HeaderLine(m, 45, text, post);
    assert ([45] + text)[1..] == text;
    RaisesExactly(code, message);
  }

  lemma {:induction false} RaisesExactly(code: bytes, message: Option<bytes>)
    requires 32 !in code
    ensures RaisesConnectionError(code + if message.Some? then [32] + message.value else []) <==>
      ConnectionError(code, message)
  {
    hide Ascii, FirstWord;
    var rest := if message.Some? then [32] + message.value else [];
    FirstWordIs(code, rest);
    assert (code + rest)[|code|..] == rest;
    CodesAreListed(code);
    forall c: string ensures rest == [32] + Ascii(c) <==> message.Some? && message.value == Ascii(c) {
      SameRest(message, Ascii(c));
    }
  }

  lemma {:induction false} SameRest(message: Option<bytes>, text: bytes)
    ensures (if message.Some? then [32] + message.value else []) == [32] + text <==> message == Some(text)
  {
    assert ([32] + text)[1..] == text && (message.Some? ==> ([32] + message.value)[1..] == message.value);
  }

  lemma {:induction false} CodesAreListed(code: bytes)
    ensures (exists c :: c in CONNECTION_CODES && code == Ascii(c)) <==>
      code in {Ascii("WRONGPASS"), Ascii("LOADING"), Ascii("NOAUTH")}
  {
    hide Ascii;
    assert CONNECTION_CODES[0] == "WRONGPASS" && CONNECTION_CODES[1] == "LOADING" && CONNECTION_CODES[2] == "NOAUTH";
  }

  /** A line of no known kind is refused. */
  lemma {:induction false} UnknownLineRefused(m: Mode, tag: byte, text: bytes, post: bytes)
    requires OneLine(text) && tag !in {CR, LF, 45, 43, 58, 36, 42}
    ensures ParseAt(m, Header(tag, text) + post, 0) == Bad(InvalidResponse)
  {
    hide FindLine;
    HeaderLine(m, tag, text, post);
  }

  /** A number, a length or a count that is no numeral is refused. */
  lemma {:induction false} NoNumeralRefused(m: Mode, tag: byte, text: bytes, post: bytes)
    requires OneLine(text) && tag in {58, 36, 42}
    requires forall sign: bytes, digits :: sign in {[], [MINUS], [PLUS]} && text == sign + digits ==>
      digits == [] || !AllDigits(digits)
    ensures ParseAt(m, Header(tag, text) + post, 0) == Bad(ValueFault)
  {
    hide FindLine, Ascii, ParseInt;
    HeaderLine(m, tag, text, post);
    assert ([tag] + text)[1..] == text;
    NoNumeral(text);
  }

  lemma {:induction false} NoNumeral(text: bytes)
    requires forall sign: bytes, digits :: sign in {[], [MINUS], [PLUS]} && text == sign + digits ==>
      digits == [] || !AllDigits(digits)
    ensures ParseInt(text).None? && text != Ascii("-1")
  {
    hide Ascii;
    var none: bytes := [];
    assert text == none + text;
    if text != [] && text[0] in {MINUS, PLUS} {
      var sign := [text[0]];
      assert text == sign + text[1..];
    }
    MinusOne();
  }

  lemma {:induction false} MinusOne()
    ensures Ascii("-1") == [MINUS] + [49] && AllDigits([49])
  {
  }

  /** What a printed reply announces in its header. */
  lemma {:induction false} HeadOf(m: Mode, w: Wire)
    requires Returnable(w)
    ensures w.WireError? ==> Classify(m, [45] + w.text) == Whole(Err(w.text))
    ensures w.WireSimple? ==> Classify(m, [43] + w.text) == Whole(Str(w.text))
    ensures w.WireInt? ==> Classify(m, [58] + Decimal(w.n)) == Whole(Num(w.n)) && OneLine(Decimal(w.n))
    ensures w.WireNullBulk? ==> Classify(m, [36] + Ascii("-1")) == Whole(Nil) && OneLine(Ascii("-1"))
    ensures w.WireNullArray? ==> Classify(m, [42] + Ascii("-1")) == Whole(Nil) && OneLine(Ascii("-1"))
    ensures w.WireBulk? ==> Classify(m, [36] + Decimal(|w.data|)) == Payload(|w.data|) && OneLine(Decimal(|w.data|))
    ensures w.WireArray? ==> Classify(m, [42] + Decimal(|w.items|)) == Items(|w.items|) && OneLine(Decimal(|w.items|))
  {
    match w
    case WireError(text) => assert ([45] + text)[1..] == text;
    case WireSimple(text) => assert ([43] + text)[1..] == text;
    case WireInt(n) =>
      DecimalRoundTrip(n);
      assert ([58] + Decimal(n))[1..] == Decimal(n);
    case WireNullBulk =>
      assert ([36] + Ascii("-1"))[1..] == Ascii("-1") == [45, 49];
    case WireNullArray =>
      assert ([42] + Ascii("-1"))[1..] == Ascii("-1") == [45, 49];
    case WireBulk(data) => CountHead(m, |data|);
    case WireArray(items) => CountHead(m, |items|);
  }

  lemma {:induction false} BulkRoundTrip(m: Mode, data: bytes, post: bytes)
    ensures ParseAt(m, Encode(WireBulk(data)) + post, 0) == Done(Str(data), |Encode(WireBulk(data))|)
  {
    hide Classify, FindLine, Decimal;
    HeadOf(m, WireBulk(data));
    var head := Header(36, Decimal(|data|));
    HeaderLine(m, 36, Decimal(|data|), data + CRLF + post);
    var s := Encode(WireBulk(data)) + post;
    assert s == head + (data + CRLF + post);
    assert s[|head|..|head| + |data|] == data;
  }

  lemma {:induction false} ArrayRoundTrip(m: Mode, items: seq<Wire>, post: bytes)
    requires ParseItems(m, EncodeAll(items) + post, 0, |items|) == Done(Meanings(items), |EncodeAll(items)|)
    ensures ParseAt(m, Encode(WireArray(items)) + post, 0) == Done(List(Meanings(items)), |Encode(WireArray(items))|)
  {
    hide Classify, FindLine, ParseItems, Decimal, Meanings, EncodeAll;
    assert Classify(m, [42] + Decimal(|items|)) == Items(|items|) && OneLine(Decimal(|items|)) by {
      CountHead(m, |items|);
    }
    var head := Header(42, Decimal(|items|));
    HeaderLine(m, 42, Decimal(|items|), EncodeAll(items) + post);
    assert Encode(WireArray(items)) + post == head + (EncodeAll(items) + post);
    ItemsShift(m, head, EncodeAll(items) + post, 0, |items|);
  }

  /** Parsing what the server printed gives the reply back and stops right behind it. */
  lemma {:induction false} RoundTrip(m: Mode, w: Wire, post: bytes)
    requires Returnable(w)
    ensures ParseAt(m, Encode(w) + post, 0) == Done(Meaning(w), |Encode(w)|)
    decreases w
  {
    hide Classify, FindLine, ParseItems, EncodeAll, Meanings, Decimal;
    HeadOf(m, w);
    match w
    case WireError(text) => HeaderLine(m, 45, text, post);
    case WireSimple(text) => HeaderLine(m, 43, text, post);
    case WireInt(n) => HeaderLine(m, 58, Decimal(n), post);
    case WireNullBulk => HeaderLine(m, 36, Ascii("-1"), post);
    case WireNullArray => HeaderLine(m, 42, Ascii("-1"), post);
    case WireBulk(data) => BulkRoundTrip(m, data, post);
    case WireArray(items) =>
      ItemsRoundTrip(m, items, post, w);
      ArrayRoundTrip(m, items, post);
  }

  lemma {:induction false} ItemsRoundTrip(m: Mode, items: seq<Wire>, post: bytes, whole: Wire)
    requires forall i :: 0 <= i < |items| ==> Returnable(items[i]) && items[i] < whole
    ensures ParseItems(m, EncodeAll(items) + post, 0, |items|) == Done(Meanings(items), |EncodeAll(items)|)
    decreases whole, |items|
  {
    hide ParseAt, Encode, Meaning;
    if items != [] {
      var init, last := items[..|items| - 1], items[|items| - 1];
      var front := EncodeAll(init);
      ItemsRoundTrip(m, init, Encode(last) + post, whole);
      assert EncodeAll(items) + post == front + (Encode(last) + post);
      RoundTrip(m, last, post);
      ParseShift(m, front, Encode(last) + post, 0);
    }
  }

  /** While bytes of the reply are missing, neither reader can finish or reject it. */
  lemma {:induction false} MissingBytes(m: Mode, w: Wire, s: bytes)
    requires Returnable(w) && s < Encode(w)
    ensures ParseAt(m, s, 0).More?
  {
    RoundTrip(m, w, []);
    assert Encode(w) + [] == Encode(w);
    if !ParseAt(m, s, 0).More? {
      ParseExtends(m, s, Encode(w), 0);
    }
  }
}
