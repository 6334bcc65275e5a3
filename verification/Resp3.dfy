/**
 The RESP3 grammar with out-of-band pushes: a parse also says which pushes were handed to which handler.
 */
module Resp3 {
  import opened Bytes
  import Resp

  /** A double keeps the text of its numeral. A dict is the list of its items in insertion order. */
  datatype Value =
    | Err(text: bytes) | Str(data: bytes) | Num(n: int) | Double(text: bytes) | Bool(b: bool) | Nil
    | List(items: seq<Value>)
    | Dict(entries: seq<(Value, Value)>)

  /** What handle_push_response does with a push. */
  datatype Push = ToPubSub(message: seq<Value>) | ToInvalidation(message: seq<Value>) | Dropped(message: seq<Value>)

  datatype Fault = ConnectionFault | InvalidResponse | ValueFault | TypeFault | IndexFault

  datatype Parse<+T> = Done(value: T, next: nat, pushes: seq<Push>) | More | Bad(fault: Fault)

  datatype Form = Blob | BlobError | Verbatim

  /** Arrays and sets; the alternating keys and values of a map; the items of a push. */
  datatype Kind = Plain | Pairs | PushItems

  datatype Head =
    | Whole(value: Value)
    | Payload(form: Form, length: nat)
    | Group(kind: Kind, count: nat)
    | Reject(fault: Fault)

  function Counted(text: bytes, kind: Kind): Head {
    match ParseInt(text)
    case None => Reject(ValueFault)
    case Some(n) => Group(kind, if n < 0 then 0 else n)
  }

  function Sized(text: bytes, form: Form): Head {
    match ParseInt(text)
    case None => Reject(ValueFault)
    case Some(n) => if n < 0 then Reject(ValueFault) else Payload(form, n)
  }

  /** What the text of a header line announces. */
  function Classify(line: bytes): Head {
    if line == [] then
      Reject(ConnectionFault)
    else
      var tag, text := line[0], line[1..];
      if tag == 45 then // -
        if Resp.RaisesConnectionError(text) then Reject(ConnectionFault) else Whole(Err(text))
      else if tag == 33 then Sized(text, BlobError) // !
      else if tag == 43 then Whole(Str(text)) // +
      else if tag == 95 then Whole(Nil) // _
      else if tag == 58 || tag == 40 then // : and (
        (match ParseInt(text)
         case None => Reject(ValueFault)
         case Some(n) => Whole(Num(n)))
      else if tag == 44 then Whole(Double(text)) // ,
      else if tag == 35 then Whole(Bool(text == Ascii("t"))) // #
      else if tag == 36 then Sized(text, Blob) // $
      else if tag == 61 then Sized(text, Verbatim) // =
      else if tag == 42 || tag == 126 then Counted(text, Plain) // * and ~
      else if tag == 37 then Counted(text, Pairs) // %
      else if tag == 62 then Counted(text, PushItems) // >
      else Reject(InvalidResponse)
  }

  /** The result for a payload; a verbatim string loses the four bytes of its format. */
  function Finish(form: Form, data: bytes, next: nat): Parse<Value> {
    match form
    case Blob => Done(Str(data), next, [])
    case Verbatim => Done(Str(if |data| < 4 then [] else data[4..]), next, [])
    case BlobError => if Resp.RaisesConnectionError(data) then Bad(ConnectionFault) else Done(Err(data), next, [])
  }

  predicate Hashable(v: Value) {
    !v.List? && !v.Dict?
  }

  /** Equality of dict keys: True and 1 are one key; two error objects never are. */
  predicate SameKey(a: Value, b: Value) {
    !a.Err? && AsNumber(a) == AsNumber(b)
  }

  function AsNumber(v: Value): Value {
    if v.Bool? then Num(if v.b then 1 else 0) else v
  }

  /** Where a key is in a dict; its length when it is not there. */
  function Position(entries: seq<(Value, Value)>, key: Value): (p: nat)
    ensures p <= |entries|
    ensures p < |entries| ==> SameKey(entries[p].0, key)
    ensures forall k :: 0 <= k < p ==> !SameKey(entries[k].0, key)
  {
    if entries == [] then 0
    else if SameKey(entries[0].0, key) then 0
    else 1 + Position(entries[1..], key)
  }

  /** resp_dict[key] = value: a key that is there keeps its place. */
  function Insert(entries: seq<(Value, Value)>, key: Value, value: Value): seq<(Value, Value)> {
    var p := Position(entries, key);
    if p == |entries| then entries + [(key, value)] else entries[p := (entries[p].0, value)]
  }

  function DictOf(fields: seq<Value>): seq<(Value, Value)> {
    if |fields| < 2 then []
    else Insert(DictOf(fields[..|fields| - 2]), fields[|fields| - 2], fields[|fields| - 1])
  }

  function Route(handler: bool, message: seq<Value>): Push
    requires |message| > 0
  {
    if message[0] != Str(Ascii("invalidate")) then ToPubSub(message)
    else if handler then ToInvalidation(message)
    else Dropped(message)
  }

  /** What a push is to a caller that asked for pushes: the message handler returns it, the other one nothing. */
  function Returned(push: Push): Value {
    if push.ToPubSub? then List(push.message) else Nil
  }

  /** Whether item k may itself be answered by a push. */
  predicate Wants(kind: Kind, k: nat, push: bool) {
    push && (kind.PushItems? || (kind.Pairs? && k % 2 == 1))
  }

  /** How a stream is read: whether an invalidation handler is set, and what ends a line. */
  datatype Dialect = Dialect(handler: bool, mode: Resp.Mode)

  /** The reply at position i; `push` is push_request. */
  function ParseAt(d: Dialect, s: bytes, i: nat, push: bool): (p: Parse<Value>)
    requires i <= |s|
    ensures p.Done? ==> i < p.next <= |s|
    decreases |s| - i, 0
  {
    match Resp.FindLine(d.mode, s, i)
    case Found(stop) => AfterHead(d, s, Classify(s[i..stop]), stop + 2, push)
    case _ => More
  }

  function AfterHead(d: Dialect, s: bytes, head: Head, next: nat, push: bool): (p: Parse<Value>)
    requires next <= |s|
    ensures p.Done? ==> next <= p.next <= |s|
    decreases |s| - next, if head.Group? then 2 * head.count + 1 else 0
  {
    match head
    case Reject(fault) => Bad(fault)
    case Whole(value) => Done(value, next, [])
    case Payload(form, n) =>
      if next + n + 2 <= |s| then Finish(form, s[next..next + n], next + n + 2) else More
    case Group(kind, n) =>
      match ParseItems(d, kind, s, next, if kind.Pairs? then 2 * n else n, push)
      case More => More
      case Bad(fault) => Bad(fault)
      case Done(items, j, pushes) =>
        match kind
        case Plain => Done(List(items), j, pushes)
        case Pairs => Done(Dict(DictOf(items)), j, pushes)
        case PushItems =>
          if items == [] then Bad(IndexFault)
          else AfterPush(d, s, Route(d.handler, items), j, pushes, push)
  }

  /** A push is the result only if it was asked for; otherwise the next reply is. */
  function AfterPush(d: Dialect, s: bytes, routed: Push, j: nat, pushes: seq<Push>, push: bool): (p: Parse<Value>)
    requires j <= |s|
    ensures p.Done? ==> j <= p.next <= |s|
    decreases |s| - j, 1
  {
    if push then Done(Returned(routed), j, pushes + [routed])
    else
      match ParseAt(d, s, j, false)
      case More => More
      case Bad(fault) => Bad(fault)
      case Done(value, k, more) => Done(value, k, pushes + [routed] + more)
  }

  function ParseItems(d: Dialect, kind: Kind, s: bytes, i: nat, n: nat, push: bool): (p: Parse<seq<Value>>)
    requires i <= |s|
    ensures p.Done? ==> i <= p.next <= |s| && |p.value| == n
    decreases |s| - i, n
  {
    if n == 0 then
      Done([], i, [])
    else
      match ParseItems(d, kind, s, i, n - 1, push)
      case More => More
      case Bad(fault) => Bad(fault)
      case Done(items, j, pushes) =>
        match ParseAt(d, s, j, Wants(kind, n - 1, push))
        case More => More
        case Bad(fault) => Bad(fault)
        case Done(item, k, more) =>
          if kind.Pairs? && n % 2 == 0 && !Hashable(items[n - 2]) then Bad(TypeFault)
          else Done(items + [item], k, pushes + more)
  }

  // ---------------------------------------------------------------- more bytes, and bytes in front

  lemma {:induction false} ParseExtends(d: Dialect, s: bytes, t: bytes, i: nat, push: bool)
    requires s <= t && i <= |s| && !ParseAt(d, s, i, push).More?
    ensures ParseAt(d, t, i, push) == ParseAt(d, s, i, push)
    decreases |s| - i, 0
  {
    hide Classify, AfterHead, Resp.FindLine;
    Resp.LineExtends(d.mode, s, t, i);
    var line := Resp.FindLine(d.mode, s, i);
    if line.Found? {
      assert s[i..line.stop] == t[i..line.stop];
      AfterHeadExtends(d, s, t, Classify(s[i..line.stop]), line.stop + 2, push);
    }
  }

  lemma {:induction false} AfterHeadExtends(d: Dialect, s: bytes, t: bytes, head: Head, next: nat, push: bool)
    requires s <= t && next <= |s| && !AfterHead(d, s, head, next, push).More?
    ensures AfterHead(d, t, head, next, push) == AfterHead(d, s, head, next, push)
    decreases |s| - next, if head.Group? then 2 * head.count + 1 else 0
  {
    hide ParseItems, ParseAt, DictOf, Finish, Route, AfterPush;
    match head
    case Payload(_, n) => assert s[next..next + n] == t[next..next + n];
    case Group(kind, n) =>
      var count := if kind.Pairs? then 2 * n else n;
      ItemsExtend(d, kind, s, t, next, count, push);
      var p := ParseItems(d, kind, s, next, count, push);
      if kind.PushItems? && p.Done? && p.value != [] {
        AfterPushExtends(d, s, t, Route(d.handler, p.value), p.next, p.pushes, push);
      }
    case _ =>
  }

  lemma {:induction false} AfterPushExtends(d: Dialect, s: bytes, t: bytes, routed: Push, j: nat, pushes: seq<Push>,
      push: bool)
    requires s <= t && j <= |s| && !AfterPush(d, s, routed, j, pushes, push).More?
    ensures AfterPush(d, t, routed, j, pushes, push) == AfterPush(d, s, routed, j, pushes, push)
    decreases |s| - j, 1
  {
    hide ParseAt;
    if !push {
      ParseExtends(d, s, t, j, false);
    }
  }

  lemma {:induction false} ItemsExtend(d: Dialect, kind: Kind, s: bytes, t: bytes, i: nat, n: nat, push: bool)
    requires s <= t && i <= |s| && !ParseItems(d, kind, s, i, n, push).More?
    ensures ParseItems(d, kind, t, i, n, push) == ParseItems(d, kind, s, i, n, push)
    decreases |s| - i, n
  {
    hide ParseAt;
    if n > 0 {
      ItemsExtend(d, kind, s, t, i, n - 1, push);
      var p := ParseItems(d, kind, s, i, n - 1, push);
      if p.Done? {
        ParseExtends(d, s, t, p.next, Wants(kind, n - 1, push));
      }
    }
  }

  function Shifted<T>(p: Parse<T>, offset: nat): Parse<T> {
    if p.Done? then p.(next := p.next + offset) else p
  }

  lemma {:induction false} ParseShift(d: Dialect, pre: bytes, s: bytes, i: nat, push: bool)
    requires i <= |s|
    ensures ParseAt(d, pre + s, |pre| + i, push) == Shifted(ParseAt(d, s, i, push), |pre|)
    decreases |s| - i, 0
  {
    hide Classify, AfterHead, Resp.FindLine;
    Resp.LineShift(d.mode, pre, s, i);
    var line := Resp.FindLine(d.mode, s, i);
    if line.Found? {
      assert (pre + s)[|pre| + i..|pre| + line.stop] == s[i..line.stop];
      AfterHeadShift(d, pre, s, Classify(s[i..line.stop]), line.stop + 2, push);
    }
  }

  lemma {:induction false} PayloadShift(d: Dialect, pre: bytes, s: bytes, form: Form, n: nat, next: nat, push: bool)
    requires next <= |s|
    ensures AfterHead(d, pre + s, Payload(form, n), |pre| + next, push) ==
            Shifted(AfterHead(d, s, Payload(form, n), next, push), |pre|)
  {
    if next + n + 2 <= |s| {
      assert (pre + s)[|pre| + next..|pre| + next + n] == s[next..next + n];
    }
  }

  lemma {:induction false} AfterHeadShift(d: Dialect, pre: bytes, s: bytes, head: Head, next: nat, push: bool)
    requires next <= |s|
    ensures AfterHead(d, pre + s, head, |pre| + next, push) == Shifted(AfterHead(d, s, head, next, push), |pre|)
    decreases |s| - next, if head.Group? then 2 * head.count + 1 else 0
  {
    hide ParseItems, ParseAt, DictOf, Finish, Route, AfterPush;
    match head
    case Payload(form, n) => PayloadShift(d, pre, s, form, n, next, push);
    case Group(kind, n) =>
      var count := if kind.Pairs? then 2 * n else n;
      ItemsShift(d, kind, pre, s, next, count, push);
      var p := ParseItems(d, kind, s, next, count, push);
      if kind.PushItems? && p.Done? && p.value != [] {
        AfterPushShift(d, pre, s, Route(d.handler, p.value), p.next, p.pushes, push);
      }
    case Whole(_) =>
    case Reject(_) =>
  }

  lemma {:induction false} AfterPushShift(d: Dialect, pre: bytes, s: bytes, routed: Push, j: nat, pushes: seq<Push>,
      push: bool)
    requires j <= |s|
    ensures AfterPush(d, pre + s, routed, |pre| + j, pushes, push) ==
        Shifted(AfterPush(d, s, routed, j, pushes, push), |pre|)
    decreases |s| - j, 1
  {
    hide ParseAt;
    if !push {
      ParseShift(d, pre, s, j, false);
    }
  }

  lemma {:induction false} ItemsShift(d: Dialect, kind: Kind, pre: bytes, s: bytes, i: nat, n: nat, push: bool)
    requires i <= |s|
    ensures ParseItems(d, kind, pre + s, |pre| + i, n, push) == Shifted(ParseItems(d, kind, s, i, n, push), |pre|)
    decreases |s| - i, n
  {
    hide ParseAt;
    if n > 0 {
      ItemsShift(d, kind, pre, s, i, n - 1, push);
      var p := ParseItems(d, kind, s, i, n - 1, push);
      if p.Done? {
        ParseShift(d, pre, s, p.next, Wants(kind, n - 1, push));
      }
    }
  }

  // ---------------------------------------------------------------- lines without a bare LF

  function Strict(d: Dialect): Dialect {
    d.(mode := Resp.Strict)
  }

  function Lenient(d: Dialect): Dialect {
    d.(mode := Resp.Lenient)
  }

  lemma {:induction false} StrictLine(s: bytes, i: nat)
    requires i <= |s| && Resp.FindLine(Resp.Strict, s, i).Found?
    ensures Resp.FindLine(Resp.Lenient, s, i) == Resp.FindLine(Resp.Strict, s, i)
  {
  }

  /** The strict reader accepts no reply that the lenient one reads differently. */
  lemma {:induction false} StrictIsLenient(d: Dialect, s: bytes, i: nat, push: bool)
    requires i <= |s| && ParseAt(Strict(d), s, i, push).Done?
    ensures ParseAt(Lenient(d), s, i, push) == ParseAt(Strict(d), s, i, push)
    decreases |s| - i, 0
  {
    hide Classify, AfterHead, Resp.FindLine;
    StrictLine(s, i);
    var line := Resp.FindLine(Resp.Strict, s, i);
    StrictAfterHead(d, s, Classify(s[i..line.stop]), line.stop + 2, push);
  }

  lemma {:induction false} StrictAfterHead(d: Dialect, s: bytes, head: Head, next: nat, push: bool)
    requires next <= |s| && AfterHead(Strict(d), s, head, next, push).Done?
    ensures AfterHead(Lenient(d), s, head, next, push) == AfterHead(Strict(d), s, head, next, push)
    decreases |s| - next, if head.Group? then 2 * head.count + 1 else 0
  {
    hide ParseItems, ParseAt, DictOf, Finish, Route;
    match head
    case Group(kind, n) =>
      var count := if kind.Pairs? then 2 * n else n;
      StrictItemsAreLenient(d, kind, s, next, count, push);
      var p := ParseItems(Strict(d), kind, s, next, count, push);
      if kind.PushItems? && !push {
        StrictIsLenient(d, s, p.next, false);
      }
    case _ =>
  }

  lemma {:induction false} StrictItemsAreLenient(d: Dialect, kind: Kind, s: bytes, i: nat, n: nat, push: bool)
    requires i <= |s| && ParseItems(Strict(d), kind, s, i, n, push).Done?
    ensures ParseItems(Lenient(d), kind, s, i, n, push) == ParseItems(Strict(d), kind, s, i, n, push)
    decreases |s| - i, n
  {
    hide ParseAt;
    if n > 0 {
      StrictItemsAreLenient(d, kind, s, i, n - 1, push);
      StrictIsLenient(d, s, ParseItems(Strict(d), kind, s, i, n - 1, push).next, Wants(kind, n - 1, push));
    }
  }
}
